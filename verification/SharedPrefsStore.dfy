/**
 * The older favorites store over shared preferences (FavoritesManager.kt):
 * one string-set entry, "favorite_books_ids", read with an empty default and
 * rewritten whole after each change.
 */
module SharedPrefsStore {
  import opened Wrappers

  class FavoritesManager {
    /** The string set stored under "favorite_books_ids", if any. */
    var stored: Option<set<string>>

    constructor (stored: Option<set<string>>)
      ensures this.stored == stored
    {
      this.stored := stored;
    }

    /** `getFavorites`: the stored set, or the empty set when nothing is stored. */
    function GetFavorites(): (r: set<string>)
      reads this
      ensures stored.None? ==> r == {}
      ensures stored.Some? ==> r == stored.value
    {
      stored.GetOr({})
    }

    /** `isFavorite`: membership in what `GetFavorites` reads. */
    function IsFavorite(id: string): (r: bool)
      reads this
      ensures r <==> id in GetFavorites()
      ensures stored.None? ==> !r
    {
      id in GetFavorites()
    }

    /** Reads the set, adds `id` to the copy, writes the copy back. */
    method AddFavorite(id: string)
      modifies this
      ensures stored == Some(old(GetFavorites()) + {id})
      ensures IsFavorite(id)
      ensures forall x :: x != id ==> (IsFavorite(x) <==> old(IsFavorite(x)))
      ensures old(IsFavorite(id)) ==> GetFavorites() == old(GetFavorites())
    {
      var current := GetFavorites();
      current := current + {id};
      stored := Some(current);
    }

    /** Reads the set, removes `id` from the copy, writes the copy back. */
    method RemoveFavorite(id: string)
      modifies this
      ensures stored == Some(old(GetFavorites()) - {id})
      ensures !IsFavorite(id)
      ensures forall x :: x != id ==> (IsFavorite(x) <==> old(IsFavorite(x)))
      ensures !old(IsFavorite(id)) ==> GetFavorites() == old(GetFavorites())
    {
      var current := GetFavorites();
      current := current - {id};
      stored := Some(current);
    }
  }

  /** Adding an id that was not a favorite and then removing it restores the set. */
  method AddThenRemove(manager: FavoritesManager, id: string)
    requires !manager.IsFavorite(id)
    modifies manager
    ensures manager.GetFavorites() == old(manager.GetFavorites())
  {
    manager.AddFavorite(id);
    manager.RemoveFavorite(id);
  }
}

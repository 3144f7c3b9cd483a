/**
 * The preferences-backed favorites store (FavoritesDataStore.kt): two typed
 * keys, "favorite_books_ids" (a set of ids) and "is_dark_mode" (a boolean),
 * each of which may be absent.  The file underneath is modelled by the two
 * fields; the flows are the read functions.
 */
module PreferencesStore {
  import opened Wrappers

  /** The set after toggling `id`: removed when present, added when absent. */
  function Toggled(ids: set<string>, id: string): (r: set<string>)
    ensures id in r <==> id !in ids
    ensures forall x :: x != id ==> (x in r <==> x in ids)
  {
    if id in ids then ids - {id} else ids + {id}
  }

  /** Toggling the same id twice gives back the set it started from. */
  lemma ToggleTwice(ids: set<string>, id: string)
    ensures Toggled(Toggled(ids, id), id) == ids
  {
  }

  class FavoritesDataStore {
    /** The value stored under "favorite_books_ids", if any. */
    var storedFavorites: Option<set<string>>
    /** The value stored under "is_dark_mode", if any. */
    var storedDarkMode: Option<bool>

    /** Opens the store over whatever the preferences file already holds. */
    constructor (favorites: Option<set<string>>, darkMode: Option<bool>)
      ensures storedFavorites == favorites && storedDarkMode == darkMode
    {
      storedFavorites := favorites;
      storedDarkMode := darkMode;
    }

    /** `favoritesFlow`: the stored set, or the empty set when nothing is stored. */
    function Favorites(): (r: set<string>)
      reads this
      ensures storedFavorites.None? ==> r == {}
      ensures storedFavorites.Some? ==> r == storedFavorites.value
    {
      storedFavorites.GetOr({})
    }

    /** `darkModeFlow`: the stored flag, or false when nothing is stored. */
    function DarkMode(): (r: bool)
      reads this
      ensures storedDarkMode.None? ==> !r
      ensures storedDarkMode.Some? ==> r == storedDarkMode.value
    {
      storedDarkMode.GetOr(false)
    }

    /** One read-modify-write edit of the favorites key. */
    method ToggleFavorite(id: string)
      modifies this
      ensures storedFavorites == Some(Toggled(old(Favorites()), id))
      ensures id in Favorites() <==> id !in old(Favorites())
      ensures forall x :: x != id ==> (x in Favorites() <==> x in old(Favorites()))
      ensures storedDarkMode == old(storedDarkMode)
    {
      var current := storedFavorites.GetOr({});
      if id in current {
        storedFavorites := Some(current - {id});
      } else {
        storedFavorites := Some(current + {id});
      }
    }

    /** One edit of the dark-mode key. */
    method SetDarkMode(isDark: bool)
      modifies this
      ensures storedDarkMode == Some(isDark) && DarkMode() == isDark
      ensures storedFavorites == old(storedFavorites)
    {
      storedDarkMode := Some(isDark);
    }
  }

  /**
   * Two toggles of one id bring back the favorites that were read before
   * them (the stored value may go from absent to an empty set).
   */
  method ToggleFavoriteTwice(store: FavoritesDataStore, id: string)
    modifies store
    ensures store.Favorites() == old(store.Favorites())
    ensures store.DarkMode() == old(store.DarkMode())
  {
    store.ToggleFavorite(id);
    store.ToggleFavorite(id);
    ToggleTwice(old(store.Favorites()), id);
  }
}

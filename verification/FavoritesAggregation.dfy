/**
 * The favorites screen's state (the body of `favoritesUiState` in
 * BookViewModel.kt): for the stored ids, taken in the set's iteration order,
 * fetch each id's details, drop the ids whose fetch failed, and publish
 * Empty or the surviving books.  The concurrent fan-out is modelled by the
 * per-id outcomes it collects.
 */
module FavoritesAggregation {
  import opened Wrappers
  import opened BookModel
  import opened UiState
  import BookRepository

  /** Author shown for a favorite whose details carry none. */
  const FavoriteUnknownAuthor := "Nieznany"

  /** The list row built from one id's details. */
  function FavoriteBook(id: string, d: BookDetails): (b: Book)
    ensures b.id == id && b.title == d.title && b.coverUrl == d.coverUrl && b.year == d.year
    ensures d.authorName.None? ==> b.authorName == FavoriteUnknownAuthor
    ensures d.authorName.Some? ==> b.authorName == d.authorName.value
  {
    Book(id, d.title, d.authorName.GetOr(FavoriteUnknownAuthor), d.coverUrl, d.year)
  }

  /** `ids.map { fetch-or-null }.filterNotNull()`. */
  function Survivors(ids: seq<string>, fetch: string -> Option<BookDetails>): (r: seq<Book>)
    ensures |r| <= |ids|
    ensures forall b | b in r :: b.id in ids && fetch(b.id).Some? && b == FavoriteBook(b.id, fetch(b.id).value)
    ensures forall id | id in ids && fetch(id).Some? :: FavoriteBook(id, fetch(id).value) in r
  {
    if ids == [] then []
    else
      var rest := Survivors(ids[1..], fetch);
      match fetch(ids[0])
      case Some(d) => [FavoriteBook(ids[0], d)] + rest
      case None => rest
  }

  /** Survivors keep the order of the ids: the result of a concatenation is the concatenation of the results. */
  lemma {:induction false} SurvivorsAppend(a: seq<string>, b: seq<string>, fetch: string -> Option<BookDetails>)
    ensures Survivors(a + b, fetch) == Survivors(a, fetch) + Survivors(b, fetch)
    decreases |a|
  {
    if a != [] {
      assert (a + b)[1..] == a[1..] + b;
      SurvivorsAppend(a[1..], b, fetch);
    } else {
      assert a + b == b;
    }
  }

  /** No book is lost exactly when no fetch failed. */
  lemma {:induction false} SurvivorsKeepAll(ids: seq<string>, fetch: string -> Option<BookDetails>)
    ensures |Survivors(ids, fetch)| == |ids| <==> forall i :: 0 <= i < |ids| ==> fetch(ids[i]).Some?
    decreases |ids|
  {
    if ids != [] {
      SurvivorsKeepAll(ids[1..], fetch);
      if fetch(ids[0]).Some? {
        assert forall i :: 1 <= i < |ids| ==> ids[i] == ids[1..][i - 1];
      }
    }
  }

  /** The state published once every fetch has settled. */
  function Aggregate(ids: seq<string>, fetch: string -> Option<BookDetails>): (r: FavoritesUiState)
    ensures r.FavoritesEmpty? || r.FavoritesSuccess?
    ensures ids == [] ==> r.FavoritesEmpty?
    ensures r.FavoritesEmpty? <==> forall id | id in ids :: fetch(id).None?
    ensures r.FavoritesSuccess? ==> r.favoriteBooks == Survivors(ids, fetch) && r.favoriteBooks != []
  {
    if |ids| == 0 then FavoritesEmpty
    else
      var books := Survivors(ids, fetch);
      if |books| == 0 then FavoritesEmpty
      else
        assert books[0] in books;
        FavoritesSuccess(books)
  }

  /** Everything published for one value of the id set: Loading, then the settled state. */
  function Emissions(ids: seq<string>, fetch: string -> Option<BookDetails>): (r: seq<FavoritesUiState>)
    ensures |r| == 2 && r[0] == FavoritesLoading && r[1] == Aggregate(ids, fetch)
  {
    [FavoritesLoading, Aggregate(ids, fetch)]
  }

  /** With ids a, b, c where only b fails, the screen shows the books for a and c, in that order. */
  lemma OneFailureDropsOneBook(fetch: string -> Option<BookDetails>)
    requires fetch("a").Some? && fetch("b").None? && fetch("c").Some?
    ensures Aggregate(["a", "b", "c"], fetch)
      == FavoritesSuccess([FavoriteBook("a", fetch("a").value), FavoriteBook("c", fetch("c").value)])
  {
  }

  /** Per-id details as the repository maps them from the fetched payloads. */
  function ViaRepository(payloads: string -> Option<BookDetailsDto>): string -> Option<BookDetails> {
    id => if payloads(id).Some? then Some(BookRepository.ToBookDetails(payloads(id).value)) else None
  }

  /**
   * The detail mapping never supplies an author, so every favorite built
   * from it shows the placeholder author.
   */
  lemma FavoritesFromRepositoryHaveNoAuthor(ids: seq<string>, payloads: string -> Option<BookDetailsDto>)
    ensures forall b | b in Survivors(ids, ViaRepository(payloads)) :: b.authorName == FavoriteUnknownAuthor
  {
  }
}

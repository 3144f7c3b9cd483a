/**
 * The list screen's pagination state machine (BookViewModel.kt), as pure
 * transitions.  `Pager` gathers the view model's paging fields and the
 * published screen state; each transition also returns the screen states it
 * published, in order.  `loadNextPage` suspends at its network call, so it is
 * split in two: `StartNextPage` runs up to the call, `FinishNextPage` is the
 * resumption with the call's outcome.
 */
module HomePaging {
  import opened Wrappers
  import opened BookModel
  import opened UiState

  const PageSize := 20
  /**
   * The fixed error text: used by a first-page failure that carries no
   * message, and always by a failed detail load.
   */
  const FallbackMessage := "Błąd"

  datatype Pager = Pager(
    offset: int,
    books: seq<Book>,
    isLastPage: bool,
    isLoadingMore: bool,
    ui: HomeUiState)

  datatype Step = Step(next: Pager, published: seq<HomeUiState>)

  /** The view model's fields before `init` runs. */
  const Initial := Pager(0, [], false, false, Loading)

  /** The list the screen shows for a state. */
  function Shown(ui: HomeUiState): seq<Book> {
    if ui.Success? then ui.books else []
  }

  /**
   * What holds between calls: the screen shows exactly the accumulated list,
   * no refresh indicator is left on, and the offset is a whole number of pages.
   */
  ghost predicate Inv(s: Pager) {
    && Shown(s.ui) == s.books
    && (s.ui.Success? ==> !s.ui.isRefreshing)
    && s.offset % PageSize == 0
  }

  lemma InitialInv()
    ensures Inv(Initial)
  {
  }

  /** `loadFirstPage`: publish Loading, reset the cursor and list, fetch offset 0. */
  function FirstPage(s: Pager, f: Fetch<seq<Book>>): (r: Step)
    ensures |r.published| == 2 && r.published[0] == Loading && r.published[1] == r.next.ui
    ensures r.next.offset == 0 && !r.next.isLastPage && r.next.isLoadingMore == s.isLoadingMore
    ensures f.Fetched? ==> r.next.books == f.value && r.next.ui == Success(f.value, false)
    ensures f.Failed? ==> r.next.books == [] && r.next.ui == Error(f.message.GetOr(FallbackMessage))
  {
    var reset := s.(ui := Loading, offset := 0, books := [], isLastPage := false);
    match f
    case Fetched(page) =>
      var filled := reset.(books := reset.books + page);
      var shown := Success(filled.books, false);
      Step(filled.(ui := shown), [Loading, shown])
    case Failed(message) =>
      var failed := Error(message.GetOr(FallbackMessage));
      Step(reset.(ui := failed), [Loading, failed])
  }

  /**
   * `refresh`: republish the shown list with the refresh indicator on, reset
   * the cursor, fetch offset 0; a failure is absorbed.
   */
  function Refresh(s: Pager, f: Fetch<seq<Book>>): (r: Step)
    ensures forall u :: u in r.published ==> u.Success?
    ensures |r.published| == 2 && r.published[1] == r.next.ui
    ensures r.published[0] == Success(Shown(s.ui), true) && !r.next.ui.isRefreshing
    ensures r.next.offset == 0 && !r.next.isLastPage && r.next.isLoadingMore == s.isLoadingMore
    ensures f.Fetched? ==> r.next.books == f.value && r.next.ui.books == f.value
    ensures f.Failed? ==> r.next.books == s.books && r.next.ui.books == s.books
  {
    var refreshing := Success(Shown(s.ui), true);
    var reset := s.(ui := refreshing, offset := 0, isLastPage := false);
    match f
    case Fetched(page) =>
      var shown := Success(page, false);
      Step(reset.(books := page, ui := shown), [refreshing, shown])
    case Failed(_) =>
      var shown := Success(reset.books, false);
      Step(reset.(ui := shown), [refreshing, shown])
  }

  /** The guard of `loadNextPage`: nothing in flight, more pages, a list on screen. */
  predicate Launches(s: Pager) {
    !s.isLoadingMore && !s.isLastPage && s.ui.Success?
  }

  /** `loadNextPage` up to its network call. */
  function StartNextPage(s: Pager): (r: Step)
    ensures r.published == [] && r.next.books == s.books && r.next.ui == s.ui
    ensures !Launches(s) ==> r.next == s
    ensures Launches(s) ==> r.next == s.(isLoadingMore := true, offset := s.offset + PageSize)
  {
    if s.isLoadingMore || s.isLastPage then Step(s, [])
    else if !s.ui.Success? then Step(s, [])
    else Step(s.(isLoadingMore := true).(offset := s.offset + PageSize), [])
  }

  /** `loadNextPage` from its network call on, ending with the `finally` reset. */
  function FinishNextPage(s: Pager, f: Fetch<seq<Book>>): (r: Step)
    requires s.isLoadingMore
    ensures !r.next.isLoadingMore
    ensures s.books <= r.next.books
    ensures f.Failed? ==> r.next == s.(offset := s.offset - PageSize, isLoadingMore := false) && r.published == []
    ensures f == Fetched([]) ==> r.next == s.(isLastPage := true, isLoadingMore := false) && r.published == []
    ensures f.Fetched? && f.value != [] ==>
      && r.next.books == s.books + f.value
      && r.next.offset == s.offset && r.next.isLastPage == s.isLastPage
      && r.published == [r.next.ui] && r.next.ui == Success(r.next.books, false)
  {
    var r := match f
      case Fetched(page) =>
        if page == [] then Step(s.(isLastPage := true), [])
        else
          var grown := s.books + page;
          Step(s.(books := grown, ui := Success(grown, false)), [Success(grown, false)])
      case Failed(_) => Step(s.(offset := s.offset - PageSize), []);
    r.(next := r.next.(isLoadingMore := false))
  }

  /** Every transition keeps the invariant. */
  lemma TransitionsKeepInv(s: Pager, f: Fetch<seq<Book>>)
    requires Inv(s)
    ensures Inv(FirstPage(s, f).next)
    ensures Inv(Refresh(s, f).next)
    ensures Inv(StartNextPage(s).next)
    ensures s.isLoadingMore ==> Inv(FinishNextPage(s, f).next)
  {
  }

  /** While a load-more is in flight, another `loadNextPage` changes nothing. */
  lemma NoOverlappingLoads(s: Pager)
    requires Launches(s)
    ensures StartNextPage(StartNextPage(s).next) == StartNextPage(s)
  {
  }

  /**
   * A failed refresh shows again the list that was on screen before it (for
   * a screen not showing a list, the empty list), while the cursor is back
   * at zero.
   */
  lemma RefreshFailureShowsPreviousList(s: Pager, message: Option<string>)
    requires Inv(s)
    ensures Refresh(s, Failed(message)).published == [Success(Shown(s.ui), true), Success(Shown(s.ui), false)]
    ensures Refresh(s, Failed(message)).next.books == s.books
    ensures Refresh(s, Failed(message)).next.offset == 0
    ensures !s.isLoadingMore ==> StartNextPage(Refresh(s, Failed(message)).next).next.offset == PageSize
  {
  }

  /**
   * A refresh that runs while a load-more is in flight resets the cursor to
   * 0; if the load-more then fails, its rollback takes the cursor to -20, so
   * the next load-more asks for offset 0 again.
   */
  lemma RefreshDuringFailedLoad(s: Pager, page: seq<Book>, message: Option<string>)
    requires Launches(s)
    ensures var started := StartNextPage(s).next;
            var refreshed := Refresh(started, Fetched(page)).next;
            var t := FinishNextPage(refreshed, Failed(message)).next;
            t.offset == -PageSize && t.books == page && Launches(t)
            && StartNextPage(t).next.offset == 0
  {
  }

  // ---------------------------------------------------------------------
  // Runs of load-more calls
  // ---------------------------------------------------------------------

  /** One `loadNextPage` call whose network call completes before anything else runs. */
  ghost function Cycle(s: Pager, f: Fetch<seq<Book>>): Pager {
    if Launches(s) then FinishNextPage(StartNextPage(s).next, f).next else s
  }

  /** A run of such calls, one per outcome. */
  ghost function Run(s: Pager, fs: seq<Fetch<seq<Book>>>): Pager
    decreases |fs|
  {
    if fs == [] then s else Run(Cycle(s, fs[0]), fs[1..])
  }

  function Concat(pages: seq<seq<Book>>): seq<Book> {
    if pages == [] then [] else pages[0] + Concat(pages[1..])
  }

  function AllFetched(pages: seq<seq<Book>>): seq<Fetch<seq<Book>>> {
    seq(|pages|, i requires 0 <= i < |pages| => Fetched(pages[i]))
  }

  /**
   * After n load-more calls that each received a non-empty page, the cursor
   * has moved n pages and the list is the old list followed by the pages,
   * in order.
   */
  lemma {:induction false} NonEmptyPagesRun(s: Pager, pages: seq<seq<Book>>)
    requires Launches(s)
    requires forall i :: 0 <= i < |pages| ==> pages[i] != []
    ensures Run(s, AllFetched(pages)).offset == s.offset + PageSize * |pages|
    ensures Run(s, AllFetched(pages)).books == s.books + Concat(pages)
    ensures Launches(Run(s, AllFetched(pages)))
    ensures pages != [] ==> Run(s, AllFetched(pages)).ui == Success(s.books + Concat(pages), false)
    decreases |pages|
  {
    if pages != [] {
      var t := Cycle(s, Fetched(pages[0]));
      assert AllFetched(pages)[1..] == AllFetched(pages[1..]);
      NonEmptyPagesRun(t, pages[1..]);
      assert s.books + Concat(pages) == t.books + Concat(pages[1..]);
    }
  }

  /** A failed load-more nets to nothing: cursor, list, flags and screen are as before. */
  lemma FailedLoadIsUndone(s: Pager, message: Option<string>)
    ensures Cycle(s, Failed(message)) == s
  {
  }

  lemma {:induction false} FailedLoadsAreUndone(s: Pager, fs: seq<Fetch<seq<Book>>>)
    requires forall i :: 0 <= i < |fs| ==> fs[i].Failed?
    ensures Run(s, fs) == s
    decreases |fs|
  {
    if fs != [] {
      FailedLoadIsUndone(s, fs[0].message);
      FailedLoadsAreUndone(s, fs[1..]);
    }
  }

  /**
   * An empty page marks the last page, keeps the list and screen, and keeps
   * the cursor advanced; every later load-more is then a no-op.
   */
  lemma {:induction false} EmptyPageEndsPaging(s: Pager, later: seq<Fetch<seq<Book>>>)
    requires Launches(s)
    ensures Cycle(s, Fetched([])) == s.(isLastPage := true, offset := s.offset + PageSize)
    ensures Run(Cycle(s, Fetched([])), later) == Cycle(s, Fetched([]))
    decreases |later|
  {
    if later != [] {
      EmptyPageEndsPaging(s, later[1..]);
    }
  }

  /** Load-more calls only ever append to the list. */
  lemma {:induction false} RunAppendsOnly(s: Pager, fs: seq<Fetch<seq<Book>>>)
    ensures s.books <= Run(s, fs).books
    decreases |fs|
  {
    if fs != [] {
      var t := Cycle(s, fs[0]);
      RunAppendsOnly(t, fs[1..]);
    }
  }

  lemma {:induction false} RunKeepsInv(s: Pager, fs: seq<Fetch<seq<Book>>>)
    requires Inv(s)
    ensures Inv(Run(s, fs))
    decreases |fs|
  {
    if fs != [] {
      if Launches(s) {
        TransitionsKeepInv(s, fs[0]);
        TransitionsKeepInv(StartNextPage(s).next, fs[0]);
      }
      RunKeepsInv(Cycle(s, fs[0]), fs[1..]);
    }
  }
}

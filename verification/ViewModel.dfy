/**
 * The view model of the list, detail and favorites screens
 * (BookViewModel.kt).  Its paging fields and published screen states are
 * updated step by step as in the source; each method is proved against the
 * pure transition of module HomePaging that specifies it.  Every repository
 * call is replaced by its outcome, passed in as a `Fetch`.
 */
module ViewModel {
  import opened Wrappers
  import opened BookModel
  import opened UiState
  import opened HomePaging
  import BookRepository
  import PreferencesStore

  class BookViewModel {
    var currentOffset: int
    var currentBooks: seq<Book>
    var isLastPage: bool
    var isLoadingMore: bool
    /** The current value of the list screen's state flow. */
    var uiState: HomeUiState
    /** Every value the list screen's state flow has been given, oldest first. */
    ghost var published: seq<HomeUiState>
    /** The current value of the detail screen's state flow. */
    var detailUiState: DetailUiState
    ghost var detailPublished: seq<DetailUiState>

    const favoritesDataStore: PreferencesStore.FavoritesDataStore

    /** The paging fields together with the list screen's state. */
    function State(): Pager
      reads this
    {
      Pager(currentOffset, currentBooks, isLastPage, isLoadingMore, uiState)
    }

    ghost predicate Valid()
      reads this
    {
      && Inv(State())
      && published != [] && published[|published| - 1] == uiState
      && detailPublished != [] && detailPublished[|detailPublished| - 1] == detailUiState
    }

    /** Creation, including `init`'s first `loadFirstPage`, given that call's outcome. */
    constructor (store: PreferencesStore.FavoritesDataStore, firstPage: Fetch<seq<Book>>)
      ensures Valid()
      ensures favoritesDataStore == store
      ensures State() == FirstPage(Initial, firstPage).next
      ensures published == [Loading] + FirstPage(Initial, firstPage).published
      ensures detailUiState == DetailLoading
    {
      currentOffset := 0;
      currentBooks := [];
      isLastPage := false;
      isLoadingMore := false;
      uiState := Loading;
      published := [Loading];
      detailUiState := DetailLoading;
      detailPublished := [DetailLoading];
      favoritesDataStore := store;
      new;
      LoadFirstPage(firstPage);
    }

    method LoadFirstPage(fetched: Fetch<seq<Book>>)
      requires Valid()
      modifies this
      ensures Valid()
      ensures State() == FirstPage(old(State()), fetched).next
      ensures published == old(published) + FirstPage(old(State()), fetched).published
      ensures detailUiState == old(detailUiState) && detailPublished == old(detailPublished)
    {
      uiState := Loading;
      published := published + [uiState];
      currentOffset := 0;
      currentBooks := [];
      isLastPage := false;
      match fetched
      case Fetched(books) =>
        currentBooks := currentBooks + books;
        uiState := Success(currentBooks, false);
        published := published + [uiState];
      case Failed(message) =>
        uiState := Error(message.GetOr(FallbackMessage));
        published := published + [uiState];
    }

    method Refresh(fetched: Fetch<seq<Book>>)
      requires Valid()
      modifies this
      ensures Valid()
      ensures State() == HomePaging.Refresh(old(State()), fetched).next
      ensures published == old(published) + HomePaging.Refresh(old(State()), fetched).published
      ensures detailUiState == old(detailUiState) && detailPublished == old(detailPublished)
    {
      var oldList := if uiState.Success? then uiState.books else [];
      uiState := Success(oldList, true);
      published := published + [uiState];
      currentOffset := 0;
      isLastPage := false;
      match fetched
      case Fetched(books) =>
        currentBooks := books;
        uiState := Success(currentBooks, false);
        published := published + [uiState];
      case Failed(_) =>
        uiState := Success(currentBooks, false);
        published := published + [uiState];
    }

    /**
     * `loadNextPage` up to its network call; `requested` is the offset it
     * asks for, or None when the guard returned early.
     */
    method LoadNextPage() returns (requested: Option<int>)
      requires Valid()
      modifies this
      ensures Valid()
      ensures State() == StartNextPage(old(State())).next
      ensures published == old(published)
      ensures requested == if Launches(old(State())) then Some(currentOffset) else None
      ensures detailUiState == old(detailUiState) && detailPublished == old(detailPublished)
    {
      if isLoadingMore || isLastPage {
        return None;
      }
      if !uiState.Success? {
        return None;
      }
      isLoadingMore := true;
      currentOffset := currentOffset + PageSize;
      requested := Some(currentOffset);
    }

    /** The resumption of `loadNextPage` with its network call's outcome. */
    method FinishNextPage(fetched: Fetch<seq<Book>>)
      requires Valid() && isLoadingMore
      modifies this
      ensures Valid()
      ensures State() == HomePaging.FinishNextPage(old(State()), fetched).next
      ensures published == old(published) + HomePaging.FinishNextPage(old(State()), fetched).published
      ensures detailUiState == old(detailUiState) && detailPublished == old(detailPublished)
    {
      match fetched {
        case Fetched(newBooks) =>
          if newBooks == [] {
            isLastPage := true;
          } else {
            currentBooks := currentBooks + newBooks;
            uiState := Success(currentBooks, false);
            published := published + [uiState];
          }
        case Failed(_) =>
          currentOffset := currentOffset - PageSize;
      }
      isLoadingMore := false;
    }

    /** `getBookDetails`, given the outcome of fetching the work's payload. */
    method GetBookDetails(fetched: Fetch<BookDetailsDto>)
      requires Valid()
      modifies this
      ensures Valid()
      ensures detailPublished == old(detailPublished) + [DetailLoading, detailUiState]
      ensures fetched.Fetched? ==> detailUiState == DetailSuccess(BookRepository.ToBookDetails(fetched.value))
      ensures fetched.Failed? ==> detailUiState == DetailError(FallbackMessage)
      ensures State() == old(State()) && published == old(published)
    {
      detailUiState := DetailLoading;
      detailPublished := detailPublished + [detailUiState];
      match fetched {
        case Fetched(dto) =>
          detailUiState := DetailSuccess(BookRepository.ToBookDetails(dto));
        case Failed(_) =>
          detailUiState := DetailError(FallbackMessage);
      }
      detailPublished := detailPublished + [detailUiState];
    }

    method ToggleFavorite(bookId: string)
      modifies favoritesDataStore
      ensures favoritesDataStore.Favorites() == PreferencesStore.Toggled(old(favoritesDataStore.Favorites()), bookId)
      ensures favoritesDataStore.DarkMode() == old(favoritesDataStore.DarkMode())
    {
      favoritesDataStore.ToggleFavorite(bookId);
    }

    /** Writes the negation of the current dark-mode value. */
    method ToggleDarkMode()
      modifies favoritesDataStore
      ensures favoritesDataStore.DarkMode() == !old(favoritesDataStore.DarkMode())
      ensures favoritesDataStore.Favorites() == old(favoritesDataStore.Favorites())
    {
      var current := favoritesDataStore.DarkMode();
      favoritesDataStore.SetDarkMode(!current);
    }
  }
}

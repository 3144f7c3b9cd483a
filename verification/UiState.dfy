/**
 * The screen states the view model publishes (BookViewModel.kt), and the
 * outcome of a repository call as the view model sees it.
 */
module UiState {
  import opened Wrappers
  import opened BookModel

  /**
   * What a suspended repository call resumed with: its value, or the
   * exception it threw, of which only the (nullable) message is used.
   */
  datatype Fetch<+T> = Fetched(value: T) | Failed(message: Option<string>)

  /** The list screen. */
  datatype HomeUiState =
    | Loading
    | Success(books: seq<Book>, isRefreshing: bool)
    | Error(message: string)

  /** The detail screen. */
  datatype DetailUiState =
    | DetailLoading
    | DetailSuccess(details: BookDetails)
    | DetailError(message: string)

  /** The favorites screen. */
  datatype FavoritesUiState =
    | FavoritesLoading
    | FavoritesSuccess(favoriteBooks: seq<Book>)
    | FavoritesEmpty
    | FavoritesError(message: string)
}

# BookLegend: a Dafny model of the catalog view model, mappers and favorites stores

BookLegend is an Android client for the Open Library catalog. This project models its state-management core:

- the list screen's pagination state machine in `BookViewModel`: an offset cursor, an accumulated book list, an `isLastPage` flag and an `isLoadingMore` guard, driven by `loadFirstPage`, `refresh` and `loadNextPage`;
- the detail screen's state, the dark-mode toggle and the favorites screen's aggregation;
- the repository's pure mapping from decoded payloads to the `Book` and `BookDetails` display records;
- the two favorites stores, `FavoritesDataStore` (preferences) and the older `FavoritesManager` (shared preferences).

Every network call is replaced by its outcome, `Fetch<T> = Fetched(value) | Failed(message)`, which the caller passes in. Persisted key-value storage is modelled as fields of type `Option`, where `None` means the key is absent.

Modules, leaf first:

- `Wrappers` defines `Option` (Kotlin's `T?`).
- `BookModel` holds the records of Book.kt and BookDtos.kt. Kotlin `Int` and `Long` become range-limited subtypes of `int`. The description field, typed `Any?` in Kotlin, becomes a `JsonValue`.
- `Decimal` renders integers the way `Int.toString()` does and parses them back, accepting only text in that exact form.
- `BookRepository` maps works to `Book` and detail payloads to `BookDetails`.
- `PreferencesStore` contains the class `FavoritesDataStore`.
- `SharedPrefsStore` contains the class `FavoritesManager`.
- `UiState` holds the three screen-state datatypes and `Fetch`.
- `HomePaging` holds the list screen's transitions as pure functions over a `Pager` record. Each transition also returns the screen states it published. Lemmas cover runs of load-more calls.
- `FavoritesAggregation` builds the favorites screen state from the stored ids and the per-id fetch outcomes.
- `ViewModel` contains the class `BookViewModel`. Its methods update the fields step by step, as the Kotlin does, and are proved equal to the `HomePaging` transitions.

`loadNextPage` suspends at its network call, and another call can run while it waits. The model therefore splits it in two. `LoadNextPage` runs the guard, sets `isLoadingMore` and advances the offset. `FinishNextPage` is the resumption with the call's outcome. This is what gives the `isLoadingMore` guard its meaning. `loadFirstPage`, `refresh` and `getBookDetails` are modelled as one step each.

The model follows the code also where its behaviour looks unintended:

- `refresh` publishes `Success(list shown or [], true)` from any state, not only from a list state (BookViewModel.kt:144-145).
- An empty page advances the offset by 20 and never rolls it back (BookViewModel.kt:166,170-171). So the offset is not "appended pages × 20". The invariant kept is only that the offset is a multiple of 20.
- A failed refresh keeps the old list on screen but leaves the cursor reset to 0 and `isLastPage` cleared (BookViewModel.kt:146-147,154-155). The next load-more therefore asks for offset 20 and appends to the old, longer list (`HomePaging.RefreshFailureShowsPreviousList`).
- A refresh can run while a load-more is in flight, and it resets the cursor to 0. If that load-more then fails, its rollback leaves the cursor at -20. The next load-more then asks for offset 0 again (`HomePaging.RefreshDuringFailedLoad`).
- Favorites are built from detail records, and the detail mapping never fills in an author (BookRepository.kt:54). Every favorite therefore shows the author "Nieznany" (`FavoritesAggregation.FavoritesFromRepositoryHaveNoAuthor`).

## Model

| member | source | states |
|---|---|---|
| `Decimal.IntToString` | app/src/main/java/com/example/booklegend/data/repository/BookRepository.kt:32 | `toString()` of a number is all digits, or '-' followed by digits for a negative number, with no leading zero: only 0 renders with a first digit '0'. Together with the round trip, this fixes the string uniquely |
| `Decimal.IntToStringRoundTrip` | app/src/main/java/com/example/booklegend/data/repository/BookRepository.kt:32 | parsing the rendered decimal string gives back the original integer |
| `Decimal.DigitsCanonical` | app/src/main/java/com/example/booklegend/data/repository/BookRepository.kt:32 | a digit string with no leading zero is exactly the rendering of its value |
| `Decimal.ParseIntCanonical` | app/src/main/java/com/example/booklegend/data/repository/BookRepository.kt:32 | the only text read back as n is `toString()` of n. With the round trip, parsing and rendering are inverse bijections, so every read-back lemma below fixes the exact text |
| `Decimal.ParseIntRejectsPadding` | app/src/main/java/com/example/booklegend/data/repository/BookRepository.kt:32 | "07", "-05" and "-0" are not renderings of any number, while "0" and "-12" are |
| `Decimal.IntToStringInjective` | app/src/main/java/com/example/booklegend/data/repository/BookRepository.kt:57 | distinct numbers render to distinct strings |
| `BookRepository.RemoveAll` | app/src/main/java/com/example/booklegend/data/repository/BookRepository.kt:20 | `replace(pat, "")` never lengthens the string |
| `BookRepository.RemoveAllKeepsClean` | app/src/main/java/com/example/booklegend/data/repository/BookRepository.kt:20 | a string in which the pattern does not occur is returned unchanged |
| `BookRepository.RemoveAllShortens` | app/src/main/java/com/example/booklegend/data/repository/BookRepository.kt:20 | a string in which the pattern occurs comes back strictly shorter |
| `BookRepository.RemoveAllChangesIffOccurs` | app/src/main/java/com/example/booklegend/data/repository/BookRepository.kt:20 | removal changes the key if and only if "/works/" occurs in it |
| `BookRepository.RemoveAllAtFirst` | app/src/main/java/com/example/booklegend/data/repository/BookRepository.kt:20 | at the first occurrence of the pattern, the text before it is kept, the occurrence is dropped, and removal continues on the rest. With `RemoveAllKeepsClean` this pins down the left-to-right scan that removes every occurrence |
| `BookRepository.CleanId` | app/src/main/java/com/example/booklegend/data/repository/BookRepository.kt:20 | the id is the key with every "/works/" removed. It is never longer than the key, and equals the key exactly when "/works/" does not occur in it |
| `BookRepository.CleanIdRemovesEveryOccurrence` | app/src/main/java/com/example/booklegend/data/repository/BookRepository.kt:20 | every occurrence goes, not just the first: "/works/a/works/" becomes "a" |
| `BookRepository.CleanIdOfWorkKey` | app/src/main/java/com/example/booklegend/data/repository/BookRepository.kt:20 | the key "/works/" + id, where id contains no '/', maps to exactly id |
| `BookRepository.CleanIdExample` | app/src/main/java/com/example/booklegend/data/repository/BookRepository.kt:20 | "/works/OL1W" maps to "OL1W" |
| `BookRepository.CoverUrl` | app/src/main/java/com/example/booklegend/data/repository/BookRepository.kt:23-25 | a cover URL is the cover service's base "https://covers.openlibrary.org/b/id/", then `toString()` of the cover id, then the size suffix |
| `BookRepository.CoverUrlRoundTrip` | app/src/main/java/com/example/booklegend/data/repository/BookRepository.kt:23-25 | the cover id can be read back from the URL built for it, for either size suffix |
| `BookRepository.CoverUrlInjective` | app/src/main/java/com/example/booklegend/data/repository/BookRepository.kt:48-50 | two covers of one size share a URL only if they are the same cover |
| `BookRepository.AuthorOf` | app/src/main/java/com/example/booklegend/data/repository/BookRepository.kt:30 | the author is the first listed author's name, or "Nieznany autor" when the list is null or empty |
| `BookRepository.YearOf` | app/src/main/java/com/example/booklegend/data/repository/BookRepository.kt:32 | the year text is "Brak daty" exactly when no first-publish year is given, and otherwise `toString()` of the year |
| `BookRepository.ToBook` | app/src/main/java/com/example/booklegend/data/repository/BookRepository.kt:18-33 | a row's id is the key with "/works/" removed, and its title is the work's title. Its author follows `AuthorOf`. It has a medium ("-M.jpg") cover URL exactly when the work has a cover id. Its year is the sentinel exactly when the year is absent, and otherwise `toString()` of the year |
| `BookRepository.ToBookKeepsNumbers` | app/src/main/java/com/example/booklegend/data/repository/BookRepository.kt:23-32 | the cover id and the first-publish year can both be recovered from the row, and absence maps back to absence |
| `BookRepository.ToBooks` | app/src/main/java/com/example/booklegend/data/repository/BookRepository.kt:18-34 | the mapped list has one row per work, of the same length and in the same order |
| `BookRepository.DescriptionText` | app/src/main/java/com/example/booklegend/data/repository/BookRepository.kt:42-46 | a string description comes back unchanged, and an object's string "value" is used. Any other shape gives "Brak opisu". Any other text returned came from one of the first two forms |
| `BookRepository.DescriptionExamples` | app/src/main/java/com/example/booklegend/data/repository/BookRepository.kt:42-46 | a plain string, an object with a string value, an object with a number value, an empty object and null, each normalised |
| `BookRepository.PagesOf` | app/src/main/java/com/example/booklegend/data/repository/BookRepository.kt:57 | the page text is "Brak danych" exactly when no page count is given, and otherwise `toString()` of the count |
| `BookRepository.ToBookDetails` | app/src/main/java/com/example/booklegend/data/repository/BookRepository.kt:38-60 | the title is kept and the author is always absent. The description is normalised. The large ("-L.jpg") cover URL comes from the first cover and is absent when covers is null or empty. Pages use the sentinel exactly when absent, and otherwise are `toString()` of the count. The year is the first-publish date or "Brak daty" |
| `BookRepository.ToBookDetailsKeepsNumbers` | app/src/main/java/com/example/booklegend/data/repository/BookRepository.kt:48-57 | the first cover id and the page count can be recovered from the detail record |
| `PreferencesStore.Toggled` | app/src/main/java/com/example/booklegend/data/local/FavoritesDataStore.kt:32-37 | toggling removes the id if present and adds it if absent. No other id changes membership |
| `PreferencesStore.ToggleTwice` | app/src/main/java/com/example/booklegend/data/local/FavoritesDataStore.kt:30-39 | toggling one id twice gives back the original set |
| `PreferencesStore.FavoritesDataStore.constructor` | app/src/main/java/com/example/booklegend/data/local/FavoritesDataStore.kt:15-18 | the store opens over whatever the two keys already hold |
| `PreferencesStore.FavoritesDataStore.Favorites` | app/src/main/java/com/example/booklegend/data/local/FavoritesDataStore.kt:20-23 | reading the favorites gives the stored set, or the empty set when the key is absent |
| `PreferencesStore.FavoritesDataStore.DarkMode` | app/src/main/java/com/example/booklegend/data/local/FavoritesDataStore.kt:25-28 | reading dark mode gives the stored flag, or false when the key is absent |
| `PreferencesStore.FavoritesDataStore.ToggleFavorite` | app/src/main/java/com/example/booklegend/data/local/FavoritesDataStore.kt:30-39 | the favorites key now holds the toggled set. Only the id's membership changes, and the dark-mode key is untouched |
| `PreferencesStore.FavoritesDataStore.SetDarkMode` | app/src/main/java/com/example/booklegend/data/local/FavoritesDataStore.kt:42-46 | dark mode then reads as the given flag, and the favorites key is untouched |
| `PreferencesStore.ToggleFavoriteTwice` | app/src/main/java/com/example/booklegend/data/local/FavoritesDataStore.kt:30-39 | two toggles of one id leave the favorites read and the dark mode read as they were |
| `SharedPrefsStore.FavoritesManager.constructor` | app/src/main/java/com/example/booklegend/data/local/FavoritesManager.kt:6-8 | the manager opens over whatever string set is already stored |
| `SharedPrefsStore.FavoritesManager.GetFavorites` | app/src/main/java/com/example/booklegend/data/local/FavoritesManager.kt:26-28 | the stored set, or the empty set when nothing is stored |
| `SharedPrefsStore.FavoritesManager.IsFavorite` | app/src/main/java/com/example/booklegend/data/local/FavoritesManager.kt:22-24 | true exactly when the id is in `GetFavorites`. False for every id when nothing is stored |
| `SharedPrefsStore.FavoritesManager.AddFavorite` | app/src/main/java/com/example/booklegend/data/local/FavoritesManager.kt:10-14 | the stored set becomes the old set plus the id, so the id is a favorite afterwards. Other ids keep their membership. Adding an id already present changes nothing |
| `SharedPrefsStore.FavoritesManager.RemoveFavorite` | app/src/main/java/com/example/booklegend/data/local/FavoritesManager.kt:16-20 | the stored set becomes the old set minus the id, so the id is no longer a favorite. Other ids keep their membership. Removing an absent id changes nothing |
| `SharedPrefsStore.AddThenRemove` | app/src/main/java/com/example/booklegend/data/local/FavoritesManager.kt:10-20 | adding an id that was not a favorite and then removing it restores the original set |
| `HomePaging.InitialInv` | app/src/main/java/com/example/booklegend/ui/viewmodel/BookViewModel.kt:46-58 | the fields as declared (offset 0, empty list, flags false, Loading) satisfy the paging invariant |
| `HomePaging.FirstPage` | app/src/main/java/com/example/booklegend/ui/viewmodel/BookViewModel.kt:125-140 | publishes Loading first. Offset becomes 0 and isLastPage false. On success the list is exactly the fetched books and `Success(books, false)` is published. On failure the list is empty and `Error(message or "Błąd")` is published |
| `HomePaging.Refresh` | app/src/main/java/com/example/booklegend/ui/viewmodel/BookViewModel.kt:142-158 | publishes only Success states, never Loading or Error. First comes `Success(shown list or [], true)`, then a non-refreshing Success. That holds the fetched books on success and the accumulated list on failure. Offset becomes 0 and isLastPage false |
| `HomePaging.StartNextPage` | app/src/main/java/com/example/booklegend/ui/viewmodel/BookViewModel.kt:160-166 | changes nothing when a load is in flight, the last page was reached or the screen is not Success. Otherwise it marks a load in flight and advances the offset by exactly 20. It publishes nothing and keeps the list |
| `HomePaging.FinishNextPage` | app/src/main/java/com/example/booklegend/ui/viewmodel/BookViewModel.kt:168-181 | always ends with isLoadingMore false, and the old list is always a prefix of the new one. A failure rolls the offset back by 20 and leaves the rest unchanged. An empty page sets isLastPage and leaves the list, the screen and the advanced offset as they were. A non-empty page appends to the list in order and publishes `Success(list, false)` |
| `HomePaging.TransitionsKeepInv` | app/src/main/java/com/example/booklegend/ui/viewmodel/BookViewModel.kt:125-182 | every transition keeps the invariant: the screen shows exactly the accumulated list, no refresh indicator is left on, and the offset is a multiple of 20 |
| `HomePaging.NoOverlappingLoads` | app/src/main/java/com/example/booklegend/ui/viewmodel/BookViewModel.kt:161-165 | while a load-more is in flight, a second `loadNextPage` is a no-op |
| `HomePaging.RefreshFailureShowsPreviousList` | app/src/main/java/com/example/booklegend/ui/viewmodel/BookViewModel.kt:144-155 | a failed refresh shows the previously shown list, first refreshing and then not. The accumulated list is kept and the offset is 0. With no load-more in flight, the next load-more asks for offset 20 |
| `HomePaging.RefreshDuringFailedLoad` | app/src/main/java/com/example/booklegend/ui/viewmodel/BookViewModel.kt:146-177 | a refresh in the middle of a load-more whose fetch then fails leaves the offset at -20 and shows the refreshed list. The next load-more requests offset 0 |
| `HomePaging.NonEmptyPagesRun` | app/src/main/java/com/example/booklegend/ui/viewmodel/BookViewModel.kt:160-182 | after n load-more calls that each receive a non-empty page, the offset has grown by 20·n. The list is the old list followed by the pages, in order, and it is published as Success |
| `HomePaging.FailedLoadIsUndone` | app/src/main/java/com/example/booklegend/ui/viewmodel/BookViewModel.kt:166-180 | a load-more whose fetch fails leaves offset, list, flags and screen exactly as before the call |
| `HomePaging.FailedLoadsAreUndone` | app/src/main/java/com/example/booklegend/ui/viewmodel/BookViewModel.kt:166-180 | any run of failing load-more calls changes nothing |
| `HomePaging.EmptyPageEndsPaging` | app/src/main/java/com/example/booklegend/ui/viewmodel/BookViewModel.kt:161-171 | an empty page sets isLastPage, keeps list and screen, and keeps the offset advanced by 20. Every later load-more is then a no-op |
| `HomePaging.RunAppendsOnly` | app/src/main/java/com/example/booklegend/ui/viewmodel/BookViewModel.kt:173 | over any run of load-more calls the old list stays a prefix of the list |
| `HomePaging.RunKeepsInv` | app/src/main/java/com/example/booklegend/ui/viewmodel/BookViewModel.kt:160-182 | any run of load-more calls keeps the paging invariant |
| `FavoritesAggregation.FavoriteBook` | app/src/main/java/com/example/booklegend/ui/viewmodel/BookViewModel.kt:88-94 | a favorite's row carries the id and the details' title, cover and year. Its author is the details' author, or "Nieznany" |
| `FavoritesAggregation.Survivors` | app/src/main/java/com/example/booklegend/ui/viewmodel/BookViewModel.kt:83-98 | a row appears exactly for each id whose fetch succeeded, built from that id's details. There are never more rows than ids |
| `FavoritesAggregation.SurvivorsAppend` | app/src/main/java/com/example/booklegend/ui/viewmodel/BookViewModel.kt:84-98 | the surviving rows keep the ids' order |
| `FavoritesAggregation.SurvivorsKeepAll` | app/src/main/java/com/example/booklegend/ui/viewmodel/BookViewModel.kt:95-98 | no row is dropped if and only if every fetch succeeded |
| `FavoritesAggregation.Aggregate` | app/src/main/java/com/example/booklegend/ui/viewmodel/BookViewModel.kt:79-101 | the result is Empty or Success, never Loading or Error. It is Empty for no ids, and Empty exactly when every fetch failed. Otherwise it is Success holding the non-empty surviving rows |
| `FavoritesAggregation.Emissions` | app/src/main/java/com/example/booklegend/ui/viewmodel/BookViewModel.kt:77-101 | for each value of the id set, Loading is published and then the aggregated state |
| `FavoritesAggregation.OneFailureDropsOneBook` | app/src/main/java/com/example/booklegend/ui/viewmodel/BookViewModel.kt:79-101 | with ids a, b, c where only b fails, the screen shows exactly the books for a and c, in that order |
| `FavoritesAggregation.FavoritesFromRepositoryHaveNoAuthor` | app/src/main/java/com/example/booklegend/ui/viewmodel/BookViewModel.kt:87-91 | when the details come from the repository's mapping, every favorite shows the author "Nieznany" |
| `ViewModel.BookViewModel.constructor` | app/src/main/java/com/example/booklegend/ui/viewmodel/BookViewModel.kt:41-111 | creation starts from Loading and runs `init`'s first-page load. The fields are then `FirstPage`'s next state and the invariant holds |
| `ViewModel.BookViewModel.LoadFirstPage` | app/src/main/java/com/example/booklegend/ui/viewmodel/BookViewModel.kt:125-140 | the fields become `FirstPage`'s next state, and the states published are `FirstPage`'s. The detail screen is untouched |
| `ViewModel.BookViewModel.Refresh` | app/src/main/java/com/example/booklegend/ui/viewmodel/BookViewModel.kt:142-158 | the fields become `HomePaging.Refresh`'s next state, and the states published are exactly its two Success states |
| `ViewModel.BookViewModel.LoadNextPage` | app/src/main/java/com/example/booklegend/ui/viewmodel/BookViewModel.kt:160-166 | the fields become `StartNextPage`'s next state and nothing is published. The offset requested is returned, or none when the guard returns early |
| `ViewModel.BookViewModel.FinishNextPage` | app/src/main/java/com/example/booklegend/ui/viewmodel/BookViewModel.kt:168-181 | the fields become `HomePaging.FinishNextPage`'s next state, and the states published are its states |
| `ViewModel.BookViewModel.GetBookDetails` | app/src/main/java/com/example/booklegend/ui/viewmodel/BookViewModel.kt:184-194 | publishes Loading and then the mapped details on success, or `Error("Błąd")` on failure. The list screen is untouched |
| `ViewModel.BookViewModel.ToggleFavorite` | app/src/main/java/com/example/booklegend/ui/viewmodel/BookViewModel.kt:196-200 | delegates to the store. The favorites become the toggled set and dark mode is unchanged |
| `ViewModel.BookViewModel.ToggleDarkMode` | app/src/main/java/com/example/booklegend/ui/viewmodel/BookViewModel.kt:202-207 | dark mode becomes the negation of its current value, and the favorites are unchanged |

## Left out

- Debounced search (`onSearchQueryChanged`, BookViewModel.kt:115-123): its point is a 500 ms delay and job cancellation. The current query is therefore not modelled either.
- Search-result mapping: `SearchDocDto` has no mapper in the code.
- Arguments of the list fetch: `loadFirstPage`, `refresh` and `loadNextPage` call a `getBooks(offset, query)` that the repository does not define, since its `getBooks()` takes no arguments. So the page each call receives is an input, and only the offset `LoadNextPage` would request is reported.
- Interleavings other than a load-more in flight: `loadFirstPage`, `refresh` and `getBookDetails` are each one step. Two `loadFirstPage` calls whose fetches overlap (from `init` and a search) are not modelled. The model also does not record which pending call a `FinishNextPage` outcome belongs to.
- Favorites aggregation runtime: the concurrent `async`/`awaitAll` fan-out is modelled by the per-id outcomes it collects. The ids are taken in the set's iteration order. The Error state for a fan-out that throws as a whole (BookViewModel.kt:102-103) depends on coroutine exceptions. The `transformLatest`/`stateIn` plumbing and `WhileSubscribed` sharing are reactive infrastructure.
- `ViewModel.BookViewModel.ToggleDarkMode`: reads the store's current flag. The code reads the `stateIn` cache, which stays false until the store's first value arrives.
- `HomePaging.Pager` and `ViewModel.BookViewModel`: the offset cursor is an unbounded `int`. Kotlin's `currentOffset` is a 32-bit `Int` (BookViewModel.kt:47), so `+= 20` would wrap after about 10^8 pages, and the invariant that the offset is a multiple of 20 would then fail.
- `published` and `detailPublished`: they record every value assigned to a state flow. Collectors of a state flow may skip intermediate values (conflation).
- Persistence mechanics: DataStore and SharedPreferences file I/O and `apply()` asynchrony. The stores are in-memory fields.
- JSON decoding of the payloads: only the mapping after decoding is modelled. Numbers in an untyped field are `real`.
- The HTTP client (BookApi.kt, RetrofitClient.kt) and the Compose screens, theme and navigation.

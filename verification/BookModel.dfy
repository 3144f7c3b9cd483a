/**
 * The records of the application: the display models of Book.kt and the
 * decoded network payloads of BookDtos.kt.  Kotlin's nullable fields are
 * `Option`s; Kotlin's `Int` and `Long` are the subset types below.
 */
module BookModel {
  import opened Wrappers

  type Int32 = x: int | -0x8000_0000 <= x < 0x8000_0000
  type Int64 = x: int | -0x8000_0000_0000_0000 <= x < 0x8000_0000_0000_0000

  /** One row of the list screens (Book.kt). */
  datatype Book = Book(
    id: string,
    title: string,
    authorName: string,
    coverUrl: Option<string>,
    year: string)

  /** The detail screen's record (Book.kt). */
  datatype BookDetails = BookDetails(
    title: string,
    authorName: Option<string>,
    description: string,
    coverUrl: Option<string>,
    pages: string,
    year: string)

  datatype AuthorDto = AuthorDto(name: string)

  /** One work of the subject feed. */
  datatype BookWorkDto = BookWorkDto(
    title: string,
    key: string,
    coverId: Option<Int64>,
    firstPublishYear: Option<Int32>,
    authors: Option<seq<AuthorDto>>)

  /**
   * A JSON value as the JSON decoder hands it to a field typed `Any?`:
   * a string, a number, a boolean, null, a list or an object (a map).
   */
  datatype JsonValue =
    | JString(text: string)
    | JNumber(number: real)
    | JBool(flag: bool)
    | JNull
    | JArray(elements: seq<JsonValue>)
    | JObject(fields: map<string, JsonValue>)

  /** The payload of one work's detail endpoint. */
  datatype BookDetailsDto = BookDetailsDto(
    title: string,
    description: JsonValue,
    covers: Option<seq<Int64>>,
    numberOfPages: Option<Int32>,
    firstPublishDate: Option<string>)
}

/**
 * The repository's mapping from decoded payloads to display models
 * (BookRepository.kt).  The network calls themselves are not modelled: each
 * mapping takes the payload the call returned.
 */
module BookRepository {
  import opened Wrappers
  import opened BookModel
  import Decimal

  const WorksPrefix := "/works/"
  const CoverBase := "https://covers.openlibrary.org/b/id/"
  /** Size suffixes of the cover image service: medium for lists, large for details. */
  const MediumCover := "-M.jpg"
  const LargeCover := "-L.jpg"

  const UnknownAuthor := "Nieznany autor"
  const NoDate := "Brak daty"
  const NoData := "Brak danych"
  const NoDescription := "Brak opisu"

  // ---------------------------------------------------------------------
  // Removing every occurrence of a pattern (Kotlin's `replace(pat, "")`)
  // ---------------------------------------------------------------------

  predicate OccursAt(pat: string, s: string, i: nat) {
    i + |pat| <= |s| && s[i..i + |pat|] == pat
  }

  predicate Occurs(pat: string, s: string) {
    exists i: nat | i <= |s| :: OccursAt(pat, s, i)
  }

  /**
   * `s.replace(pat, "")`: scans left to right and drops each non-overlapping
   * occurrence of `pat`; what a removal joins together is not scanned again.
   */
  function RemoveAll(s: string, pat: string): (r: string)
    requires |pat| > 0
    ensures |r| <= |s|
    decreases |s|
  {
    if s == [] then []
    else if pat <= s then RemoveAll(s[|pat|..], pat)
    else [s[0]] + RemoveAll(s[1..], pat)
  }

  lemma {:induction false} RemoveAllKeepsClean(s: string, pat: string)
    requires |pat| > 0
    requires !Occurs(pat, s)
    ensures RemoveAll(s, pat) == s
    decreases |s|
  {
    if s != [] {
      if pat <= s {
        assert OccursAt(pat, s, 0);
      }
      forall i: nat | OccursAt(pat, s[1..], i) ensures OccursAt(pat, s, i + 1) {
        assert s[1..][i..i + |pat|] == s[i + 1..i + 1 + |pat|];
      }
      RemoveAllKeepsClean(s[1..], pat);
    }
  }

  lemma {:induction false} RemoveAllShortens(s: string, pat: string, i: nat)
    requires |pat| > 0
    requires OccursAt(pat, s, i)
    ensures |RemoveAll(s, pat)| < |s|
    decreases |s|
  {
    if !(pat <= s) {
      assert s[1..][i - 1..i - 1 + |pat|] == s[i..i + |pat|];
      RemoveAllShortens(s[1..], pat, i - 1);
    }
  }

  /**
   * The scan's step at the first occurrence: everything before it is kept,
   * the occurrence is dropped, and the scan resumes right after it.
   */
  lemma {:induction false} RemoveAllAtFirst(s: string, pat: string, i: nat)
    requires |pat| > 0
    requires OccursAt(pat, s, i)
    requires forall j: nat :: j < i ==> !OccursAt(pat, s, j)
    ensures RemoveAll(s, pat) == s[..i] + RemoveAll(s[i + |pat|..], pat)
    decreases i
  {
    if i == 0 {
      assert pat <= s;
    } else {
      NotPrefixWhenNotAtStart(s, pat);
      var t := s[1..];
      OccursAfterHead(s, pat, i);
      forall j: nat | j < i - 1 ensures !OccursAt(pat, t, j) {
        NoOccurrenceAfterHead(s, pat, j);
      }
      assert RemoveAll(s, pat) == [s[0]] + RemoveAll(t, pat);
      RemoveAllAtFirst(t, pat, i - 1);
      assert t[..i - 1] == s[1..i];
      assert t[i - 1 + |pat|..] == s[i + |pat|..];
      assert [s[0]] + s[1..i] == s[..i];
    }
  }

  lemma NotPrefixWhenNotAtStart(s: string, pat: string)
    requires |s| > 0 && !OccursAt(pat, s, 0)
    ensures !(pat <= s)
  {
  }

  lemma OccursAfterHead(s: string, pat: string, i: nat)
    requires 0 < i && OccursAt(pat, s, i)
    ensures OccursAt(pat, s[1..], i - 1)
  {
    assert s[1..][i - 1..i - 1 + |pat|] == s[i..i + |pat|];
  }

  lemma NoOccurrenceAfterHead(s: string, pat: string, j: nat)
    requires |s| > 0 && !OccursAt(pat, s, j + 1)
    ensures !OccursAt(pat, s[1..], j)
  {
    if j + |pat| <= |s| - 1 {
      assert s[1..][j..j + |pat|] == s[j + 1..j + 1 + |pat|];
    }
  }

  /** Every occurrence is removed: "/works/a/works/" becomes "a". */
  lemma CleanIdRemovesEveryOccurrence()
    ensures CleanId("/works/a/works/") == "a"
  {
    var s := "/works/a/works/";
    assert s == WorksPrefix + "a" + WorksPrefix;
    assert s[..0] == [];
    RemoveAllAtFirst(s, WorksPrefix, 0);
    assert s[|WorksPrefix|..] == "a" + WorksPrefix;
  }

  /** Removal changes the string exactly when the pattern occurs in it. */
  lemma RemoveAllChangesIffOccurs(s: string, pat: string)
    requires |pat| > 0
    ensures RemoveAll(s, pat) == s <==> !Occurs(pat, s)
  {
    if Occurs(pat, s) {
      var i: nat :| OccursAt(pat, s, i);
      RemoveAllShortens(s, pat, i);
    } else {
      RemoveAllKeepsClean(s, pat);
    }
  }

  /** The catalog id of a work: its key with every "/works/" removed. */
  function CleanId(key: string): (id: string)
    ensures |id| <= |key|
    ensures id == key <==> !Occurs(WorksPrefix, key)
  {
    RemoveAllChangesIffOccurs(key, WorksPrefix);
    RemoveAll(key, WorksPrefix)
  }

  /** A key "/works/<id>" whose id has no '/' maps to exactly that id. */
  lemma CleanIdOfWorkKey(id: string)
    requires forall i :: 0 <= i < |id| ==> id[i] != '/'
    ensures CleanId(WorksPrefix + id) == id
  {
    var key := WorksPrefix + id;
    assert WorksPrefix <= key;
    assert key[|WorksPrefix|..] == id;
    forall i: nat | i <= |id| ensures !OccursAt(WorksPrefix, id, i) {
      if i + |WorksPrefix| <= |id| {
        assert id[i..i + |WorksPrefix|][0] == id[i] != WorksPrefix[0];
      }
    }
    RemoveAllKeepsClean(id, WorksPrefix);
  }

  lemma CleanIdExample()
    ensures CleanId("/works/OL1W") == "OL1W"
  {
    assert "/works/OL1W" == WorksPrefix + "OL1W";
    CleanIdOfWorkKey("OL1W");
  }

  // ---------------------------------------------------------------------
  // Cover image URLs
  // ---------------------------------------------------------------------

  function CoverUrl(coverId: int, size: string): (url: string)
    ensures CoverBase <= url && |CoverBase| + |size| <= |url|
    ensures url[|url| - |size|..] == size
    ensures url[|CoverBase|..|url| - |size|] == Decimal.IntToString(coverId)
  {
    CoverBase + Decimal.IntToString(coverId) + size
  }

  /** Reads the cover id back out of a cover URL of the given size. */
  function CoverIdOf(url: Option<string>, size: string): Option<int> {
    if url.Some? && CoverBase <= url.value && |CoverBase| + |size| <= |url.value|
       && url.value[|url.value| - |size|..] == size
    then Decimal.ParseInt(url.value[|CoverBase|..|url.value| - |size|])
    else None
  }

  lemma CoverUrlRoundTrip(coverId: int, size: string)
    ensures CoverIdOf(Some(CoverUrl(coverId, size)), size) == Some(coverId)
  {
    var digits := Decimal.IntToString(coverId);
    var url := CoverUrl(coverId, size);
    assert url[|url| - |size|..] == size;
    assert url[|CoverBase|..|url| - |size|] == digits;
    Decimal.IntToStringRoundTrip(coverId);
  }

  /** Two covers of the same size have the same URL only if they are the same cover. */
  lemma CoverUrlInjective(a: int, b: int, size: string)
    requires CoverUrl(a, size) == CoverUrl(b, size)
    ensures a == b
  {
    CoverUrlRoundTrip(a, size);
    CoverUrlRoundTrip(b, size);
  }

  // ---------------------------------------------------------------------
  // Work -> Book
  // ---------------------------------------------------------------------

  function AuthorOf(authors: Option<seq<AuthorDto>>): (name: string)
    ensures authors.None? || authors.value == [] ==> name == UnknownAuthor
    ensures authors.Some? && authors.value != [] ==> name == authors.value[0].name
  {
    if authors.Some? && |authors.value| > 0 then authors.value[0].name else UnknownAuthor
  }

  function YearOf(year: Option<Int32>): (text: string)
    ensures year.None? <==> text == NoDate
    ensures year.Some? ==> text == Decimal.IntToString(year.value)
  {
    if year.Some? then Decimal.IntToString(year.value) else NoDate
  }

  /** The mapping of one work of the subject feed to a list row. */
  function ToBook(w: BookWorkDto): (b: Book)
    ensures b.id == CleanId(w.key) && b.title == w.title
    ensures b.authorName == AuthorOf(w.authors)
    ensures b.coverUrl.Some? <==> w.coverId.Some?
    ensures w.coverId.Some? ==> b.coverUrl == Some(CoverUrl(w.coverId.value, MediumCover))
    ensures w.firstPublishYear.None? <==> b.year == NoDate
    ensures w.firstPublishYear.Some? ==> b.year == Decimal.IntToString(w.firstPublishYear.value)
  {
    Book(
      CleanId(w.key),
      w.title,
      AuthorOf(w.authors),
      if w.coverId.Some? then Some(CoverUrl(w.coverId.value, MediumCover)) else None,
      YearOf(w.firstPublishYear))
  }

  /** The list row keeps the cover id and the year recoverable. */
  lemma ToBookKeepsNumbers(w: BookWorkDto)
    ensures CoverIdOf(ToBook(w).coverUrl, MediumCover) == w.coverId
    ensures Decimal.ParseInt(ToBook(w).year) == w.firstPublishYear
  {
    if w.coverId.Some? {
      CoverUrlRoundTrip(w.coverId.value, MediumCover);
    }
    if w.firstPublishYear.Some? {
      Decimal.IntToStringRoundTrip(w.firstPublishYear.value);
    } else {
      assert !Decimal.IsDigit(NoDate[0]);
    }
  }

  /** `works.map { ... }`: one row per work, in the same order. */
  function ToBooks(works: seq<BookWorkDto>): (r: seq<Book>)
    ensures |r| == |works|
    ensures forall i :: 0 <= i < |works| ==> r[i] == ToBook(works[i])
  {
    if works == [] then [] else [ToBook(works[0])] + ToBooks(works[1..])
  }

  // ---------------------------------------------------------------------
  // Detail payload -> BookDetails
  // ---------------------------------------------------------------------

  /**
   * The description field arrives either as a plain string or as an object
   * carrying the text under "value"; anything else reads as no description.
   */
  function DescriptionText(d: JsonValue): (r: string)
    ensures d.JString? ==> r == d.text
    ensures d.JObject? && "value" in d.fields && d.fields["value"].JString? ==> r == d.fields["value"].text
    ensures r != NoDescription ==>
      d == JString(r) || (d.JObject? && "value" in d.fields && d.fields["value"] == JString(r))
    ensures !d.JString? && !(d.JObject? && "value" in d.fields && d.fields["value"].JString?) ==>
      r == NoDescription
  {
    match d
    case JString(text) => text
    case JObject(fields) =>
      if "value" in fields && fields["value"].JString? then fields["value"].text else NoDescription
    case _ => NoDescription
  }

  lemma DescriptionExamples()
    ensures DescriptionText(JString("a plain string")) == "a plain string"
    ensures DescriptionText(JObject(map["value" := JString("nested")])) == "nested"
    ensures DescriptionText(JObject(map["value" := JNumber(1.0)])) == NoDescription
    ensures DescriptionText(JObject(map[])) == NoDescription
    ensures DescriptionText(JNull) == NoDescription
  {
  }

  function PagesOf(pages: Option<Int32>): (text: string)
    ensures pages.None? <==> text == NoData
    ensures pages.Some? ==> text == Decimal.IntToString(pages.value)
  {
    if pages.Some? then Decimal.IntToString(pages.value) else NoData
  }

  /** The mapping of a detail payload to the detail screen's record. */
  function ToBookDetails(dto: BookDetailsDto): (d: BookDetails)
    ensures d.title == dto.title && d.authorName.None?
    ensures d.description == DescriptionText(dto.description)
    ensures d.coverUrl.Some? <==> dto.covers.Some? && dto.covers.value != []
    ensures d.coverUrl.Some? ==> d.coverUrl == Some(CoverUrl(dto.covers.value[0], LargeCover))
    ensures dto.numberOfPages.None? <==> d.pages == NoData
    ensures dto.numberOfPages.Some? ==> d.pages == Decimal.IntToString(dto.numberOfPages.value)
    ensures d.year == dto.firstPublishDate.GetOr(NoDate)
  {
    BookDetails(
      dto.title,
      None,
      DescriptionText(dto.description),
      if dto.covers.Some? && |dto.covers.value| > 0
      then Some(CoverUrl(dto.covers.value[0], LargeCover)) else None,
      PagesOf(dto.numberOfPages),
      dto.firstPublishDate.GetOr(NoDate))
  }

  /** The detail record keeps the first cover id and the page count recoverable. */
  lemma ToBookDetailsKeepsNumbers(dto: BookDetailsDto)
    ensures CoverIdOf(ToBookDetails(dto).coverUrl, LargeCover) ==
      if dto.covers.Some? && dto.covers.value != [] then Some(dto.covers.value[0] as int) else None
    ensures Decimal.ParseInt(ToBookDetails(dto).pages) == dto.numberOfPages
  {
    if dto.covers.Some? && dto.covers.value != [] {
      CoverUrlRoundTrip(dto.covers.value[0], LargeCover);
    }
    if dto.numberOfPages.Some? {
      Decimal.IntToStringRoundTrip(dto.numberOfPages.value);
    } else {
      assert !Decimal.IsDigit(NoData[0]);
    }
  }
}

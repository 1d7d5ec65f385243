/** The canonical book shape every adapter produces and every writer consumes, and its
    JSON projection as the derived serde implementation writes and reads it. */
module Model {
  import opened Wrappers
  import Text

  const U32_LIMIT: nat := 0x1_0000_0000

  type U32 = x: int | 0 <= x < U32_LIMIT

  /** One chapter in table-of-contents order; `index` is 1-based as the adapters assign it. */
  datatype Chapter = Chapter(title: string, index: U32, body: string)

  /** One story or series. `sourceUrl` is the page it was scraped from. */
  datatype Book = Book(
    title: string,
    author: string,
    description: Option<string>,
    coverUrl: Option<string>,
    chapters: seq<Chapter>,
    sourceUrl: Option<string>)

  /** A JSON value as serde_json sees it; numbers are the integers the model needs. */
  datatype Json =
    | JNull
    | JBool(b: bool)
    | JNumber(n: int)
    | JString(s: string)
    | JArray(items: seq<Json>)
    | JObject(fields: seq<(string, Json)>)

  datatype DecodeError =
    | NotAnObject(what: string)
    | NotAnArray(field: string)
    | MissingField(field: string)
    | DuplicateField(field: string)
    | WrongType(field: string)
    | OutOfRange(field: string)

  // ---------------------------------------------------------------- encoding

  function OptionToJson(o: Option<string>): Json {
    match o
    case None => JNull
    case Some(s) => JString(s)
  }

  function ChapterToJson(c: Chapter): Json {
    JObject([("title", JString(c.title)), ("index", JNumber(c.index)), ("body", JString(c.body))])
  }

  function ChaptersToJson(cs: seq<Chapter>): (r: seq<Json>)
    ensures |r| == |cs|
    ensures forall i :: 0 <= i < |cs| ==> r[i] == ChapterToJson(cs[i])
  {
    seq(|cs|, i requires 0 <= i < |cs| => ChapterToJson(cs[i]))
  }

  /** The serialised object: five fixed keys, `cover_url` renamed to "coverUrl", and
      "source_url" only when there is one. */
  function BookToJson(b: Book): Json {
    JObject(
      [ ("title", JString(b.title)),
        ("author", JString(b.author)),
        ("description", OptionToJson(b.description)),
        ("coverUrl", OptionToJson(b.coverUrl)),
        ("chapters", JArray(ChaptersToJson(b.chapters))) ]
      + (if b.sourceUrl.Some? then [("source_url", JString(b.sourceUrl.value))] else []))
  }

  function Keys(fields: seq<(string, Json)>): (r: seq<string>)
    ensures |r| == |fields|
    ensures forall i :: 0 <= i < |fields| ==> r[i] == fields[i].0
  {
    if fields == [] then [] else [fields[0].0] + Keys(fields[1..])
  }

  // ---------------------------------------------------------------- decoding

  function Occurrences(fields: seq<(string, Json)>, key: string): (r: seq<Json>)
    ensures |r| <= |fields|
  {
    if fields == [] then []
    else (if fields[0].0 == key then [fields[0].1] else []) + Occurrences(fields[1..], key)
  }

  /** The value under `key`: absent, present once, or an error when repeated (serde's
      derived struct visitor refuses duplicate fields). */
  function Lookup(fields: seq<(string, Json)>, key: string): (r: Result<Option<Json>, DecodeError>)
    ensures r == Ok(None) <==> key !in Keys(fields)
  {
    var occ := Occurrences(fields, key);
    OccurrencesEmpty(fields, key);
    if |occ| == 0 then Ok(None)
    else if |occ| == 1 then Ok(Some(occ[0]))
    else Err(DuplicateField(key))
  }

  lemma {:induction false} OccurrencesEmpty(fields: seq<(string, Json)>, key: string)
    ensures Occurrences(fields, key) == [] <==> key !in Keys(fields)
    decreases |fields|
  {
    if fields != [] {
      OccurrencesEmpty(fields[1..], key);
      assert Keys(fields) == [fields[0].0] + Keys(fields[1..]);
    }
  }

  lemma {:induction false} OccurrencesUnique(fields: seq<(string, Json)>, key: string, i: nat)
    requires i < |fields| && fields[i].0 == key
    requires forall j :: 0 <= j < |fields| && j != i ==> fields[j].0 != key
    ensures Occurrences(fields, key) == [fields[i].1]
    decreases |fields|
  {
    if i == 0 {
      OccurrencesAbsent(fields[1..], key);
    } else {
      OccurrencesUnique(fields[1..], key, i - 1);
    }
  }

  lemma {:induction false} OccurrencesAbsent(fields: seq<(string, Json)>, key: string)
    requires forall j :: 0 <= j < |fields| ==> fields[j].0 != key
    ensures Occurrences(fields, key) == []
    decreases |fields|
  {
    if fields != [] {
      OccurrencesAbsent(fields[1..], key);
    }
  }

  function RequiredString(fields: seq<(string, Json)>, key: string): Result<string, DecodeError> {
    var v :- Lookup(fields, key);
    match v
    case None => Err(MissingField(key))
    case Some(JString(s)) => Ok(s)
    case Some(_) => Err(WrongType(key))
  }

  /** An `Option<String>` field: a missing key and `null` both mean None. */
  function OptionalString(fields: seq<(string, Json)>, key: string): Result<Option<string>, DecodeError> {
    var v :- Lookup(fields, key);
    match v
    case None => Ok(None)
    case Some(JNull) => Ok(None)
    case Some(JString(s)) => Ok(Some(s))
    case Some(_) => Err(WrongType(key))
  }

  function RequiredU32(fields: seq<(string, Json)>, key: string): (r: Result<U32, DecodeError>) {
    var v :- Lookup(fields, key);
    match v
    case None => Err(MissingField(key))
    case Some(JNumber(n)) => if 0 <= n < U32_LIMIT then Ok(n) else Err(OutOfRange(key))
    case Some(_) => Err(WrongType(key))
  }

  function DecodeChapter(j: Json): Result<Chapter, DecodeError> {
    match j
    case JObject(fields) =>
      var title :- RequiredString(fields, "title");
      var index :- RequiredU32(fields, "index");
      var body :- RequiredString(fields, "body");
      Ok(Chapter(title, index, body))
    case _ => Err(NotAnObject("chapter"))
  }

  function DecodeChapters(items: seq<Json>): (r: Result<seq<Chapter>, DecodeError>)
    ensures r.Ok? ==> |r.value| == |items|
  {
    if items == [] then Ok([])
    else
      var c :- DecodeChapter(items[0]);
      var rest :- DecodeChapters(items[1..]);
      Ok([c] + rest)
  }

  /** Deserialises a book; keys the struct does not know are ignored. */
  function DecodeBook(j: Json): Result<Book, DecodeError> {
    match j
    case JObject(fields) => DecodeBookFields(fields)
    case _ => Err(NotAnObject("book"))
  }

  function DecodeBookFields(fields: seq<(string, Json)>): Result<Book, DecodeError> {
      var title :- RequiredString(fields, "title");
      var author :- RequiredString(fields, "author");
      var description :- OptionalString(fields, "description");
      var coverUrl :- OptionalString(fields, "coverUrl");
      var chapters :- ChaptersField(fields);
      var sourceUrl :- OptionalString(fields, "source_url");
      Ok(Book(title, author, description, coverUrl, chapters, sourceUrl))
  }

  /** The "chapters" key: required, and an array of chapter objects. */
  function ChaptersField(fields: seq<(string, Json)>): Result<seq<Chapter>, DecodeError> {
    var chaptersJson :- Lookup(fields, "chapters");
    match chaptersJson
    case None => Err(MissingField("chapters"))
    case Some(JArray(items)) => DecodeChapters(items)
    case Some(_) => Err(NotAnArray("chapters"))
  }

  // ---------------------------------------------------------------- properties

  /** The keys written, in order: the "source_url" key only when the book has one. */
  lemma BookKeys(b: Book)
    ensures Keys(BookToJson(b).fields)
         == ["title", "author", "description", "coverUrl", "chapters"]
            + (if b.sourceUrl.Some? then ["source_url"] else [])
  {
  }

  /** Every serialised chapter carries exactly the keys title, index and body. */
  lemma ChapterKeys(c: Chapter)
    ensures Keys(ChapterToJson(c).fields) == ["title", "index", "body"]
  {
  }

  lemma ChapterRoundTrip(c: Chapter)
    ensures DecodeChapter(ChapterToJson(c)) == Ok(c)
  {
    ChapterTitleRead(c);
    ChapterIndexRead(c);
    ChapterBodyRead(c);
  }

  lemma ChapterTitleRead(c: Chapter)
    ensures RequiredString(ChapterToJson(c).fields, "title") == Ok(c.title)
  {
    OccurrencesUnique(ChapterToJson(c).fields, "title", 0);
  }

  lemma ChapterIndexRead(c: Chapter)
    ensures RequiredU32(ChapterToJson(c).fields, "index") == Ok(c.index)
  {
    OccurrencesUnique(ChapterToJson(c).fields, "index", 1);
  }

  lemma ChapterBodyRead(c: Chapter)
    ensures RequiredString(ChapterToJson(c).fields, "body") == Ok(c.body)
  {
    OccurrencesUnique(ChapterToJson(c).fields, "body", 2);
  }

  lemma {:induction false} ChaptersRoundTrip(cs: seq<Chapter>)
    ensures DecodeChapters(ChaptersToJson(cs)) == Ok(cs)
    decreases |cs|
  {
    if cs != [] {
      var items := ChaptersToJson(cs);
      assert items[0] == ChapterToJson(cs[0]);
      assert items[1..] == ChaptersToJson(cs[1..]);
      ChapterRoundTrip(cs[0]);
      ChaptersRoundTrip(cs[1..]);
      assert DecodeChapter(items[0]) == Ok(cs[0]);
      assert DecodeChapters(items[1..]) == Ok(cs[1..]);
      assert [cs[0]] + cs[1..] == cs;
    }
  }

  /** The book's keys are distinct, so each one looks up to the value written beside it. */
  lemma BookLookupAt(b: Book, i: nat)
    requires i < |BookToJson(b).fields|
    ensures Lookup(BookToJson(b).fields, BookToJson(b).fields[i].0) == Ok(Some(BookToJson(b).fields[i].1))
  {
    BookKeys(b);
    KeyedLookup(BookToJson(b).fields, BookToJson(b).fields[i].0, i);
  }

  /** A key that appears exactly once, at position `i`, looks up to the value there. */
  lemma KeyedLookup(fields: seq<(string, Json)>, key: string, i: nat)
    requires i < |fields| && Keys(fields)[i] == key
    requires forall j :: 0 <= j < |fields| && j != i ==> Keys(fields)[j] != key
    ensures Lookup(fields, key) == Ok(Some(fields[i].1))
  {
    OccurrencesUnique(fields, key, i);
  }

  lemma OptionRoundTrip(fields: seq<(string, Json)>, key: string, o: Option<string>)
    requires Lookup(fields, key) == Ok(Some(OptionToJson(o)))
    ensures OptionalString(fields, key) == Ok(o)
  {
  }

  lemma RequiredFieldsRead(b: Book)
    ensures RequiredString(BookToJson(b).fields, "title") == Ok(b.title)
    ensures RequiredString(BookToJson(b).fields, "author") == Ok(b.author)
    ensures Lookup(BookToJson(b).fields, "chapters") == Ok(Some(JArray(ChaptersToJson(b.chapters))))
  {
    BookLookupAt(b, 0);
    BookLookupAt(b, 1);
    BookLookupAt(b, 4);
  }

  lemma OptionalFieldsRead(b: Book)
    ensures OptionalString(BookToJson(b).fields, "description") == Ok(b.description)
    ensures OptionalString(BookToJson(b).fields, "coverUrl") == Ok(b.coverUrl)
  {
    BookLookupAt(b, 2);
    OptionRoundTrip(BookToJson(b).fields, "description", b.description);
    BookLookupAt(b, 3);
    OptionRoundTrip(BookToJson(b).fields, "coverUrl", b.coverUrl);
  }

  /** "source_url" reads back as written, including its absence. */
  lemma SourceUrlRead(b: Book)
    ensures OptionalString(BookToJson(b).fields, "source_url") == Ok(b.sourceUrl)
  {
    if b.sourceUrl.Some? {
      BookLookupAt(b, 5);
    } else {
      OccurrencesAbsent(BookToJson(b).fields, "source_url");
    }
  }

  /** Deserialising a serialised book gives back the same book: every field and every
      chapter's title, index and body, in order. */
  lemma BookRoundTrip(b: Book)
    ensures DecodeBook(BookToJson(b)) == Ok(b)
  {
    RequiredFieldsRead(b);
    OptionalFieldsRead(b);
    SourceUrlRead(b);
    ChaptersRoundTrip(b.chapters);
    assert ChaptersField(BookToJson(b).fields) == Ok(b.chapters);
    DecodeFieldsOf(BookToJson(b).fields, b);
  }

  lemma DecodeFieldsOf(fields: seq<(string, Json)>, b: Book)
    requires RequiredString(fields, "title") == Ok(b.title)
    requires RequiredString(fields, "author") == Ok(b.author)
    requires OptionalString(fields, "description") == Ok(b.description)
    requires OptionalString(fields, "coverUrl") == Ok(b.coverUrl)
    requires ChaptersField(fields) == Ok(b.chapters)
    requires OptionalString(fields, "source_url") == Ok(b.sourceUrl)
    ensures DecodeBookFields(fields) == Ok(b)
  {
  }

  /** A document written before "source_url" existed, or without "description" or
      "coverUrl", still reads: each absent optional key decodes as None. */
  lemma MissingOptionalsAreNone(fields: seq<(string, Json)>)
    requires DecodeBookFields(fields).Ok?
    ensures "description" !in Keys(fields) ==> DecodeBookFields(fields).value.description.None?
    ensures "coverUrl" !in Keys(fields) ==> DecodeBookFields(fields).value.coverUrl.None?
    ensures "source_url" !in Keys(fields) ==> DecodeBookFields(fields).value.sourceUrl.None?
  {
  }

  /** A chapter object without "index" is refused; a chapter that decodes took its index
      from a number under "index" that fits a `u32`. */
  lemma IndexRequired(fields: seq<(string, Json)>)
    ensures "index" !in Keys(fields) ==> DecodeChapter(JObject(fields)).Err?
    ensures DecodeChapter(JObject(fields)).Ok? ==>
      var v := Lookup(fields, "index");
      v.Ok? && v.value.Some? && v.value.value.JNumber?
      && 0 <= v.value.value.n < U32_LIMIT
      && DecodeChapter(JObject(fields)).value.index == v.value.value.n
  {
  }
}

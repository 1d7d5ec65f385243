/** What the two site adapters share: the option and error types, the parsed-URL record the
    URL parser hands back, title-suffix stripping, site resolution, and the shapes in which
    the network and the progress/checkpoint callbacks meet the crawl loops. */
module Scraper {
  import opened Wrappers
  import opened Text
  import opened Model
  import Sorting

  /** How a Royal Road locked (premium) chapter is handled; None in the options means Skip. */
  datatype LockedChapterBehavior = Skip | Placeholder | Fail

  /** How a chapter with no content container or no paragraphs is handled; None means Skip. */
  datatype EmptyChapterBehavior = Skip | Placeholder | Fail

  datatype Site = RoyalRoad | ScribbleHub

  /** The options of one scrape. The two callbacks are represented by whether they are set:
      their calls appear in the event trace the crawl loops return. */
  datatype ScrapeOptions = ScrapeOptions(
    hasProgress: bool,
    chapterRange: Option<(U32, U32)>,
    initialBook: Option<Book>,
    hasCheckpoint: bool,
    lockedBehavior: Option<LockedChapterBehavior>,
    emptyChapterBehavior: Option<EmptyChapterBehavior>,
    tocOnly: bool)

  /** The shared scraper error. Transport errors carry their message instead of the
      `reqwest::Error` value. */
  datatype ScraperError =
    | InvalidUrl(input: string, reason: string)
    | UnrecognizedHost(host: string)
    | Network(url: string, source: string)
    | HttpStatus(status: nat, url: string, context: Option<string>)
    | Redirect(url: string, reason: string)
    | Tls(source: string)
    | BodyRead(source: string)
    | ParseStoryPage(message: string)
    | ParseChapter(index: U32, url: string)
    | EmptyChapter(index: U32, url: string)
    | Encoding(url: string, reason: string)
    | ChapterListParse(reason: string)
    | EmptyChapterList
    | AccessBlocked(url: string)
    | NoChaptersRetrieved
    | LockedChaptersNotAllowed(count: nat)

  /** What `Url::parse` reports about a URL: its host (if any) and its path. */
  datatype Url = Url(host: Option<string>, path: string)

  /** The outcome of one `get_with_retry` followed by reading the body: a transport error,
      or a status with the body, or with the error that reading the body gave. */
  datatype Response<P> = TransportError(reason: string) | Http(status: nat, body: Result<P, string>)

  /** `StatusCode::is_success`: 200 to 299. */
  predicate IsSuccess(status: nat) {
    200 <= status <= 299
  }

  /** A request and `check_response`: a transport error is `Network` for the URL, a
      non-success status `HttpStatus` with the URL and the context, a failed body read
      `BodyRead`; otherwise the page. */
  function Fetched<P>(response: Response<P>, url: string, context: string): (r: Result<P, ScraperError>)
  {
    match response
    case TransportError(reason) => Err(Network(url, reason))
    case Http(status, body) =>
      if !IsSuccess(status) then Err(HttpStatus(status, url, Some(context)))
      else if body.Err? then Err(BodyRead(body.error))
      else Ok(body.value)
  }

  /** The page is used only when the request succeeded with a 2xx status and a body; a
      non-success status is reported with the URL and the context. */
  lemma FetchedAccepted<P>(response: Response<P>, url: string, context: string)
    ensures Fetched(response, url, context).Ok? <==>
      response.Http? && IsSuccess(response.status) && response.body.Ok?
    ensures Fetched(response, url, context).Ok? ==> Fetched(response, url, context).value == response.body.value
    ensures response.Http? && !IsSuccess(response.status) ==>
      Fetched(response, url, context) == Err(HttpStatus(response.status, url, Some(context)))
    ensures response.TransportError? ==> Fetched(response, url, context) == Err(Network(url, response.reason))
  {
  }

  /** What a crawl does that can be observed from outside: a request for a URL, a call of
      the progress callback, a call of the checkpoint callback with the whole book. */
  datatype Event = Fetch(url: string) | Post(url: string, seriesId: string) | Progress(done: nat, total: nat) | Checkpoint(book: Book)

  /** The outcome of a scrape, with everything it did that can be observed. */
  datatype Scrape = Scrape(result: Result<Book, ScraperError>, trace: seq<Event>)

  /** The progress callback's call, when it is set. */
  function ProgressEvent(options: ScrapeOptions, done: nat, total: nat): seq<Event> {
    if options.hasProgress then [Progress(done, total)] else []
  }

  /** The checkpoint callback's call with the whole book, when it is set. */
  function CheckpointEvent(options: ScrapeOptions, book: Book): seq<Event> {
    if options.hasCheckpoint then [Checkpoint(book)] else []
  }

  /** The empty-chapter policy, Skip when unset. */
  function EmptyOf(options: ScrapeOptions): EmptyChapterBehavior {
    options.emptyChapterBehavior.GetOr(EmptyChapterBehavior.Skip)
  }

  const STORY_PAGE_CONTEXT: string := "story page"
  const NO_CONTENT_BODY: string := "<p>This chapter returned no content.</p>"
  const UNPARSED_BODY: string := "<p>This chapter could not be parsed (missing content container).</p>"

  /** The placeholder for a page whose content could not be parsed. */
  function UnparsedPlaceholder(index: U32): Chapter {
    Chapter(ChapterNumberTitle(index) + " (unable to parse)", index, UNPARSED_BODY)
  }

  function Fetches(trace: seq<Event>): (r: seq<string>)
    ensures |r| <= |trace|
  {
    if trace == [] then []
    else (if trace[0].Fetch? then [trace[0].url] else []) + Fetches(trace[1..])
  }

  lemma {:induction false} FetchesAppend(a: seq<Event>, b: seq<Event>)
    ensures Fetches(a + b) == Fetches(a) + Fetches(b)
    decreases |a|
  {
    if a == [] {
      assert a + b == b;
    } else {
      var head := if a[0].Fetch? then [a[0].url] else [];
      assert (a + b)[0] == a[0] && (a + b)[1..] == a[1..] + b;
      assert Fetches(a + b) == head + Fetches(a[1..] + b);
      FetchesAppend(a[1..], b);
      assert head + (Fetches(a[1..]) + Fetches(b)) == (head + Fetches(a[1..])) + Fetches(b);
    }
  }

  lemma {:induction false} FetchesNone(t: seq<Event>)
    requires forall k :: 0 <= k < |t| ==> !t[k].Fetch?
    ensures Fetches(t) == []
    decreases |t|
  {
    if t != [] {
      FetchesNone(t[1..]);
    }
  }

  // ---------------------------------------------------------------- chapter lists

  function ChapterKey(c: Chapter): int {
    c.index
  }

  /** `book.chapters.sort_by_key(|c| c.index)`. */
  function SortChapters(cs: seq<Chapter>): seq<Chapter> {
    Sorting.Sort(cs, ChapterKey)
  }

  /** `book.chapters.iter().any(|c| c.index == index)`. */
  predicate HasIndex(cs: seq<Chapter>, index: int) {
    exists k :: 0 <= k < |cs| && cs[k].index == index
  }

  lemma HasIndexKept(a: seq<Chapter>, b: seq<Chapter>, index: int)
    requires multiset(a) <= multiset(b) && HasIndex(a, index)
    ensures HasIndex(b, index)
  {
    var k :| 0 <= k < |a| && a[k].index == index;
    assert a[k] in multiset(a);
    assert a[k] in b;
  }

  /** The pass between two entries: still going with the book, the `done` counter and the
      events so far, or stopped with an error. */
  datatype Crawl = Going(book: Book, done: nat, trace: seq<Event>) | Stopped(error: ScraperError, trace: seq<Event>)

  /** After the pass: an empty book is `NoChaptersRetrieved`. */
  function Finish(st: Crawl): Scrape {
    match st
    case Stopped(e, trace) => Scrape(Err(e), trace)
    case Going(book, _, trace) =>
      if book.chapters == [] then Scrape(Err(NoChaptersRetrieved), trace) else Scrape(Ok(book), trace)
  }

  /** `t` is `t0` followed by more events. */
  predicate Extends(t: seq<Event>, t0: seq<Event>) {
    |t0| <= |t| && t[..|t0|] == t0
  }

  /** `b` is `book` with one more chapter, re-sorted by index, and nothing else changed. */
  predicate OneMore(book: Book, b: Book) {
    b == book.(chapters := b.chapters)
    && multiset(book.chapters) <= multiset(b.chapters)
    && |b.chapters| == |book.chapters| + 1
    && Sorting.SortedBy(b.chapters, ChapterKey)
  }

  /** Pushing a chapter and re-sorting adds exactly that chapter and leaves the chapters
      sorted by index. */
  lemma SortedPush(book: Book, c: Chapter)
    ensures OneMore(book, book.(chapters := SortChapters(book.chapters + [c])))
    ensures multiset(SortChapters(book.chapters + [c])) == multiset(book.chapters) + multiset{c}
  {
    var cs := book.chapters + [c];
    Sorting.SortPermutes(cs, ChapterKey);
    Sorting.SortSorts(cs, ChapterKey);
  }

  /** `retain(|index| from <= index && index <= to)` when a range is given. */
  predicate InRange(range: Option<(U32, U32)>, index: int) {
    range.None? || (range.value.0 <= index <= range.value.1)
  }

  /** The placeholder title `format!("Chapter {}", index)` and its variants. */
  function ChapterNumberTitle(index: nat): string {
    "Chapter " + NatToString(index)
  }

  /** One chapter page's body: `<p>…</p>` around each trimmed, escaped paragraph text,
      joined with nothing. */
  function ParagraphsToBody(paragraphs: seq<string>): (body: string)
    ensures body == [] <==> paragraphs == []
  {
    if paragraphs == [] then []
    else "<p>" + HtmlEscape(Trim(paragraphs[0])) + "</p>" + ParagraphsToBody(paragraphs[1..])
  }

  // ---------------------------------------------------------------- title suffixes

  /** The position of the first suffix, in list order, that `t` ends with. */
  function FirstSuffixMatch(t: string, suffixes: seq<string>): (r: Option<nat>)
    ensures r.Some? ==> r.value < |suffixes| && EndsWith(t, suffixes[r.value])
    ensures r.Some? ==> forall j :: 0 <= j < r.value ==> !EndsWith(t, suffixes[j])
    ensures r.None? ==> forall j :: 0 <= j < |suffixes| ==> !EndsWith(t, suffixes[j])
  {
    if suffixes == [] then None
    else if EndsWith(t, suffixes[0]) then Some(0)
    else match FirstSuffixMatch(t, suffixes[1..])
      case None => None
      case Some(k) => Some(k + 1)
  }

  /** Cutting from an already trimmed title `t`: remove the first suffix in list order
      that `t` ends with, then trim what is left. */
  function CutFirstSuffix(t: string, suffixes: seq<string>): string {
    match FirstSuffixMatch(t, suffixes)
    case None => t
    case Some(k) => Trim(t[..|t| - |suffixes[k]|])
  }

  /** The title with surrounding whitespace and at most one site suffix removed. */
  function StrippedTitle(s: string, suffixes: seq<string>): string {
    CutFirstSuffix(Trim(s), suffixes)
  }

  /** Cutting never lengthens a title and keeps a trimmed title trimmed. */
  lemma CutBounds(t: string, suffixes: seq<string>)
    requires t == [] || (!IsWhitespace(t[0]) && !IsWhitespace(t[|t| - 1]))
    ensures |CutFirstSuffix(t, suffixes)| <= |t|
    ensures var r := CutFirstSuffix(t, suffixes); r == [] || (!IsWhitespace(r[0]) && !IsWhitespace(r[|r| - 1]))
  {
    var m := FirstSuffixMatch(t, suffixes);
    if m.Some? {
      var rest := t[..|t| - |suffixes[m.value]|];
      assert |Trim(rest)| <= |rest|;
    }
  }

  /** The result is never longer than the trimmed title, and is itself trimmed. */
  lemma StrippedTitleBounds(s: string, suffixes: seq<string>)
    ensures |StrippedTitle(s, suffixes)| <= |Trim(s)|
    ensures var r := StrippedTitle(s, suffixes); r == [] || (!IsWhitespace(r[0]) && !IsWhitespace(r[|r| - 1]))
  {
    CutBounds(Trim(s), suffixes);
  }

  /** `strip_title_site_suffix`: trim, then remove the first suffix in the list that the
      trimmed title ends with, trim again and stop. */
  method StripTitleSiteSuffix(s: string, suffixes: seq<string>) returns (r: string)
    ensures r == StrippedTitle(s, suffixes)
  {
    var t := Trim(s);
    var k := 0;
    while k < |suffixes|
      invariant k <= |suffixes|
      invariant NoSuffixBefore(t, suffixes, k)
    {
      if EndsWith(t, suffixes[k]) {
        CutAt(t, suffixes, k);
        return Trim(t[..|t| - |suffixes[k]|]);
      }
      NoSuffixExtend(t, suffixes, k);
      k := k + 1;
    }
    CutNone(t, suffixes);
    r := t;
  }

  /** None of the first `k` suffixes matches. */
  predicate NoSuffixBefore(t: string, suffixes: seq<string>, k: nat)
    requires k <= |suffixes|
  {
    forall j :: 0 <= j < k ==> !EndsWith(t, suffixes[j])
  }

  lemma NoSuffixExtend(t: string, suffixes: seq<string>, k: nat)
    requires k < |suffixes| && NoSuffixBefore(t, suffixes, k) && !EndsWith(t, suffixes[k])
    ensures NoSuffixBefore(t, suffixes, k + 1)
  {
  }

  lemma FirstSuffixUnique(t: string, suffixes: seq<string>, k: nat)
    requires k < |suffixes| && EndsWith(t, suffixes[k]) && NoSuffixBefore(t, suffixes, k)
    ensures FirstSuffixMatch(t, suffixes) == Some(k)
  {
  }

  /** The cut when the suffix at `k` is the first one that matches. */
  lemma CutAt(t: string, suffixes: seq<string>, k: nat)
    requires k < |suffixes| && EndsWith(t, suffixes[k]) && NoSuffixBefore(t, suffixes, k)
    ensures CutFirstSuffix(t, suffixes) == Trim(t[..|t| - |suffixes[k]|])
  {
    FirstSuffixUnique(t, suffixes, k);
  }

  /** When the title ends with none of the suffixes, nothing is cut. */
  lemma CutNone(t: string, suffixes: seq<string>)
    requires NoSuffixBefore(t, suffixes, |suffixes|)
    ensures CutFirstSuffix(t, suffixes) == t
  {
    assert FirstSuffixMatch(t, suffixes).None?;
  }

  /** Only the trailing occurrence is removed: the title is what was kept followed by the
      suffix that matched. */
  lemma CutRemovesOnlyTheEnd(t: string, suffixes: seq<string>)
    requires FirstSuffixMatch(t, suffixes).Some?
    ensures
      var k := FirstSuffixMatch(t, suffixes).value;
      t == t[..|t| - |suffixes[k]|] + suffixes[k]
      && CutFirstSuffix(t, suffixes) == Trim(t[..|t| - |suffixes[k]|])
  {
    var k := FirstSuffixMatch(t, suffixes).value;
    assert t[|t| - |suffixes[k]|..] == suffixes[k];
    assert t == t[..|t| - |suffixes[k]|] + t[|t| - |suffixes[k]|..];
  }

  /** A suffix that appears twice is removed once. */
  lemma StripAtMostOnce(x: string, suffix: string)
    requires x != [] && !IsWhitespace(x[0]) && !IsWhitespace(x[|x| - 1])
    requires suffix != [] && !IsWhitespace(suffix[0]) && !IsWhitespace(suffix[|suffix| - 1])
    ensures StrippedTitle(x + suffix + suffix, [suffix]) == x + suffix
  {
    var once := x + suffix;
    var t := once + suffix;
    assert t[0] == x[0] && t[|t| - 1] == suffix[|suffix| - 1];
    TrimOfTrimmed(t);
    assert t[|t| - |suffix|..] == suffix;
    assert t[..|t| - |suffix|] == once;
    CutAt(t, [suffix], 0);
    assert once[0] == x[0] && once[|once| - 1] == suffix[|suffix| - 1];
    TrimOfTrimmed(once);
  }

  /** A trimmed title followed by the first matching suffix comes back as that title. */
  lemma StripSuffixedTitle(x: string, suffixes: seq<string>, k: nat)
    requires x != [] && !IsWhitespace(x[0]) && !IsWhitespace(x[|x| - 1])
    requires k < |suffixes| && suffixes[k] != [] && !IsWhitespace(suffixes[k][|suffixes[k]| - 1])
    requires NoSuffixBefore(x + suffixes[k], suffixes, k)
    ensures StrippedTitle(x + suffixes[k], suffixes) == x
  {
    var t := x + suffixes[k];
    assert t[0] == x[0] && t[|t| - 1] == suffixes[k][|suffixes[k]| - 1];
    TrimOfTrimmed(t);
    assert t[|t| - |suffixes[k]|..] == suffixes[k];
    assert t[..|t| - |suffixes[k]|] == x;
    CutAt(t, suffixes, k);
    TrimOfTrimmed(x);
  }

  /** The titles the module's own tests check: " - " and " | " inside the title survive. */
  lemma StripExampleDash()
    ensures StrippedTitle("Chapter 1 - The Beginning" + " | Scribble Hub", [" | Scribble Hub", " - Scribble Hub"])
         == "Chapter 1 - The Beginning"
  {
    StripSuffixedTitle("Chapter 1 - The Beginning", [" | Scribble Hub", " - Scribble Hub"], 0);
  }

  lemma StripExamplePipe()
    ensures StrippedTitle("Chapter 1 | Part 2" + " | Scribble Hub", [" | Scribble Hub", " - Scribble Hub"])
         == "Chapter 1 | Part 2"
  {
    StripSuffixedTitle("Chapter 1 | Part 2", [" | Scribble Hub", " - Scribble Hub"], 0);
  }

  lemma StripExampleRoyalRoad()
    ensures StrippedTitle("1. Good Morning - Brother - Book" + " _ Royal Road", [" _ Royal Road", " - Royal Road", " | Royal Road"])
         == "1. Good Morning - Brother - Book"
  {
    StripSuffixedTitle("1. Good Morning - Brother - Book", [" _ Royal Road", " - Royal Road", " | Royal Road"], 0);
  }

  // ---------------------------------------------------------------- site resolution

  /** `resolve_site`: the override wins; otherwise the parsed URL's host decides. `parsed`
      is what `Url::parse(input)` returned. */
  function ResolveSite(input: string, parsed: Result<Url, string>, overrideSite: Option<Site>): (r: Result<Site, ScraperError>)
    ensures r.Err? ==> r.error.InvalidUrl? || r.error.UnrecognizedHost?
  {
    if overrideSite.Some? then Ok(overrideSite.value)
    else if parsed.Err? then Err(InvalidUrl(input, parsed.error))
    else if parsed.value.host.None? then Err(InvalidUrl(input, "URL has no host"))
    else
      var host := parsed.value.host.value;
      if Contains(host, "royalroad.com") then Ok(RoyalRoad)
      else if Contains(host, "scribblehub.com") then Ok(ScribbleHub)
      else Err(UnrecognizedHost(host))
  }

  /** The override is returned whatever the URL is, even an unparseable one. */
  lemma OverrideWins(input: string, parsed: Result<Url, string>, site: Site)
    ensures ResolveSite(input, parsed, Some(site)) == Ok(site)
  {
  }

  /** Without an override: Royal Road exactly when the host contains "royalroad.com";
      Scribble Hub exactly when it contains "scribblehub.com" and not "royalroad.com". */
  lemma HostDecides(input: string, url: Url)
    requires url.host.Some?
    ensures ResolveSite(input, Ok(url), None) == Ok(RoyalRoad) <==> Contains(url.host.value, "royalroad.com")
    ensures ResolveSite(input, Ok(url), None) == Ok(ScribbleHub)
        <==> !Contains(url.host.value, "royalroad.com") && Contains(url.host.value, "scribblehub.com")
    ensures ResolveSite(input, Ok(url), None) == Err(UnrecognizedHost(url.host.value))
        <==> !Contains(url.host.value, "royalroad.com") && !Contains(url.host.value, "scribblehub.com")
  {
  }

  /** An unparseable URL, or one without a host, is reported with the original input. */
  lemma InvalidUrlCarriesInput(input: string, parsed: Result<Url, string>)
    requires parsed.Err? || parsed.value.host.None?
    ensures ResolveSite(input, parsed, None).Err?
    ensures ResolveSite(input, parsed, None).error.InvalidUrl?
    ensures ResolveSite(input, parsed, None).error.input == input
  {
  }
}

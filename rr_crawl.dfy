/** The Royal Road `scrape_book`: the story page, its table of contents, the locked-chapter
    policy, the range filter, then one pass over the entries that fetches, parses and
    appends chapters. The network is seen through the responses it gives; the progress and
    checkpoint callbacks through the events they receive. */
module RoyalRoadCrawl {
  import opened Wrappers
  import opened Text
  import opened Model
  import opened Scraper
  import opened RoyalRoadToc
  import opened RoyalRoadPages
  import Sorting

  /** The story page as the adapter reads it: the HTML text the table of contents is cut
      from, and the JSON-LD object and DOM elements the metadata comes from. */
  datatype StoryPage = StoryPage(html: string, ld: Option<LdObject>, dom: StoryDom)

  /** What the adapter sees of the site: each page as `get_with_retry` and reading the body
      return it, and the parsers of the table of contents. */
  datatype RoyalRoadWeb = RoyalRoadWeb(
    storyPage: string -> Response<StoryPage>,
    chapterPage: string -> Response<ChapterPage>,
    parsers: TocParsers)

  function StoryResponse(web: RoyalRoadWeb, url: string): Response<StoryPage> {
    web.storyPage(url)
  }

  function ChapterResponse(web: RoyalRoadWeb, url: string): Response<ChapterPage> {
    web.chapterPage(url)
  }

  const LOCKED_BODY: string := "<p>This chapter is locked (premium) and could not be retrieved.</p>"

  /** The locked policy, Skip when unset. */
  function LockedOf(options: ScrapeOptions): LockedChapterBehavior {
    options.lockedBehavior.GetOr(LockedChapterBehavior.Skip)
  }

  /** How many entries are locked. */
  function LockedCount(toc: seq<TocEntry>): (n: nat)
    ensures n <= |toc|
  {
    if toc == [] then 0 else (if toc[0].isUnlocked then 0 else 1) + LockedCount(toc[1..])
  }

  lemma {:induction false} LockedCountZero(toc: seq<TocEntry>)
    ensures LockedCount(toc) == 0 <==> forall e :: e in toc ==> e.isUnlocked
    decreases |toc|
  {
    if toc != [] {
      LockedCountZero(toc[1..]);
      assert forall e :: e in toc <==> e == toc[0] || e in toc[1..];
    }
  }

  /** `toc.retain(|e| from <= e.index <= to)` when a range is given. */
  function InRangeOnly(toc: seq<TocEntry>, range: Option<(U32, U32)>): (r: seq<TocEntry>)
    ensures |r| <= |toc|
  {
    if toc == [] then []
    else (if InRange(range, toc[0].index) then [toc[0]] else []) + InRangeOnly(toc[1..], range)
  }

  /** The filter keeps exactly the entries in range, in their order. */
  lemma {:induction false} InRangeOnlyKeeps(toc: seq<TocEntry>, range: Option<(U32, U32)>)
    ensures forall e :: e in InRangeOnly(toc, range) <==> e in toc && InRange(range, e.index)
    ensures range.None? ==> InRangeOnly(toc, range) == toc
    decreases |toc|
  {
    if toc != [] {
      InRangeOnlyKeeps(toc[1..], range);
      var head := if InRange(range, toc[0].index) then [toc[0]] else [];
      assert InRangeOnly(toc, range) == head + InRangeOnly(toc[1..], range);
      forall e ensures e in InRangeOnly(toc, range) <==> e in toc && InRange(range, e.index) {
        assert e in toc <==> e == toc[0] || e in toc[1..];
      }
      if range.None? {
        assert toc == [toc[0]] + toc[1..];
      }
    }
  }

  /** The book the pass starts from: the resumed one, or a new one from the metadata with
      no chapters and the fiction URL as its source. */
  function StartBook(options: ScrapeOptions, page: StoryPage, fictionUrl: string): (r: Result<Book, ScraperError>)
  {
    if options.initialBook.Some? then Ok(options.initialBook.value)
    else match ParseMetadata(page.ld, page.dom)
      case Err(e) => Err(e)
      case Ok(m) => Ok(Book(m.title, m.author, m.description, m.coverUrl, [], Some(fictionUrl)))
  }

  // ---------------------------------------------------------------- the crawl pass

  /** What stays fixed during the pass: the options, the total reported to the progress
      callback, the locked count and the site. */
  datatype Pass = Pass(options: ScrapeOptions, total: nat, lockedCount: nat, web: RoyalRoadWeb)

  /** Push a chapter, re-sort by index and hand the whole book to the checkpoint. */
  function Appended(p: Pass, book: Book, c: Chapter, done: nat, trace: seq<Event>): Crawl {
    var b := book.(chapters := SortChapters(book.chapters + [c]));
    Going(b, done, trace + CheckpointEvent(p.options, b))
  }

  function LockedPlaceholder(e: TocEntry): Chapter {
    Chapter(e.title + " (locked)", e.index, LOCKED_BODY)
  }

  /** A fetched chapter page: append it, or apply the empty-chapter policy when it has no
      content. The empty-body arm mirrors the source although `ParseChapterPage` never
      returns an empty body. */
  function PageStep(p: Pass, e: TocEntry, page: ChapterPage, book: Book, done: nat, trace: seq<Event>): Crawl {
    var parsed := ParseChapterPage(page, e.index, e.url);
    if parsed.Ok? then
      var (title, body) := parsed.value;
      if body == [] then
        match EmptyOf(p.options)
        case Skip => Going(book, done, trace)
        case Placeholder => Appended(p, book, Chapter(title + " (no content)", e.index, NO_CONTENT_BODY), done, trace)
        case Fail => Stopped(EmptyChapter(e.index, e.url), trace)
      else Appended(p, book, Chapter(title, e.index, body), done, trace)
    else if parsed.error.ParseChapter? then
      match EmptyOf(p.options)
      case Skip => Going(book, done, trace)
      case Placeholder => Appended(p, book, UnparsedPlaceholder(parsed.error.index), done, trace)
      case Fail => Stopped(parsed.error, trace)
    else Stopped(parsed.error, trace)
  }

  /** An unlocked entry: request the page; a transport error, a non-success status or a
      failed body read skips the chapter. */
  function FetchStep(p: Pass, e: TocEntry, book: Book, done: nat, trace: seq<Event>): Crawl {
    var trace' := trace + [Fetch(e.url)];
    var response := ChapterResponse(p.web, e.url);
    if response.TransportError? || !IsSuccess(response.status) || response.body.Err? then Going(book, done, trace')
    else PageStep(p, e, response.body.value, book, done, trace')
  }

  /** One entry of the pass. An index already in the book is passed over; any other entry
      is counted and reported to the progress callback before its outcome is known. */
  function Step(p: Pass, e: TocEntry, book: Book, done: nat, trace: seq<Event>): Crawl {
    if HasIndex(book.chapters, e.index) then Going(book, done, trace)
    else
      var done' := done + 1;
      var trace' := trace + ProgressEvent(p.options, done', p.total);
      if !e.isUnlocked then LockedStep(p, e, book, done', trace')
      else FetchStep(p, e, book, done', trace')
  }

  /** A locked entry, by the locked-chapter policy: skip it, push a placeholder, or stop. */
  function LockedStep(p: Pass, e: TocEntry, book: Book, done: nat, trace: seq<Event>): Crawl {
    match LockedOf(p.options)
    case Skip => Going(book, done, trace)
    case Placeholder => Appended(p, book, LockedPlaceholder(e), done, trace)
    case Fail => Stopped(LockedChaptersNotAllowed(p.lockedCount), trace)
  }

  /** The pass over `entries` from `st`. */
  function CrawlFrom(p: Pass, entries: seq<TocEntry>, st: Crawl): Crawl
    decreases |entries|
  {
    if entries == [] || st.Stopped? then st
    else CrawlFrom(p, entries[1..], Step(p, entries[0], st.book, st.done, st.trace))
  }

  // ---------------------------------------------------------------- toc-only mode

  /** One entry in toc-only mode: chapters with empty bodies, a locked one only as a
      placeholder; nothing is fetched. */
  function TocOnlyStep(lb: LockedChapterBehavior, e: TocEntry, chapters: seq<Chapter>): seq<Chapter> {
    if HasIndex(chapters, e.index) then chapters
    else if !e.isUnlocked then
      if lb == LockedChapterBehavior.Placeholder then chapters + [Chapter(e.title + " (locked)", e.index, [])]
      else chapters
    else chapters + [Chapter(e.title, e.index, [])]
  }

  function TocOnlyFrom(lb: LockedChapterBehavior, entries: seq<TocEntry>, chapters: seq<Chapter>): seq<Chapter>
    decreases |entries|
  {
    if entries == [] then chapters else TocOnlyFrom(lb, entries[1..], TocOnlyStep(lb, entries[0], chapters))
  }

  // ---------------------------------------------------------------- the whole scrape

  /** Everything after the table of contents was read. */
  function AfterToc(web: RoyalRoadWeb, options: ScrapeOptions, fictionUrl: string, page: StoryPage,
                    toc: seq<TocEntry>, trace: seq<Event>): Scrape
  {
    var locked := LockedCount(toc);
    if locked > 0 && LockedOf(options) == LockedChapterBehavior.Fail then
      Scrape(Err(LockedChaptersNotAllowed(locked)), trace)
    else
      var wanted := InRangeOnly(toc, options.chapterRange);
      match StartBook(options, page, fictionUrl)
      case Err(e) => Scrape(Err(e), trace)
      case Ok(book) =>
        if options.tocOnly then
          Scrape(Ok(book.(chapters := SortChapters(TocOnlyFrom(LockedOf(options), wanted, book.chapters)))), trace)
        else
          Finish(CrawlFrom(Pass(options, |toc| % Model.U32_LIMIT, locked, web), wanted, Going(book, 0, trace)))
  }

  /** `scrape_book` for Royal Road. `parsed` is what `Url::parse(url)` returned. */
  function ScrapeSpec(web: RoyalRoadWeb, url: string, parsed: Result<Url, string>, options: ScrapeOptions): Scrape {
    match EnsureFictionUrl(url, parsed)
    case Err(e) => Scrape(Err(e), [])
    case Ok(fictionUrl) =>
      var trace := [Fetch(fictionUrl)];
      match Fetched(StoryResponse(web, fictionUrl), fictionUrl, STORY_PAGE_CONTEXT)
      case Err(e) => Scrape(Err(e), trace)
      case Ok(page) =>
        match TocFromHtml(page.html, web.parsers)
        case Err(e) => Scrape(Err(e), trace)
        case Ok(toc) => AfterToc(web, options, fictionUrl, page, toc, trace)
  }

  // ---------------------------------------------------------------- loop lemmas

  lemma CrawlUnfold(p: Pass, entries: seq<TocEntry>, i: nat, book: Book, done: nat, trace: seq<Event>)
    requires i < |entries|
    ensures CrawlFrom(p, entries[i..], Going(book, done, trace))
         == CrawlFrom(p, entries[i + 1..], Step(p, entries[i], book, done, trace))
  {
    assert entries[i..][1..] == entries[i + 1..];
  }

  lemma CrawlStopped(p: Pass, entries: seq<TocEntry>, e: ScraperError, trace: seq<Event>)
    ensures CrawlFrom(p, entries, Stopped(e, trace)) == Stopped(e, trace)
  {
  }

  lemma TocOnlyUnfold(lb: LockedChapterBehavior, entries: seq<TocEntry>, i: nat, chapters: seq<Chapter>)
    requires i < |entries|
    ensures TocOnlyFrom(lb, entries[i..], chapters) == TocOnlyFrom(lb, entries[i + 1..], TocOnlyStep(lb, entries[i], chapters))
  {
    assert entries[i..][1..] == entries[i + 1..];
  }

  /** The chapters with empty bodies that toc-only mode lists. */
  method TocOnlyChapters(lb: LockedChapterBehavior, wanted: seq<TocEntry>, start: seq<Chapter>) returns (cs: seq<Chapter>)
    ensures cs == TocOnlyFrom(lb, wanted, start)
  {
    cs := start;
    var i := 0;
    while i < |wanted|
      invariant i <= |wanted|
      invariant TocOnlyFrom(lb, wanted[i..], cs) == TocOnlyFrom(lb, wanted, start)
    {
      var e := wanted[i];
      TocOnlyUnfold(lb, wanted, i, cs);
      if !HasIndex(cs, e.index) {
        if !e.isUnlocked {
          if lb == LockedChapterBehavior.Placeholder {
            cs := cs + [Chapter(e.title + " (locked)", e.index, [])];
          }
        } else {
          cs := cs + [Chapter(e.title, e.index, [])];
        }
      }
      i := i + 1;
    }
    assert wanted[i..] == [];
  }

  /** `scrape_book`, with the crawl loop over the wanted entries. */
  method ScrapeBook(web: RoyalRoadWeb, url: string, parsed: Result<Url, string>, options: ScrapeOptions)
    returns (result: Result<Book, ScraperError>, trace: seq<Event>)
    ensures Scrape(result, trace) == ScrapeSpec(web, url, parsed, options)
  {
    var checked := EnsureFictionUrl(url, parsed);
    if checked.Err? {
      return Err(checked.error), [];
    }
    var fictionUrl := checked.value;
    trace := [Fetch(fictionUrl)];
    var story := Fetched(StoryResponse(web, fictionUrl), fictionUrl, STORY_PAGE_CONTEXT);
    if story.Err? {
      return Err(story.error), trace;
    }
    var page := story.value;
    var tocResult := ParseTocWithLocked(page.html, web.parsers);
    if tocResult.Err? {
      return Err(tocResult.error), trace;
    }
    var toc := tocResult.value;
    result, trace := CrawlToc(web, options, fictionUrl, page, toc, trace);
  }

  /** The part of `scrape_book` after the table of contents was read. */
  method CrawlToc(web: RoyalRoadWeb, options: ScrapeOptions, fictionUrl: string, page: StoryPage,
                  toc: seq<TocEntry>, trace0: seq<Event>)
    returns (result: Result<Book, ScraperError>, trace: seq<Event>)
    ensures Scrape(result, trace) == AfterToc(web, options, fictionUrl, page, toc, trace0)
  {
    trace := trace0;
    var lockedCount := LockedCount(toc);
    if lockedCount > 0 && LockedOf(options) == LockedChapterBehavior.Fail {
      return Err(LockedChaptersNotAllowed(lockedCount)), trace;
    }
    var total := |toc| % Model.U32_LIMIT;
    var wanted := InRangeOnly(toc, options.chapterRange);
    var start := StartBook(options, page, fictionUrl);
    if start.Err? {
      return Err(start.error), trace;
    }
    var book := start.value;
    if options.tocOnly {
      var cs := TocOnlyChapters(LockedOf(options), wanted, book.chapters);
      return Ok(book.(chapters := SortChapters(cs))), trace;
    }
    var p := Pass(options, total, lockedCount, web);
    var done := 0;
    var i := 0;
    ghost var init := Going(book, 0, trace);
    while i < |wanted|
      invariant i <= |wanted|
      invariant CrawlFrom(p, wanted, init) == CrawlFrom(p, wanted[i..], Going(book, done, trace))
    {
      CrawlUnfold(p, wanted, i, book, done, trace);
      var stop;
      book, done, trace, stop := VisitEntry(p, wanted[i], book, done, trace);
      if stop.Some? {
        CrawlStopped(p, wanted[i + 1..], stop.value, trace);
        return Err(stop.value), trace;
      }
      i := i + 1;
    }
    assert wanted[i..] == [];
    if book.chapters == [] {
      return Err(NoChaptersRetrieved), trace;
    }
    return Ok(book), trace;
  }

  /** One turn of the crawl loop. */
  method VisitEntry(p: Pass, e: TocEntry, book0: Book, done0: nat, trace0: seq<Event>)
    returns (book: Book, done: nat, trace: seq<Event>, stop: Option<ScraperError>)
    ensures stop.None? ==> Step(p, e, book0, done0, trace0) == Going(book, done, trace)
    ensures stop.Some? ==> Step(p, e, book0, done0, trace0) == Stopped(stop.value, trace)
  {
    book, done, trace, stop := book0, done0, trace0, None;
    if HasIndex(book.chapters, e.index) {
      return;
    }
    done := done + 1;
    trace := trace + ProgressEvent(p.options, done, p.total);
    if !e.isUnlocked {
      book, trace, stop := VisitLocked(p, e, book, done, trace);
      return;
    }
    book, trace, stop := VisitUnlocked(p, e, book, done, trace);
  }

  /** A locked entry inside the crawl loop. */
  method VisitLocked(p: Pass, e: TocEntry, book0: Book, done: nat, trace0: seq<Event>)
    returns (book: Book, trace: seq<Event>, stop: Option<ScraperError>)
    ensures stop.None? ==> LockedStep(p, e, book0, done, trace0) == Going(book, done, trace)
    ensures stop.Some? ==> LockedStep(p, e, book0, done, trace0) == Stopped(stop.value, trace)
  {
    book, trace, stop := book0, trace0, None;
    match LockedOf(p.options) {
      case Skip =>
      case Placeholder =>
        book := book.(chapters := SortChapters(book.chapters + [LockedPlaceholder(e)]));
        trace := trace + CheckpointEvent(p.options, book);
      case Fail =>
        stop := Some(LockedChaptersNotAllowed(p.lockedCount));
    }
  }

  /** The request for an unlocked chapter; a failed one skips the chapter. */
  method VisitUnlocked(p: Pass, e: TocEntry, book0: Book, done: nat, trace0: seq<Event>)
    returns (book: Book, trace: seq<Event>, stop: Option<ScraperError>)
    ensures stop.None? ==> FetchStep(p, e, book0, done, trace0) == Going(book, done, trace)
    ensures stop.Some? ==> FetchStep(p, e, book0, done, trace0) == Stopped(stop.value, trace)
  {
    book, stop := book0, None;
    trace := trace0 + [Fetch(e.url)];
    var response := ChapterResponse(p.web, e.url);
    if response.Http? && IsSuccess(response.status) && response.body.Ok? {
      book, trace, stop := VisitPage(p, e, response.body.value, book, done, trace);
    }
  }

  /** The handling of one fetched chapter page inside the crawl loop. */
  method VisitPage(p: Pass, e: TocEntry, page: ChapterPage, book0: Book, done: nat, trace0: seq<Event>)
    returns (book: Book, trace: seq<Event>, stop: Option<ScraperError>)
    ensures stop.None? ==> PageStep(p, e, page, book0, done, trace0) == Going(book, done, trace)
    ensures stop.Some? ==> PageStep(p, e, page, book0, done, trace0) == Stopped(stop.value, trace)
  {
    book, trace, stop := book0, trace0, None;
    var parsed := ParseChapterPage(page, e.index, e.url);
    var push: Option<Chapter> := None;
    match parsed {
      case Ok((title, body)) =>
        if body == [] {
          match EmptyOf(p.options) {
            case Skip =>
            case Placeholder =>
              push := Some(Chapter(title + " (no content)", e.index, NO_CONTENT_BODY));
            case Fail =>
              stop := Some(EmptyChapter(e.index, e.url));
          }
        } else {
          push := Some(Chapter(title, e.index, body));
        }
      case Err(err) =>
        if err.ParseChapter? {
          match EmptyOf(p.options) {
            case Skip =>
            case Placeholder =>
              push := Some(UnparsedPlaceholder(err.index));
            case Fail =>
              stop := Some(err);
          }
        } else {
          stop := Some(err);
        }
    }
    if push.Some? {
      ghost var appended := Appended(p, book, push.value, done, trace);
      book := book.(chapters := SortChapters(book.chapters + [push.value]));
      trace := trace + CheckpointEvent(p.options, book);
      assert appended == Going(book, done, trace);
    }
  }

  // ---------------------------------------------------------------- what one step does

  /** What handling a page can do to the state: stop with the events so far, leave the book
      as it is, or add one chapter and report the new book to the checkpoint callback. */
  predicate PageOutcome(options: ScrapeOptions, book: Book, done: nat, trace: seq<Event>, r: Crawl) {
    match r
    case Stopped(_, t) => t == trace
    case Going(b, d, t) =>
      d == done && ((b == book && t == trace) || (OneMore(book, b) && t == trace + CheckpointEvent(options, b)))
  }

  lemma AppendedOutcome(p: Pass, book: Book, c: Chapter, done: nat, trace: seq<Event>)
    ensures PageOutcome(p.options, book, done, trace, Appended(p, book, c, done, trace))
    ensures Appended(p, book, c, done, trace).book.chapters == SortChapters(book.chapters + [c])
  {
    var cs := book.chapters + [c];
    Sorting.SortPermutes(cs, ChapterKey);
    Sorting.SortSorts(cs, ChapterKey);
  }

  lemma PageStepOutcome(p: Pass, e: TocEntry, page: ChapterPage, book: Book, done: nat, trace: seq<Event>)
    ensures PageOutcome(p.options, book, done, trace, PageStep(p, e, page, book, done, trace))
  {
    var parsed := ParseChapterPage(page, e.index, e.url);
    if parsed.Ok? {
      var (title, body) := parsed.value;
      AppendedOutcome(p, book, Chapter(title + " (no content)", e.index, NO_CONTENT_BODY), done, trace);
      AppendedOutcome(p, book, Chapter(title, e.index, body), done, trace);
    } else if parsed.error.ParseChapter? {
      AppendedOutcome(p, book, UnparsedPlaceholder(parsed.error.index), done, trace);
    }
  }

  /** The events a step emits before its outcome is known: the progress report of a counted
      entry, then the request of an unlocked one. */
  function StepPrefix(p: Pass, e: TocEntry, book: Book, done: nat): seq<Event> {
    if HasIndex(book.chapters, e.index) then []
    else ProgressEvent(p.options, done + 1, p.total) + (if e.isUnlocked then [Fetch(e.url)] else [])
  }

  /** The counter after a step: one more for every entry whose index is not in the book. */
  function Counted(e: TocEntry, book: Book, done: nat): nat {
    if HasIndex(book.chapters, e.index) then done else done + 1
  }

  /** An unlocked entry: the request, then whatever handling the page does. */
  lemma FetchStepOutcome(p: Pass, e: TocEntry, book: Book, done: nat, trace: seq<Event>)
    ensures PageOutcome(p.options, book, done, trace + [Fetch(e.url)], FetchStep(p, e, book, done, trace))
  {
    var response := ChapterResponse(p.web, e.url);
    if !(response.TransportError? || !IsSuccess(response.status) || response.body.Err?) {
      PageStepOutcome(p, e, response.body.value, book, done, trace + [Fetch(e.url)]);
    }
  }

  /** A locked entry: skipped, a placeholder, or the end of the pass. */
  lemma LockedStepOutcome(p: Pass, e: TocEntry, book: Book, done: nat, trace: seq<Event>)
    requires !HasIndex(book.chapters, e.index) && !e.isUnlocked
    ensures PageOutcome(p.options, book, done + 1, trace + ProgressEvent(p.options, done + 1, p.total),
                        Step(p, e, book, done, trace))
  {
    AppendedOutcome(p, book, LockedPlaceholder(e), done + 1, trace + ProgressEvent(p.options, done + 1, p.total));
  }

  /** A step emits its prefix, then ends like the handling of a page. The counter rises
      whatever the outcome: a skipped locked chapter and a failed request count too. */
  lemma StepOutcome(p: Pass, e: TocEntry, book: Book, done: nat, trace: seq<Event>)
    ensures PageOutcome(p.options, book, Counted(e, book, done), trace + StepPrefix(p, e, book, done),
                        Step(p, e, book, done, trace))
  {
    if HasIndex(book.chapters, e.index) {
      assert trace + [] == trace;
    } else if !e.isUnlocked {
      LockedStepOutcome(p, e, book, done, trace);
      assert trace + ProgressEvent(p.options, done + 1, p.total) + [] == trace + ProgressEvent(p.options, done + 1, p.total);
    } else {
      var trace' := trace + ProgressEvent(p.options, done + 1, p.total);
      FetchStepOutcome(p, e, book, done + 1, trace');
      assert trace' + [Fetch(e.url)] == trace + StepPrefix(p, e, book, done);
    }
  }

  /** A request that fails in transport, with a non-success status, or while reading the
      body skips only that chapter: the book is unchanged and the pass goes on. */
  lemma FailedFetchSkips(p: Pass, e: TocEntry, book: Book, done: nat, trace: seq<Event>)
    requires !HasIndex(book.chapters, e.index) && e.isUnlocked
    requires var response := ChapterResponse(p.web, e.url);
      response.TransportError? || !IsSuccess(response.status) || response.body.Err?
    ensures Step(p, e, book, done, trace) ==
      Going(book, done + 1, trace + ProgressEvent(p.options, done + 1, p.total) + [Fetch(e.url)])
  {
  }

  /** Handling a page adds no request. */
  lemma OutcomeFetches(options: ScrapeOptions, book: Book, done: nat, pre: seq<Event>, r: Crawl)
    requires PageOutcome(options, book, done, pre, r)
    ensures Extends(r.trace, pre) && Fetches(r.trace) == Fetches(pre)
  {
    if r.Going? && r.trace != pre {
      var cp := CheckpointEvent(options, r.book);
      FetchesNone(cp);
      FetchesAppend(pre, cp);
      assert r.trace[..|pre|] == pre;
    } else {
      assert r.trace[..|pre|] == pre;
    }
  }

  /** The requests before a step's outcome: the entry's URL when it is counted and
      unlocked. */
  lemma PrefixFetches(p: Pass, e: TocEntry, book: Book, done: nat, trace: seq<Event>)
    ensures Fetches(trace + StepPrefix(p, e, book, done))
         == Fetches(trace) + (if e.isUnlocked && !HasIndex(book.chapters, e.index) then [e.url] else [])
  {
    var prefix := StepPrefix(p, e, book, done);
    FetchesAppend(trace, prefix);
    if HasIndex(book.chapters, e.index) {
      assert Fetches(prefix) == [];
    } else {
      var progress := ProgressEvent(p.options, done + 1, p.total);
      var fetch: seq<Event> := if e.isUnlocked then [Fetch(e.url)] else [];
      FetchesNone(progress);
      FetchesAppend(progress, fetch);
      assert prefix == progress + fetch;
      assert Fetches(fetch) == if e.isUnlocked then [e.url] else [];
    }
  }

  /** The requests of one step: the entry's URL, exactly when it is unlocked and its index
      is not yet in the book. */
  lemma StepFetches(p: Pass, e: TocEntry, book: Book, done: nat, trace: seq<Event>)
    ensures var r := Step(p, e, book, done, trace);
      Extends(r.trace, trace)
      && Fetches(r.trace) == Fetches(trace) + (if e.isUnlocked && !HasIndex(book.chapters, e.index) then [e.url] else [])
  {
    var pre := trace + StepPrefix(p, e, book, done);
    StepOutcome(p, e, book, done, trace);
    OutcomeFetches(p.options, book, Counted(e, book, done), pre, Step(p, e, book, done, trace));
    PrefixFetches(p, e, book, done, trace);
    assert pre[..|trace|] == trace;
  }

  // ---------------------------------------------------------------- what the pass does

  /** An entry of `entries` that is unlocked, has URL `u`, and whose index is not among
      `chapters`. */
  predicate WantedUrl(entries: seq<TocEntry>, chapters: seq<Chapter>, u: string) {
    exists e :: e in entries && e.isUnlocked && e.url == u && !HasIndex(chapters, e.index)
  }

  /** An event the pass emits: progress carries the total of the whole table of contents,
      a checkpoint a sorted book that still holds every chapter of `book0`. */
  predicate EventOk(p: Pass, book0: Book, ev: Event) {
    (ev.Progress? ==> ev.total == p.total && ev.done >= 1)
    && (ev.Checkpoint? ==> Sorting.SortedBy(ev.book.chapters, ChapterKey) && multiset(book0.chapters) <= multiset(ev.book.chapters))
  }

  /** A URL wanted by the rest of the entries, against a book that only gained chapters,
      was wanted by all of them against the earlier book. */
  lemma WantedLater(entries: seq<TocEntry>, a: seq<Chapter>, b: seq<Chapter>, u: string)
    requires entries != [] && multiset(a) <= multiset(b) && WantedUrl(entries[1..], b, u)
    ensures WantedUrl(entries, a, u)
  {
    var e :| e in entries[1..] && e.isUnlocked && e.url == u && !HasIndex(b, e.index);
    if HasIndex(a, e.index) {
      HasIndexKept(a, b, e.index);
    }
    assert e in entries;
  }

  /** The pass only adds events, only adds chapters, keeps the other fields of the book, and
      keeps a sorted book sorted. */
  lemma {:induction false} CrawlGrows(p: Pass, entries: seq<TocEntry>, st: Crawl)
    requires st.Going?
    ensures var r := CrawlFrom(p, entries, st);
      Extends(r.trace, st.trace)
      && (r.Going? ==> r.book == st.book.(chapters := r.book.chapters)
                       && multiset(st.book.chapters) <= multiset(r.book.chapters))
      && (r.Going? && Sorting.SortedBy(st.book.chapters, ChapterKey) ==> Sorting.SortedBy(r.book.chapters, ChapterKey))
    decreases |entries|
  {
    if entries != [] {
      var s1 := Step(p, entries[0], st.book, st.done, st.trace);
      StepOutcome(p, entries[0], st.book, st.done, st.trace);
      StepFetches(p, entries[0], st.book, st.done, st.trace);
      if s1.Going? {
        CrawlGrows(p, entries[1..], s1);
        var r := CrawlFrom(p, entries[1..], s1);
        assert r.trace[..|st.trace|] == r.trace[..|s1.trace|][..|st.trace|];
      }
    }
  }

  /** Every request the pass makes is for an unlocked entry whose index was not in the
      book it started from. */
  lemma {:induction false} CrawlFetches(p: Pass, entries: seq<TocEntry>, st: Crawl)
    requires st.Going?
    ensures var r := CrawlFrom(p, entries, st);
      Fetches(st.trace) <= Fetches(r.trace)
      && forall k :: |Fetches(st.trace)| <= k < |Fetches(r.trace)| ==> WantedUrl(entries, st.book.chapters, Fetches(r.trace)[k])
    decreases |entries|
  {
    if entries != [] {
      var e := entries[0];
      var s1 := Step(p, e, st.book, st.done, st.trace);
      StepFetches(p, e, st.book, st.done, st.trace);
      StepOutcome(p, e, st.book, st.done, st.trace);
      if s1.Going? {
        CrawlFetches(p, entries[1..], s1);
        FetchesCarry(entries, st.book.chapters, s1.book.chapters, Fetches(st.trace), Fetches(s1.trace),
                     Fetches(CrawlFrom(p, entries[1..], s1).trace));
      }
    }
  }

  /** The induction step of `CrawlFetches`, on the requests alone: `f0` before the first
      entry, `f1` after it, `f` at the end of the pass. */
  lemma FetchesCarry(entries: seq<TocEntry>, a: seq<Chapter>, b: seq<Chapter>, f0: seq<string>, f1: seq<string>, f: seq<string>)
    requires entries != [] && multiset(a) <= multiset(b)
    requires f1 == f0 + (if entries[0].isUnlocked && !HasIndex(a, entries[0].index) then [entries[0].url] else [])
    requires f1 <= f && forall k :: |f1| <= k < |f| ==> WantedUrl(entries[1..], b, f[k])
    ensures f0 <= f && forall k :: |f0| <= k < |f| ==> WantedUrl(entries, a, f[k])
  {
    forall k | |f0| <= k < |f|
      ensures WantedUrl(entries, a, f[k])
    {
      if k >= |f1| {
        WantedLater(entries, a, b, f[k]);
      } else {
        assert f[k] == f1[k] == entries[0].url;
        assert entries[0] in entries;
      }
    }
  }

  /** Handling a page emits only checkpoints, each with a sorted book that keeps the
      chapters it started with. */
  lemma OutcomeEvents(p: Pass, book: Book, done: nat, pre: seq<Event>, r: Crawl)
    requires PageOutcome(p.options, book, done, pre, r)
    ensures Extends(r.trace, pre) && forall k :: |pre| <= k < |r.trace| ==> EventOk(p, book, r.trace[k])
  {
    assert r.trace[..|pre|] == pre;
    if r.Going? && r.trace != pre {
      forall k | |pre| <= k < |r.trace| ensures EventOk(p, book, r.trace[k]) {
        assert r.trace[k] == CheckpointEvent(p.options, r.book)[k - |pre|];
      }
    }
  }

  /** The events of one step are well formed. */
  lemma StepEvents(p: Pass, e: TocEntry, book: Book, done: nat, trace: seq<Event>)
    ensures var r := Step(p, e, book, done, trace);
      Extends(r.trace, trace) && forall k :: |trace| <= k < |r.trace| ==> EventOk(p, book, r.trace[k])
  {
    var r := Step(p, e, book, done, trace);
    var prefix := StepPrefix(p, e, book, done);
    var pre := trace + prefix;
    StepOutcome(p, e, book, done, trace);
    OutcomeEvents(p, book, Counted(e, book, done), pre, r);
    assert pre[..|trace|] == trace;
    forall k | |trace| <= k < |r.trace| ensures EventOk(p, book, r.trace[k]) {
      if k < |pre| {
        assert r.trace[k] == prefix[k - |trace|];
      }
    }
  }

  /** Every progress event of the pass carries the total, and every checkpoint a sorted
      book that keeps all the chapters the pass started with. */
  lemma {:induction false} CrawlEvents(p: Pass, entries: seq<TocEntry>, st: Crawl)
    requires st.Going?
    ensures var r := CrawlFrom(p, entries, st);
      Extends(r.trace, st.trace) && forall k :: |st.trace| <= k < |r.trace| ==> EventOk(p, st.book, r.trace[k])
    decreases |entries|
  {
    if entries != [] {
      var s1 := Step(p, entries[0], st.book, st.done, st.trace);
      StepEvents(p, entries[0], st.book, st.done, st.trace);
      StepOutcome(p, entries[0], st.book, st.done, st.trace);
      if s1.Going? {
        CrawlEvents(p, entries[1..], s1);
        var r := CrawlFrom(p, entries[1..], s1);
        assert r.trace[..|st.trace|] == r.trace[..|s1.trace|][..|st.trace|];
        forall k | |st.trace| <= k < |r.trace| ensures EventOk(p, st.book, r.trace[k]) {
          if k < |s1.trace| {
            assert r.trace[k] == s1.trace[k];
          }
        }
      }
    }
  }

  // ---------------------------------------------------------------- what a scrape does

  /** Before the table of contents: an invalid URL makes no request; a failed story page
      ends the scrape after that one request. */
  lemma ScrapeEarlyErrors(web: RoyalRoadWeb, url: string, parsed: Result<Url, string>, options: ScrapeOptions)
    ensures EnsureFictionUrl(url, parsed).Err? ==>
      ScrapeSpec(web, url, parsed, options) == Scrape(Err(EnsureFictionUrl(url, parsed).error), [])
    ensures EnsureFictionUrl(url, parsed).Ok? ==>
      var fictionUrl := EnsureFictionUrl(url, parsed).value;
      var story := Fetched(StoryResponse(web, fictionUrl), fictionUrl, STORY_PAGE_CONTEXT);
      story.Err? ==> ScrapeSpec(web, url, parsed, options) == Scrape(Err(story.error), [Fetch(fictionUrl)])
  {
  }

  /** Once the story page and its table of contents are read, the rest of the scrape starts
      from the one request made so far. */
  lemma ScrapeReachesToc(web: RoyalRoadWeb, url: string, parsed: Result<Url, string>, options: ScrapeOptions,
                         fictionUrl: string, page: StoryPage, toc: seq<TocEntry>)
    requires EnsureFictionUrl(url, parsed) == Ok(fictionUrl)
    requires Fetched(StoryResponse(web, fictionUrl), fictionUrl, STORY_PAGE_CONTEXT) == Ok(page)
    requires TocFromHtml(page.html, web.parsers) == Ok(toc)
    ensures ScrapeSpec(web, url, parsed, options) == AfterToc(web, options, fictionUrl, page, toc, [Fetch(fictionUrl)])
  {
  }

  /** The pass a scrape runs. */
  function PassOf(web: RoyalRoadWeb, options: ScrapeOptions, toc: seq<TocEntry>): Pass {
    Pass(options, |toc| % Model.U32_LIMIT, LockedCount(toc), web)
  }

  /** The Fail policy with a locked entry in the table of contents. */
  predicate FailsOnLocked(options: ScrapeOptions, toc: seq<TocEntry>) {
    LockedCount(toc) > 0 && LockedOf(options) == LockedChapterBehavior.Fail
  }

  lemma AfterTocCrawls(web: RoyalRoadWeb, options: ScrapeOptions, fictionUrl: string, page: StoryPage,
                       toc: seq<TocEntry>, trace: seq<Event>, book: Book)
    requires StartBook(options, page, fictionUrl) == Ok(book)
    requires !FailsOnLocked(options, toc) && !options.tocOnly
    ensures AfterToc(web, options, fictionUrl, page, toc, trace)
         == Finish(CrawlFrom(PassOf(web, options, toc), InRangeOnly(toc, options.chapterRange), Going(book, 0, trace)))
  {
  }

  /** With a locked entry and the Fail policy the scrape fails with the locked count before
      any chapter is requested. */
  lemma LockedFailsFast(web: RoyalRoadWeb, options: ScrapeOptions, fictionUrl: string, page: StoryPage,
                        toc: seq<TocEntry>, trace: seq<Event>)
    requires LockedOf(options) == LockedChapterBehavior.Fail && exists e :: e in toc && !e.isUnlocked
    ensures LockedCount(toc) > 0
    ensures AfterToc(web, options, fictionUrl, page, toc, trace) == Scrape(Err(LockedChaptersNotAllowed(LockedCount(toc))), trace)
  {
    LockedCountZero(toc);
  }

  /** Toc-only mode requests nothing, reports neither progress nor checkpoints, and returns
      a book sorted by index that still holds the chapters it started with. */
  lemma TocOnlyFetchesNoChapter(web: RoyalRoadWeb, options: ScrapeOptions, fictionUrl: string, page: StoryPage,
                                toc: seq<TocEntry>, trace: seq<Event>, book: Book)
    requires StartBook(options, page, fictionUrl) == Ok(book)
    requires options.tocOnly && !FailsOnLocked(options, toc)
    ensures var s := AfterToc(web, options, fictionUrl, page, toc, trace);
      s.trace == trace && s.result.Ok?
      && Sorting.SortedBy(s.result.value.chapters, ChapterKey)
      && multiset(book.chapters) <= multiset(s.result.value.chapters)
  {
    var cs := TocOnlyFrom(LockedOf(options), InRangeOnly(toc, options.chapterRange), book.chapters);
    TocOnlyExtends(LockedOf(options), InRangeOnly(toc, options.chapterRange), book.chapters);
    Sorting.SortSorts(cs, ChapterKey);
    Sorting.SortPermutes(cs, ChapterKey);
  }

  /** Toc-only mode only appends to the chapters it starts with. */
  lemma {:induction false} TocOnlyExtends(lb: LockedChapterBehavior, entries: seq<TocEntry>, chapters: seq<Chapter>)
    ensures multiset(chapters) <= multiset(TocOnlyFrom(lb, entries, chapters))
    decreases |entries|
  {
    if entries != [] {
      var next := TocOnlyStep(lb, entries[0], chapters);
      TocOnlyExtends(lb, entries[1..], next);
      assert multiset(chapters) <= multiset(next);
    }
  }

  /** `u` is the URL of an unlocked entry of `toc` in the range whose index is not among
      `chapters`. */
  predicate RequestedEntry(toc: seq<TocEntry>, range: Option<(U32, U32)>, chapters: seq<Chapter>, u: string) {
    exists e :: e in toc && e.isUnlocked && InRange(range, e.index) && e.url == u && !HasIndex(chapters, e.index)
  }

  /** Every chapter request is for an unlocked entry in the chapter range whose index was
      not in the starting (resumed) book. */
  lemma FetchesOnlyWanted(web: RoyalRoadWeb, options: ScrapeOptions, fictionUrl: string, page: StoryPage,
                          toc: seq<TocEntry>, trace: seq<Event>, book: Book)
    requires StartBook(options, page, fictionUrl) == Ok(book)
    ensures var f := Fetches(AfterToc(web, options, fictionUrl, page, toc, trace).trace);
      Fetches(trace) <= f
      && forall k :: |Fetches(trace)| <= k < |f| ==> RequestedEntry(toc, options.chapterRange, book.chapters, f[k])
  {
    if !FailsOnLocked(options, toc) && !options.tocOnly {
      var wanted := InRangeOnly(toc, options.chapterRange);
      var f := Fetches(AfterToc(web, options, fictionUrl, page, toc, trace).trace);
      AfterTocCrawls(web, options, fictionUrl, page, toc, trace, book);
      CrawlFetches(PassOf(web, options, toc), wanted, Going(book, 0, trace));
      InRangeOnlyKeeps(toc, options.chapterRange);
      forall k | |Fetches(trace)| <= k < |f|
        ensures RequestedEntry(toc, options.chapterRange, book.chapters, f[k])
      {
        assert WantedUrl(wanted, book.chapters, f[k]);
        var e :| e in wanted && e.isUnlocked && e.url == f[k] && !HasIndex(book.chapters, e.index);
        assert e in toc && InRange(options.chapterRange, e.index);
      }
    } else {
      assert AfterToc(web, options, fictionUrl, page, toc, trace).trace == trace;
    }
  }

  /** Every progress report carries the length of the whole table of contents, before the
      range filter, as a `u32`; every checkpoint receives a book sorted by index that holds
      every chapter the scrape started with. */
  lemma ScrapeEvents(web: RoyalRoadWeb, options: ScrapeOptions, fictionUrl: string, page: StoryPage,
                     toc: seq<TocEntry>, trace: seq<Event>, book: Book)
    requires StartBook(options, page, fictionUrl) == Ok(book)
    ensures var t := AfterToc(web, options, fictionUrl, page, toc, trace).trace;
      Extends(t, trace)
      && forall k :: |trace| <= k < |t| ==> EventOk(PassOf(web, options, toc), book, t[k])
  {
    if !FailsOnLocked(options, toc) && !options.tocOnly {
      AfterTocCrawls(web, options, fictionUrl, page, toc, trace, book);
      CrawlEvents(PassOf(web, options, toc), InRangeOnly(toc, options.chapterRange), Going(book, 0, trace));
    } else {
      assert trace[..|trace|] == trace;
    }
  }

  /** A successful crawl has at least one chapter, keeps every chapter of the resumed book
      and the book's other fields, and is sorted by index when the resumed book was. */
  lemma ScrapeKeepsResumed(web: RoyalRoadWeb, options: ScrapeOptions, fictionUrl: string, page: StoryPage,
                           toc: seq<TocEntry>, trace: seq<Event>, book: Book)
    requires StartBook(options, page, fictionUrl) == Ok(book)
    requires !options.tocOnly && AfterToc(web, options, fictionUrl, page, toc, trace).result.Ok?
    ensures var b := AfterToc(web, options, fictionUrl, page, toc, trace).result.value;
      b.chapters != [] && b == book.(chapters := b.chapters) && multiset(book.chapters) <= multiset(b.chapters)
      && (Sorting.SortedBy(book.chapters, ChapterKey) ==> Sorting.SortedBy(b.chapters, ChapterKey))
  {
    AfterTocCrawls(web, options, fictionUrl, page, toc, trace, book);
    CrawlGrows(PassOf(web, options, toc), InRangeOnly(toc, options.chapterRange), Going(book, 0, trace));
  }

  /** A new book starts with no chapters and the fiction URL as its source. */
  lemma FreshBook(options: ScrapeOptions, page: StoryPage, fictionUrl: string)
    requires options.initialBook.None? && StartBook(options, page, fictionUrl).Ok?
    ensures StartBook(options, page, fictionUrl).value.chapters == []
    ensures StartBook(options, page, fictionUrl).value.sourceUrl == Some(fictionUrl)
    ensures ParseMetadata(page.ld, page.dom).Ok?
  {
  }
}

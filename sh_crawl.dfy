/** The Scribble Hub `scrape_book`: the series page, the whole table of contents (the
    "Show All" AJAX answer, else the paginated TOC pages), the range filter, then one pass
    over the entries that fetches, parses and appends chapters. The network is seen through
    the responses it gives; the progress and checkpoint callbacks through the events they
    receive. The TOC pages can link to each other without end, so reading them takes a
    `fuel` bound on the number of further pages; `None` means the bound was reached. */
module ScribbleHubCrawl {
  import opened Wrappers
  import opened Text
  import opened Model
  import opened Scraper
  import opened RoyalRoadPages
  import opened ScribbleHubToc
  import opened ScribbleHubPages
  import Sorting

  /** The series page as the adapter reads it: the HTML text the JSON-LD scripts are found
      in, the DOM elements of the metadata fallback, and its table-of-contents list with
      its pagination links. */
  datatype SeriesPage = SeriesPage(html: string, dom: SeriesDom, toc: TocPage)

  /** What the adapter sees of the site: each page as requesting it and reading the body
      give it (the AJAX answer keyed by the series id it is asked for), `Url::join`, and the
      JSON-LD parser. */
  datatype ScribbleHubWeb = ScribbleHubWeb(
    seriesPage: string -> Response<SeriesPage>,
    ajaxToc: string -> Response<TocPage>,
    tocPage: string -> Response<TocPage>,
    chapterPage: string -> Response<ShChapterPage>,
    join: (string, string) -> Result<string, string>,
    parseLd: string -> Option<LdObject>)

  const AJAX_URL: string := "https://www.scribblehub.com/wp-admin/admin-ajax.php"
  const TOC_AJAX_CONTEXT: string := "TOC AJAX"
  const TOC_PAGE_CONTEXT: string := "TOC page"

  // ---------------------------------------------------------------- the table of contents

  /** A table-of-contents fetch: the entries or the error, and the requests made so far. */
  datatype TocFetch = TocFetch(result: Result<seq<TocItem>, ScraperError>, trace: seq<Event>)

  /** `fetch_full_toc_via_ajax` once the series id is known: the "Show All" POST with
      `pagenum=-1`, its `check_response`, then the entries of the answer, merged. */
  function AjaxEntries(web: ScribbleHubWeb, id: string): Result<seq<TocItem>, ScraperError> {
    match Fetched(web.ajaxToc(id), AJAX_URL, TOC_AJAX_CONTEXT)
    case Err(e) => Err(e)
    case Ok(page) =>
      match TocItems(page, web.join)
      case Err(e) => Err(e)
      case Ok(items) => Ok(Merged(items))
  }

  /** What one TOC page gives: its entries and the link to the page after it. */
  datatype PageRead = PageRead(items: seq<TocItem>, next: Option<string>)

  /** One turn of the page loop: the request and `check_response` with the "TOC page"
      context, the page's entries, and `next_toc_page_url` with this page as the current
      one. */
  function ReadTocPage(web: ScribbleHubWeb, seriesUrl: string, url: string): Result<PageRead, ScraperError> {
    match Fetched(web.tocPage(url), url, TOC_PAGE_CONTEXT)
    case Err(e) => Err(e)
    case Ok(page) =>
      match TocItems(page, web.join)
      case Err(e) => Err(e)
      case Ok(items) => Ok(PageRead(items, NextTocPageUrl(page.pagination, web.join, seriesUrl, Some(url))))
  }

  function PageReader(web: ScribbleHubWeb, seriesUrl: string): string -> Result<PageRead, ScraperError> {
    url => ReadTocPage(web, seriesUrl, url)
  }

  /** The `while let` over next-page links from `current`, with `acc` the entries read so
      far and `read` the turn of the loop. At most `fuel` pages are requested; `None` when
      another one is still due. */
  function MorePages(read: string -> Result<PageRead, ScraperError>, current: Option<string>, acc: seq<TocItem>,
                     trace: seq<Event>, fuel: nat): Option<TocFetch>
    decreases fuel
  {
    if current.None? then Some(TocFetch(Ok(acc), trace))
    else if fuel == 0 then None
    else
      var trace' := trace + [Fetch(current.value)];
      match read(current.value)
      case Err(e) => Some(TocFetch(Err(e), trace'))
      case Ok(r) => MorePages(read, r.next, acc + r.items, trace', fuel - 1)
  }

  /** The first next-page link, searched on the series page itself. */
  function FirstNext(web: ScribbleHubWeb, seriesUrl: string, first: TocPage): Option<string> {
    NextTocPageUrl(first.pagination, web.join, seriesUrl, Some(seriesUrl))
  }

  /** The paginated fallback: the series page's entries, then those of the pages after it,
      merged; nothing left after the merge is `EmptyChapterList`. */
  function Paginated(web: ScribbleHubWeb, seriesUrl: string, first: TocPage, trace: seq<Event>, fuel: nat): Option<TocFetch> {
    match TocItems(first, web.join)
    case Err(e) => Some(TocFetch(Err(e), trace))
    case Ok(items) =>
      var pages := MorePages(PageReader(web, seriesUrl), FirstNext(web, seriesUrl, first), items, trace, fuel);
      if pages.None? || pages.value.result.Err? then pages
      else
        var merged := Merged(pages.value.result.value);
        Some(TocFetch(if merged == [] then Err(EmptyChapterList) else Ok(merged), pages.value.trace))
  }

  /** `fetch_full_toc`: when the URL has a series id, the AJAX answer first; its error ends
      the fetch and a non-empty list is the table of contents. Otherwise the pages.
      `parsed` is what `Url::parse` returned for the series URL. */
  function FullToc(web: ScribbleHubWeb, seriesUrl: string, parsed: Result<Url, string>, first: TocPage,
                   trace: seq<Event>, fuel: nat): Option<TocFetch>
  {
    var id := ExtractSeriesId(parsed);
    if id.None? then Paginated(web, seriesUrl, first, trace, fuel)
    else
      var trace' := trace + [Post(AJAX_URL, id.value)];
      var ajax := AjaxEntries(web, id.value);
      if ajax.Err? || ajax.value != [] then Some(TocFetch(ajax, trace'))
      else Paginated(web, seriesUrl, first, trace', fuel)
  }

  /** `fetch_full_toc`: the AJAX answer, then the pages. */
  method FetchFullToc(web: ScribbleHubWeb, seriesUrl: string, parsed: Result<Url, string>, first: TocPage,
                      trace0: seq<Event>, fuel: nat)
    returns (fetched: Option<TocFetch>)
    ensures fetched == FullToc(web, seriesUrl, parsed, first, trace0, fuel)
  {
    var trace := trace0;
    var id := ExtractSeriesId(parsed);
    if id.Some? {
      trace := trace + [Post(AJAX_URL, id.value)];
      var ajax := AjaxEntries(web, id.value);
      if ajax.Err? || ajax.value != [] {
        return Some(TocFetch(ajax, trace));
      }
    }
    fetched := PaginatedToc(web, seriesUrl, first, trace, fuel);
  }

  /** The paginated part of `fetch_full_toc`: the series page's entries, the loop over the
      following pages, the merge. */
  method PaginatedToc(web: ScribbleHubWeb, seriesUrl: string, first: TocPage, trace: seq<Event>, fuel: nat)
    returns (fetched: Option<TocFetch>)
    ensures fetched == Paginated(web, seriesUrl, first, trace, fuel)
  {
    var firstItems := ParseTocPage(first, web.join);
    if firstItems.Err? {
      return Some(TocFetch(firstItems, trace));
    }
    var pages := FollowPages(PageReader(web, seriesUrl), FirstNext(web, seriesUrl, first), firstItems.value, trace, fuel);
    if pages.None? || pages.value.result.Err? {
      return pages;
    }
    var merged := MergeTocEntries(pages.value.result.value);
    if merged == [] {
      return Some(TocFetch(Err(EmptyChapterList), pages.value.trace));
    }
    return Some(TocFetch(Ok(merged), pages.value.trace));
  }

  /** The `while let` loop over the next-page links, with `read` its turn. */
  method FollowPages(read: string -> Result<PageRead, ScraperError>, start: Option<string>, acc: seq<TocItem>,
                     trace0: seq<Event>, fuel: nat)
    returns (fetched: Option<TocFetch>)
    ensures fetched == MorePages(read, start, acc, trace0, fuel)
  {
    var current, all, trace, left := start, acc, trace0, fuel;
    while current.Some?
      invariant MorePages(read, current, all, trace, left) == MorePages(read, start, acc, trace0, fuel)
      decreases left
    {
      if left == 0 {
        return None;
      }
      var r := read(current.value);
      trace := trace + [Fetch(current.value)];
      if r.Err? {
        return Some(TocFetch(Err(r.error), trace));
      }
      all := all + r.value.items;
      current := r.value.next;
      left := left - 1;
    }
    return Some(TocFetch(Ok(all), trace));
  }

  // ---------------------------------------------------------------- before the pass

  /** `toc.retain(|(index, _, _)| from <= index <= to)` when a range is given; the index of
      an entry is its `order`. */
  function WantedItems(toc: seq<TocItem>, range: Option<(U32, U32)>): (r: seq<TocItem>)
    ensures |r| <= |toc|
  {
    if toc == [] then []
    else (if InRange(range, toc[0].order) then [toc[0]] else []) + WantedItems(toc[1..], range)
  }

  /** The filter keeps exactly the entries in range, in their order. */
  lemma {:induction false} WantedItemsKeeps(toc: seq<TocItem>, range: Option<(U32, U32)>)
    ensures forall e :: e in WantedItems(toc, range) <==> e in toc && InRange(range, e.order)
    ensures range.None? ==> WantedItems(toc, range) == toc
    decreases |toc|
  {
    if toc != [] {
      WantedItemsKeeps(toc[1..], range);
      var head := if InRange(range, toc[0].order) then [toc[0]] else [];
      assert WantedItems(toc, range) == head + WantedItems(toc[1..], range);
      forall e ensures e in WantedItems(toc, range) <==> e in toc && InRange(range, e.order) {
        assert e in toc <==> e == toc[0] || e in toc[1..];
      }
      if range.None? {
        assert toc == [toc[0]] + toc[1..];
      }
    }
  }

  /** The book the pass starts from: the resumed one, or a new one from the series
      metadata with no chapters and the series URL as its source. */
  function StartBook(options: ScrapeOptions, page: SeriesPage, seriesUrl: string,
                     parseLd: string -> Option<LdObject>): Result<Book, ScraperError>
  {
    if options.initialBook.Some? then Ok(options.initialBook.value)
    else match ParseSeriesMetadata(page.html, parseLd, page.dom)
      case Err(e) => Err(e)
      case Ok(m) => Ok(Book(m.title, m.author, m.description, m.coverUrl, [], Some(seriesUrl)))
  }

  // ---------------------------------------------------------------- the crawl pass

  /** What stays fixed during the pass: the options, the total reported to the progress
      callback, and the site. */
  datatype Pass = Pass(options: ScrapeOptions, total: nat, web: ScribbleHubWeb)

  /** Push a chapter, re-sort by index, count it, report the count and the total to the
      progress callback and hand the whole book to the checkpoint. */
  function Appended(p: Pass, book: Book, c: Chapter, done: nat, trace: seq<Event>): Crawl {
    var b := book.(chapters := SortChapters(book.chapters + [c]));
    Going(b, done + 1, trace + ProgressEvent(p.options, done + 1, p.total) + CheckpointEvent(p.options, b))
  }

  /** A fetched chapter page: append it, or apply the empty-chapter policy to an empty body
      or a page without content. The empty-body arm mirrors the source although
      `ParseShChapterPage` never returns an empty body. */
  function PageStep(p: Pass, e: TocItem, page: ShChapterPage, book: Book, done: nat, trace: seq<Event>): Crawl {
    var parsed := ParseShChapterPage(page, e.order, e.url);
    if parsed.Ok? then
      var (title, body) := parsed.value;
      if body == [] then
        match EmptyOf(p.options)
        case Skip => Going(book, done, trace)
        case Placeholder => Appended(p, book, Chapter(title + " (no content)", e.order, NO_CONTENT_BODY), done, trace)
        case Fail => Stopped(EmptyChapter(e.order, e.url), trace)
      else Appended(p, book, Chapter(title, e.order, body), done, trace)
    else if parsed.error.ParseChapter? then
      match EmptyOf(p.options)
      case Skip => Going(book, done, trace)
      case Placeholder => Appended(p, book, UnparsedPlaceholder(parsed.error.index), done, trace)
      case Fail => Stopped(parsed.error, trace)
    else Stopped(parsed.error, trace)
  }

  /** One entry of the pass. An index already in the book is passed over; otherwise the
      page is requested, and a transport error, a non-success status or a failed body read
      skips the chapter without counting it. */
  function Step(p: Pass, e: TocItem, book: Book, done: nat, trace: seq<Event>): Crawl {
    if HasIndex(book.chapters, e.order) then Going(book, done, trace)
    else
      var trace' := trace + [Fetch(e.url)];
      var response := p.web.chapterPage(e.url);
      if response.TransportError? || !IsSuccess(response.status) || response.body.Err? then Going(book, done, trace')
      else PageStep(p, e, response.body.value, book, done, trace')
  }

  /** The pass over `entries` from `st`. */
  function CrawlFrom(p: Pass, entries: seq<TocItem>, st: Crawl): Crawl
    decreases |entries|
  {
    if entries == [] || st.Stopped? then st
    else CrawlFrom(p, entries[1..], Step(p, entries[0], st.book, st.done, st.trace))
  }

  // ---------------------------------------------------------------- toc-only mode

  /** One entry in toc-only mode: a chapter with an empty body, unless its index is in the
      book already; nothing is fetched. */
  function TocOnlyStep(e: TocItem, chapters: seq<Chapter>): seq<Chapter> {
    if HasIndex(chapters, e.order) then chapters else chapters + [Chapter(e.title, e.order, [])]
  }

  function TocOnlyFrom(entries: seq<TocItem>, chapters: seq<Chapter>): seq<Chapter>
    decreases |entries|
  {
    if entries == [] then chapters else TocOnlyFrom(entries[1..], TocOnlyStep(entries[0], chapters))
  }

  // ---------------------------------------------------------------- the whole scrape

  /** Everything after the table of contents was read. The total is the length of the
      whole table of contents as a `u32`, taken before the range filter. Toc-only mode
      returns the book even with no chapters. */
  function AfterToc(web: ScribbleHubWeb, options: ScrapeOptions, seriesUrl: string, page: SeriesPage,
                    toc: seq<TocItem>, trace: seq<Event>): Scrape
  {
    var wanted := WantedItems(toc, options.chapterRange);
    match StartBook(options, page, seriesUrl, web.parseLd)
    case Err(e) => Scrape(Err(e), trace)
    case Ok(book) =>
      if options.tocOnly then Scrape(Ok(book.(chapters := SortChapters(TocOnlyFrom(wanted, book.chapters)))), trace)
      else Finish(CrawlFrom(Pass(options, |toc| % Model.U32_LIMIT, web), wanted, Going(book, 0, trace)))
  }

  /** `scrape_book` for Scribble Hub, reading at most `fuel` TOC pages after the series
      page. `parsed` is what `Url::parse(url)` returned. */
  function ScrapeSpec(web: ScribbleHubWeb, url: string, parsed: Result<Url, string>, options: ScrapeOptions,
                      fuel: nat): Option<Scrape>
  {
    match EnsureSeriesUrl(url, parsed)
    case Err(e) => Some(Scrape(Err(e), []))
    case Ok(seriesUrl) =>
      var trace := [Fetch(seriesUrl)];
      match Fetched(web.seriesPage(seriesUrl), seriesUrl, STORY_PAGE_CONTEXT)
      case Err(e) => Some(Scrape(Err(e), trace))
      case Ok(page) =>
        match FullToc(web, seriesUrl, parsed, page.toc, trace, fuel)
        case None => None
        case Some(TocFetch(Err(e), t)) => Some(Scrape(Err(e), t))
        case Some(TocFetch(Ok(toc), t)) => Some(AfterToc(web, options, seriesUrl, page, toc, t))
  }

  // ---------------------------------------------------------------- the methods

  lemma CrawlUnfold(p: Pass, entries: seq<TocItem>, i: nat, book: Book, done: nat, trace: seq<Event>)
    requires i < |entries|
    ensures CrawlFrom(p, entries[i..], Going(book, done, trace))
         == CrawlFrom(p, entries[i + 1..], Step(p, entries[i], book, done, trace))
  {
    assert entries[i..][1..] == entries[i + 1..];
  }

  lemma CrawlStopped(p: Pass, entries: seq<TocItem>, e: ScraperError, trace: seq<Event>)
    ensures CrawlFrom(p, entries, Stopped(e, trace)) == Stopped(e, trace)
  {
  }

  lemma TocOnlyUnfold(entries: seq<TocItem>, i: nat, chapters: seq<Chapter>)
    requires i < |entries|
    ensures TocOnlyFrom(entries[i..], chapters) == TocOnlyFrom(entries[i + 1..], TocOnlyStep(entries[i], chapters))
  {
    assert entries[i..][1..] == entries[i + 1..];
  }

  /** The chapters with empty bodies that toc-only mode lists. */
  method TocOnlyChapters(wanted: seq<TocItem>, start: seq<Chapter>) returns (cs: seq<Chapter>)
    ensures cs == TocOnlyFrom(wanted, start)
  {
    cs := start;
    var i := 0;
    while i < |wanted|
      invariant i <= |wanted|
      invariant TocOnlyFrom(wanted[i..], cs) == TocOnlyFrom(wanted, start)
    {
      var e := wanted[i];
      TocOnlyUnfold(wanted, i, cs);
      if !HasIndex(cs, e.order) {
        cs := cs + [Chapter(e.title, e.order, [])];
      }
      i := i + 1;
    }
    assert wanted[i..] == [];
  }

  /** `scrape_book`, with the TOC page loop and the crawl loop; `None` when more than
      `fuel` TOC pages follow the series page. */
  method ScrapeBook(web: ScribbleHubWeb, url: string, parsed: Result<Url, string>, options: ScrapeOptions, fuel: nat)
    returns (outcome: Option<Scrape>)
    ensures outcome == ScrapeSpec(web, url, parsed, options, fuel)
  {
    var checked := EnsureSeriesUrl(url, parsed);
    if checked.Err? {
      return Some(Scrape(Err(checked.error), []));
    }
    var seriesUrl := checked.value;
    var trace := [Fetch(seriesUrl)];
    var series := Fetched(web.seriesPage(seriesUrl), seriesUrl, STORY_PAGE_CONTEXT);
    if series.Err? {
      return Some(Scrape(Err(series.error), trace));
    }
    var page := series.value;
    var fetched := FetchFullToc(web, seriesUrl, parsed, page.toc, trace, fuel);
    if fetched.None? {
      return None;
    }
    if fetched.value.result.Err? {
      return Some(Scrape(Err(fetched.value.result.error), fetched.value.trace));
    }
    var result, trace' := CrawlToc(web, options, seriesUrl, page, fetched.value.result.value, fetched.value.trace);
    return Some(Scrape(result, trace'));
  }

  /** The part of `scrape_book` after the table of contents was read. */
  method CrawlToc(web: ScribbleHubWeb, options: ScrapeOptions, seriesUrl: string, page: SeriesPage,
                  toc: seq<TocItem>, trace0: seq<Event>)
    returns (result: Result<Book, ScraperError>, trace: seq<Event>)
    ensures Scrape(result, trace) == AfterToc(web, options, seriesUrl, page, toc, trace0)
  {
    trace := trace0;
    var total := |toc| % Model.U32_LIMIT;
    var wanted := WantedItems(toc, options.chapterRange);
    var start := StartBook(options, page, seriesUrl, web.parseLd);
    if start.Err? {
      return Err(start.error), trace;
    }
    var book := start.value;
    if options.tocOnly {
      var cs := TocOnlyChapters(wanted, book.chapters);
      return Ok(book.(chapters := SortChapters(cs))), trace;
    }
    var p := Pass(options, total, web);
    var done := 0;
    var i := 0;
    ghost var init := Going(book, 0, trace);
    while i < |wanted|
      invariant i <= |wanted|
      invariant CrawlFrom(p, wanted, init) == CrawlFrom(p, wanted[i..], Going(book, done, trace))
    {
      CrawlUnfold(p, wanted, i, book, done, trace);
      var stop;
      book, done, trace, stop := VisitEntry(p, wanted[i], book, done, trace);
      if stop.Some? {
        CrawlStopped(p, wanted[i + 1..], stop.value, trace);
        return Err(stop.value), trace;
      }
      i := i + 1;
    }
    assert wanted[i..] == [];
    if book.chapters == [] {
      return Err(NoChaptersRetrieved), trace;
    }
    return Ok(book), trace;
  }

  /** One turn of the crawl loop. */
  method VisitEntry(p: Pass, e: TocItem, book0: Book, done0: nat, trace0: seq<Event>)
    returns (book: Book, done: nat, trace: seq<Event>, stop: Option<ScraperError>)
    ensures stop.None? ==> Step(p, e, book0, done0, trace0) == Going(book, done, trace)
    ensures stop.Some? ==> Step(p, e, book0, done0, trace0) == Stopped(stop.value, trace)
  {
    book, done, trace, stop := book0, done0, trace0, None;
    if HasIndex(book.chapters, e.order) {
      return;
    }
    trace := trace + [Fetch(e.url)];
    var response := p.web.chapterPage(e.url);
    if response.Http? && IsSuccess(response.status) && response.body.Ok? {
      book, done, trace, stop := VisitPage(p, e, response.body.value, book, done, trace);
    }
  }

  /** The handling of one fetched chapter page inside the crawl loop. */
  method VisitPage(p: Pass, e: TocItem, page: ShChapterPage, book0: Book, done0: nat, trace0: seq<Event>)
    returns (book: Book, done: nat, trace: seq<Event>, stop: Option<ScraperError>)
    ensures stop.None? ==> PageStep(p, e, page, book0, done0, trace0) == Going(book, done, trace)
    ensures stop.Some? ==> PageStep(p, e, page, book0, done0, trace0) == Stopped(stop.value, trace)
  {
    book, done, trace, stop := book0, done0, trace0, None;
    var parsed := ParseShChapterPage(page, e.order, e.url);
    var push: Option<Chapter> := None;
    match parsed {
      case Ok((title, body)) =>
        if body == [] {
          match EmptyOf(p.options) {
            case Skip =>
            case Placeholder =>
              push := Some(Chapter(title + " (no content)", e.order, NO_CONTENT_BODY));
            case Fail =>
              stop := Some(EmptyChapter(e.order, e.url));
          }
        } else {
          push := Some(Chapter(title, e.order, body));
        }
      case Err(err) =>
        if err.ParseChapter? {
          match EmptyOf(p.options) {
            case Skip =>
            case Placeholder =>
              push := Some(UnparsedPlaceholder(err.index));
            case Fail =>
              stop := Some(err);
          }
        } else {
          stop := Some(err);
        }
    }
    if push.Some? {
      ghost var appended := Appended(p, book, push.value, done, trace);
      book := book.(chapters := SortChapters(book.chapters + [push.value]));
      done := done + 1;
      trace := trace + ProgressEvent(p.options, done, p.total) + CheckpointEvent(p.options, book);
      assert appended == Going(book, done, trace);
    }
  }

  // ---------------------------------------------------------------- reading the table of contents

  /** A list the scrape can crawl: the merge of some entries, so sorted by order with each
      URL once, and not empty. */
  predicate CrawlableToc(toc: seq<TocItem>) {
    toc != [] && Sorting.SortedBy(toc, OrderKey) && UniqueUrls(toc)
  }

  lemma MergedCrawlable(entries: seq<TocItem>)
    requires Merged(entries) != []
    ensures CrawlableToc(Merged(entries))
  {
    MergedSorted(entries);
    MergedUnique(entries);
  }

  /** The page loop only requests pages, one per page, keeps the entries read so far in
      front of the later ones, and requests no more than `fuel` pages. */
  lemma {:induction false} MorePagesGrow(read: string -> Result<PageRead, ScraperError>, current: Option<string>,
                                         acc: seq<TocItem>, trace: seq<Event>, fuel: nat)
    requires MorePages(read, current, acc, trace, fuel).Some?
    ensures var f := MorePages(read, current, acc, trace, fuel).value;
      Extends(f.trace, trace) && |f.trace| <= |trace| + fuel
      && (forall k :: |trace| <= k < |f.trace| ==> f.trace[k].Fetch?)
      && (f.result.Ok? ==> acc <= f.result.value)
    decreases fuel
  {
    if current.Some? {
      var trace' := trace + [Fetch(current.value)];
      var f := MorePages(read, current, acc, trace, fuel).value;
      var r := read(current.value);
      if r.Ok? {
        MorePagesGrow(read, r.value.next, acc + r.value.items, trace', fuel - 1);
        assert f.trace[..|trace|] == f.trace[..|trace'|][..|trace|];
        forall k | |trace| <= k < |f.trace| ensures f.trace[k].Fetch? {
          if k < |trace'| {
            assert f.trace[k] == trace'[k];
          }
        }
        if f.result.Ok? {
          assert acc <= acc + r.value.items;
        }
      } else {
        assert f.trace == trace';
      }
    }
  }

  /** More fuel changes nothing once the page loop has ended. */
  lemma {:induction false} MorePagesFuel(read: string -> Result<PageRead, ScraperError>, current: Option<string>,
                                         acc: seq<TocItem>, trace: seq<Event>, fuel: nat, more: nat)
    requires MorePages(read, current, acc, trace, fuel).Some? && fuel <= more
    ensures MorePages(read, current, acc, trace, more) == MorePages(read, current, acc, trace, fuel)
    decreases fuel
  {
    if current.Some? {
      var r := read(current.value);
      if r.Ok? {
        MorePagesFuel(read, r.value.next, acc + r.value.items, trace + [Fetch(current.value)], fuel - 1, more - 1);
      }
    }
  }

  /** A table of contents read in full is sorted by order, lists each URL once and is not
      empty, whether it came from the AJAX answer or from the pages; the fetch adds events
      to the trace and nothing else. */
  lemma FullTocCrawlable(web: ScribbleHubWeb, seriesUrl: string, parsed: Result<Url, string>, first: TocPage,
                         trace: seq<Event>, fuel: nat)
    requires FullToc(web, seriesUrl, parsed, first, trace, fuel).Some?
    ensures var f := FullToc(web, seriesUrl, parsed, first, trace, fuel).value;
      Extends(f.trace, trace) && (f.result.Ok? ==> CrawlableToc(f.result.value))
  {
    var id := ExtractSeriesId(parsed);
    var trace1 := if id.None? then trace else trace + [Post(AJAX_URL, id.value)];
    assert trace1[..|trace|] == trace;
    var f := FullToc(web, seriesUrl, parsed, first, trace, fuel).value;
    if id.Some? && AjaxEntries(web, id.value).Ok? && AjaxEntries(web, id.value).value != [] {
      var page := Fetched(web.ajaxToc(id.value), AJAX_URL, TOC_AJAX_CONTEXT).value;
      MergedCrawlable(TocItems(page, web.join).value);
    } else if id.Some? && AjaxEntries(web, id.value).Err? {
    } else if TocItems(first, web.join).Ok? {
      var items := TocItems(first, web.join).value;
      MorePagesGrow(PageReader(web, seriesUrl), FirstNext(web, seriesUrl, first), items, trace1, fuel);
      var pages := MorePages(PageReader(web, seriesUrl), FirstNext(web, seriesUrl, first), items, trace1, fuel).value;
      assert pages.trace[..|trace|] == pages.trace[..|trace1|][..|trace|];
      if pages.result.Ok? && Merged(pages.result.value) != [] {
        MergedCrawlable(pages.result.value);
      }
    }
  }

  /** With a series id the AJAX answer comes first: its error ends the fetch after the one
      POST, and so does a non-empty list, which is then the table of contents. */
  lemma AjaxFirst(web: ScribbleHubWeb, seriesUrl: string, parsed: Result<Url, string>, first: TocPage,
                  trace: seq<Event>, fuel: nat, id: string)
    requires ExtractSeriesId(parsed) == Some(id)
    requires AjaxEntries(web, id).Err? || AjaxEntries(web, id).value != []
    ensures FullToc(web, seriesUrl, parsed, first, trace, fuel) == Some(TocFetch(AjaxEntries(web, id), trace + [Post(AJAX_URL, id)]))
    ensures Fetched(web.ajaxToc(id), AJAX_URL, TOC_AJAX_CONTEXT).Err? ==>
      FullToc(web, seriesUrl, parsed, first, trace, fuel).value.result == Err(Fetched(web.ajaxToc(id), AJAX_URL, TOC_AJAX_CONTEXT).error)
  {
  }

  /** Without a series id nothing is posted, and an empty AJAX list falls back to the
      pages; either way the series page's own entries come first. */
  lemma PagesFallback(web: ScribbleHubWeb, seriesUrl: string, parsed: Result<Url, string>, first: TocPage,
                      trace: seq<Event>, fuel: nat)
    requires ExtractSeriesId(parsed).None? || AjaxEntries(web, ExtractSeriesId(parsed).value) == Ok([])
    ensures FullToc(web, seriesUrl, parsed, first, trace, fuel)
         == Paginated(web, seriesUrl, first,
                      if ExtractSeriesId(parsed).None? then trace else trace + [Post(AJAX_URL, ExtractSeriesId(parsed).value)], fuel)
  {
  }

  /** A series page without a link to a next page needs no fuel: its own entries, merged,
      are the fallback table of contents. */
  lemma SinglePage(web: ScribbleHubWeb, seriesUrl: string, first: TocPage, trace: seq<Event>, fuel: nat)
    requires FirstNext(web, seriesUrl, first).None? && TocItems(first, web.join).Ok?
    ensures Paginated(web, seriesUrl, first, trace, fuel)
         == Some(TocFetch(if Merged(TocItems(first, web.join).value) == [] then Err(EmptyChapterList)
                          else Ok(Merged(TocItems(first, web.join).value)), trace))
  {
  }

  // ---------------------------------------------------------------- what one step does

  /** What handling a page can do to the state: stop with the events so far, leave the
      book, the count and the events as they are, or add one chapter, count it, and report
      the count and the new book. */
  predicate PageOutcome(p: Pass, book: Book, done: nat, trace: seq<Event>, r: Crawl) {
    match r
    case Stopped(_, t) => t == trace
    case Going(b, d, t) =>
      (b == book && d == done && t == trace)
      || (OneMore(book, b) && d == done + 1 && t == trace + ProgressEvent(p.options, done + 1, p.total) + CheckpointEvent(p.options, b))
  }

  lemma AppendedOutcome(p: Pass, book: Book, c: Chapter, done: nat, trace: seq<Event>)
    ensures PageOutcome(p, book, done, trace, Appended(p, book, c, done, trace))
  {
    SortedPush(book, c);
  }

  lemma PageStepOutcome(p: Pass, e: TocItem, page: ShChapterPage, book: Book, done: nat, trace: seq<Event>)
    ensures PageOutcome(p, book, done, trace, PageStep(p, e, page, book, done, trace))
  {
    var parsed := ParseShChapterPage(page, e.order, e.url);
    if parsed.Ok? {
      var (title, body) := parsed.value;
      AppendedOutcome(p, book, Chapter(title + " (no content)", e.order, NO_CONTENT_BODY), done, trace);
      AppendedOutcome(p, book, Chapter(title, e.order, body), done, trace);
    } else if parsed.error.ParseChapter? {
      AppendedOutcome(p, book, UnparsedPlaceholder(parsed.error.index), done, trace);
    }
  }

  /** The request a step makes before its outcome is known: the entry's URL, unless its
      index is in the book. */
  function StepPrefix(e: TocItem, book: Book): seq<Event> {
    if HasIndex(book.chapters, e.order) then [] else [Fetch(e.url)]
  }

  /** A step makes its request, then ends like the handling of a page: the count rises
      only with the chapters added. */
  lemma StepOutcome(p: Pass, e: TocItem, book: Book, done: nat, trace: seq<Event>)
    ensures PageOutcome(p, book, done, trace + StepPrefix(e, book), Step(p, e, book, done, trace))
  {
    if HasIndex(book.chapters, e.order) {
      assert trace + [] == trace;
    } else {
      var response := p.web.chapterPage(e.url);
      if !(response.TransportError? || !IsSuccess(response.status) || response.body.Err?) {
        PageStepOutcome(p, e, response.body.value, book, done, trace + [Fetch(e.url)]);
      }
    }
  }

  /** A request that fails in transport, with a non-success status, or while reading the
      body skips the chapter: the book and the count are unchanged and the pass goes on. */
  lemma FailedFetchSkips(p: Pass, e: TocItem, book: Book, done: nat, trace: seq<Event>)
    requires !HasIndex(book.chapters, e.order)
    requires var response := p.web.chapterPage(e.url);
      response.TransportError? || !IsSuccess(response.status) || response.body.Err?
    ensures Step(p, e, book, done, trace) == Going(book, done, trace + [Fetch(e.url)])
  {
  }

  /** A page without content, under the Fail policy, stops the pass with `ParseChapter`
      for the entry; under Skip the chapter is left out and not counted. */
  lemma UnparsedPolicy(p: Pass, e: TocItem, page: ShChapterPage, book: Book, done: nat, trace: seq<Event>)
    requires !page.hasContainer || page.paragraphs == []
    ensures EmptyOf(p.options) == EmptyChapterBehavior.Fail ==>
      PageStep(p, e, page, book, done, trace) == Stopped(ParseChapter(e.order, e.url), trace)
    ensures EmptyOf(p.options) == EmptyChapterBehavior.Skip ==>
      PageStep(p, e, page, book, done, trace) == Going(book, done, trace)
  {
    ShChapterPageOutcome(page, e.order, e.url);
  }

  /** Handling a page makes no request. */
  lemma OutcomeFetches(p: Pass, book: Book, done: nat, pre: seq<Event>, r: Crawl)
    requires PageOutcome(p, book, done, pre, r)
    ensures Extends(r.trace, pre) && Fetches(r.trace) == Fetches(pre)
  {
    if r.Going? && r.trace != pre {
      var reports := ProgressEvent(p.options, done + 1, p.total) + CheckpointEvent(p.options, r.book);
      FetchesNone(reports);
      FetchesAppend(pre, reports);
      assert r.trace == pre + reports;
      assert r.trace[..|pre|] == pre;
    } else {
      assert r.trace[..|pre|] == pre;
    }
  }

  /** The requests of one step: the entry's URL, exactly when its index is not yet in the
      book. */
  lemma StepFetches(p: Pass, e: TocItem, book: Book, done: nat, trace: seq<Event>)
    ensures var r := Step(p, e, book, done, trace);
      Extends(r.trace, trace)
      && Fetches(r.trace) == Fetches(trace) + (if !HasIndex(book.chapters, e.order) then [e.url] else [])
  {
    var pre := trace + StepPrefix(e, book);
    StepOutcome(p, e, book, done, trace);
    OutcomeFetches(p, book, done, pre, Step(p, e, book, done, trace));
    FetchesAppend(trace, StepPrefix(e, book));
    assert Fetches(StepPrefix(e, book)) == if !HasIndex(book.chapters, e.order) then [e.url] else [];
    assert pre[..|trace|] == trace;
  }

  // ---------------------------------------------------------------- what the pass does

  /** An entry of `entries` with URL `u` whose index is not among `chapters`. */
  predicate WantedUrl(entries: seq<TocItem>, chapters: seq<Chapter>, u: string) {
    exists e :: e in entries && e.url == u && !HasIndex(chapters, e.order)
  }

  /** An event the pass emits: progress carries the total of the whole table of contents
      and a count of at least one, a checkpoint a sorted book that still holds every
      chapter of `book0`. */
  predicate EventOk(p: Pass, book0: Book, ev: Event) {
    (ev.Progress? ==> ev.total == p.total && ev.done >= 1)
    && (ev.Checkpoint? ==> Sorting.SortedBy(ev.book.chapters, ChapterKey) && multiset(book0.chapters) <= multiset(ev.book.chapters))
  }

  /** A URL wanted by the rest of the entries, against a book that only gained chapters,
      was wanted by all of them against the earlier book. */
  lemma WantedLater(entries: seq<TocItem>, a: seq<Chapter>, b: seq<Chapter>, u: string)
    requires entries != [] && multiset(a) <= multiset(b) && WantedUrl(entries[1..], b, u)
    ensures WantedUrl(entries, a, u)
  {
    var e :| e in entries[1..] && e.url == u && !HasIndex(b, e.order);
    if HasIndex(a, e.order) {
      HasIndexKept(a, b, e.order);
    }
    assert e in entries;
  }

  /** The pass only adds events and chapters, keeps the other fields of the book, keeps a
      sorted book sorted, and counts exactly the chapters it adds. */
  lemma {:induction false} CrawlGrows(p: Pass, entries: seq<TocItem>, st: Crawl)
    requires st.Going?
    ensures var r := CrawlFrom(p, entries, st);
      Extends(r.trace, st.trace)
      && (r.Going? ==> r.book == st.book.(chapters := r.book.chapters)
                       && multiset(st.book.chapters) <= multiset(r.book.chapters)
                       && r.done + |st.book.chapters| == st.done + |r.book.chapters|)
      && (r.Going? && Sorting.SortedBy(st.book.chapters, ChapterKey) ==> Sorting.SortedBy(r.book.chapters, ChapterKey))
    decreases |entries|
  {
    if entries != [] {
      var s1 := Step(p, entries[0], st.book, st.done, st.trace);
      StepOutcome(p, entries[0], st.book, st.done, st.trace);
      StepFetches(p, entries[0], st.book, st.done, st.trace);
      if s1.Going? {
        CrawlGrows(p, entries[1..], s1);
        var r := CrawlFrom(p, entries[1..], s1);
        assert r.trace[..|st.trace|] == r.trace[..|s1.trace|][..|st.trace|];
      }
    }
  }

  /** Every request the pass makes is for an entry whose index was not in the book it
      started from. */
  lemma {:induction false} CrawlFetches(p: Pass, entries: seq<TocItem>, st: Crawl)
    requires st.Going?
    ensures var r := CrawlFrom(p, entries, st);
      Fetches(st.trace) <= Fetches(r.trace)
      && forall k :: |Fetches(st.trace)| <= k < |Fetches(r.trace)| ==> WantedUrl(entries, st.book.chapters, Fetches(r.trace)[k])
    decreases |entries|
  {
    if entries != [] {
      var e := entries[0];
      var s1 := Step(p, e, st.book, st.done, st.trace);
      StepFetches(p, e, st.book, st.done, st.trace);
      StepOutcome(p, e, st.book, st.done, st.trace);
      if s1.Going? {
        CrawlFetches(p, entries[1..], s1);
        FetchesCarry(entries, st.book.chapters, s1.book.chapters, Fetches(st.trace), Fetches(s1.trace),
                     Fetches(CrawlFrom(p, entries[1..], s1).trace));
      }
    }
  }

  /** The induction step of `CrawlFetches`, on the requests alone: `f0` before the first
      entry, `f1` after it, `f` at the end of the pass. */
  lemma FetchesCarry(entries: seq<TocItem>, a: seq<Chapter>, b: seq<Chapter>, f0: seq<string>, f1: seq<string>, f: seq<string>)
    requires entries != [] && multiset(a) <= multiset(b)
    requires f1 == f0 + (if !HasIndex(a, entries[0].order) then [entries[0].url] else [])
    requires f1 <= f && forall k :: |f1| <= k < |f| ==> WantedUrl(entries[1..], b, f[k])
    ensures f0 <= f && forall k :: |f0| <= k < |f| ==> WantedUrl(entries, a, f[k])
  {
    forall k | |f0| <= k < |f|
      ensures WantedUrl(entries, a, f[k])
    {
      if k >= |f1| {
        WantedLater(entries, a, b, f[k]);
      } else {
        assert f[k] == f1[k] == entries[0].url;
        assert entries[0] in entries;
      }
    }
  }

  /** Handling a page emits only a progress report and a checkpoint with a sorted book
      that keeps the chapters it started with. */
  lemma OutcomeEvents(p: Pass, book: Book, done: nat, pre: seq<Event>, r: Crawl)
    requires PageOutcome(p, book, done, pre, r)
    ensures Extends(r.trace, pre) && forall k :: |pre| <= k < |r.trace| ==> EventOk(p, book, r.trace[k])
  {
    assert r.trace[..|pre|] == pre;
    if r.Going? && r.trace != pre {
      var progress := ProgressEvent(p.options, done + 1, p.total);
      var checkpoint := CheckpointEvent(p.options, r.book);
      forall k | |pre| <= k < |r.trace| ensures EventOk(p, book, r.trace[k]) {
        if k < |pre| + |progress| {
          assert r.trace[k] == progress[k - |pre|];
        } else {
          assert r.trace[k] == checkpoint[k - |pre| - |progress|];
        }
      }
    }
  }

  /** The events of one step are well formed. */
  lemma StepEvents(p: Pass, e: TocItem, book: Book, done: nat, trace: seq<Event>)
    ensures var r := Step(p, e, book, done, trace);
      Extends(r.trace, trace) && forall k :: |trace| <= k < |r.trace| ==> EventOk(p, book, r.trace[k])
  {
    var r := Step(p, e, book, done, trace);
    var prefix := StepPrefix(e, book);
    var pre := trace + prefix;
    StepOutcome(p, e, book, done, trace);
    OutcomeEvents(p, book, done, pre, r);
    assert pre[..|trace|] == trace;
    forall k | |trace| <= k < |r.trace| ensures EventOk(p, book, r.trace[k]) {
      if k < |pre| {
        assert r.trace[k] == prefix[k - |trace|];
      }
    }
  }

  /** Every progress event of the pass carries the total, and every checkpoint a sorted
      book that keeps all the chapters the pass started with. */
  lemma {:induction false} CrawlEvents(p: Pass, entries: seq<TocItem>, st: Crawl)
    requires st.Going?
    ensures var r := CrawlFrom(p, entries, st);
      Extends(r.trace, st.trace) && forall k :: |st.trace| <= k < |r.trace| ==> EventOk(p, st.book, r.trace[k])
    decreases |entries|
  {
    if entries != [] {
      var s1 := Step(p, entries[0], st.book, st.done, st.trace);
      StepEvents(p, entries[0], st.book, st.done, st.trace);
      StepOutcome(p, entries[0], st.book, st.done, st.trace);
      if s1.Going? {
        CrawlEvents(p, entries[1..], s1);
        var r := CrawlFrom(p, entries[1..], s1);
        assert r.trace[..|st.trace|] == r.trace[..|s1.trace|][..|st.trace|];
        forall k | |st.trace| <= k < |r.trace| ensures EventOk(p, st.book, r.trace[k]) {
          if k < |s1.trace| {
            assert r.trace[k] == s1.trace[k];
          }
        }
      }
    }
  }

  // ---------------------------------------------------------------- what a scrape does

  /** Before the table of contents: an invalid URL makes no request; a failed series page
      ends the scrape after that one request. */
  lemma ScrapeEarlyErrors(web: ScribbleHubWeb, url: string, parsed: Result<Url, string>, options: ScrapeOptions, fuel: nat)
    ensures EnsureSeriesUrl(url, parsed).Err? ==>
      ScrapeSpec(web, url, parsed, options, fuel) == Some(Scrape(Err(EnsureSeriesUrl(url, parsed).error), []))
    ensures EnsureSeriesUrl(url, parsed).Ok? ==>
      var seriesUrl := EnsureSeriesUrl(url, parsed).value;
      var series := Fetched(web.seriesPage(seriesUrl), seriesUrl, STORY_PAGE_CONTEXT);
      series.Err? ==> ScrapeSpec(web, url, parsed, options, fuel) == Some(Scrape(Err(series.error), [Fetch(seriesUrl)]))
  {
  }

  /** Once the table of contents is read, the rest of the scrape starts from the requests
      made so far, and crawls a list sorted by order with each URL once. */
  lemma ScrapeReachesToc(web: ScribbleHubWeb, url: string, parsed: Result<Url, string>, options: ScrapeOptions,
                         fuel: nat, seriesUrl: string, page: SeriesPage, toc: seq<TocItem>, trace: seq<Event>)
    requires EnsureSeriesUrl(url, parsed) == Ok(seriesUrl)
    requires Fetched(web.seriesPage(seriesUrl), seriesUrl, STORY_PAGE_CONTEXT) == Ok(page)
    requires FullToc(web, seriesUrl, parsed, page.toc, [Fetch(seriesUrl)], fuel) == Some(TocFetch(Ok(toc), trace))
    ensures ScrapeSpec(web, url, parsed, options, fuel) == Some(AfterToc(web, options, seriesUrl, page, toc, trace))
    ensures CrawlableToc(toc) && Extends(trace, [Fetch(seriesUrl)])
  {
    FullTocCrawlable(web, seriesUrl, parsed, page.toc, [Fetch(seriesUrl)], fuel);
  }

  /** The fuel only bounds the TOC pages: a scrape that ends within some fuel ends the
      same way with more. */
  lemma ScrapeFuel(web: ScribbleHubWeb, url: string, parsed: Result<Url, string>, options: ScrapeOptions,
                   fuel: nat, more: nat)
    requires ScrapeSpec(web, url, parsed, options, fuel).Some? && fuel <= more
    ensures ScrapeSpec(web, url, parsed, options, more) == ScrapeSpec(web, url, parsed, options, fuel)
  {
    if EnsureSeriesUrl(url, parsed).Ok? {
      var seriesUrl := EnsureSeriesUrl(url, parsed).value;
      var series := Fetched(web.seriesPage(seriesUrl), seriesUrl, STORY_PAGE_CONTEXT);
      if series.Ok? {
        var first := series.value.toc;
        var id := ExtractSeriesId(parsed);
        var trace1 := if id.None? then [Fetch(seriesUrl)] else [Fetch(seriesUrl)] + [Post(AJAX_URL, id.value)];
        if TocItems(first, web.join).Ok? {
          var items := TocItems(first, web.join).value;
          var next := FirstNext(web, seriesUrl, first);
          if MorePages(PageReader(web, seriesUrl), next, items, trace1, fuel).Some? {
            MorePagesFuel(PageReader(web, seriesUrl), next, items, trace1, fuel, more);
          }
        }
      }
    }
  }

  /** The pass a scrape runs. */
  function PassOf(web: ScribbleHubWeb, options: ScrapeOptions, toc: seq<TocItem>): Pass {
    Pass(options, |toc| % Model.U32_LIMIT, web)
  }

  lemma AfterTocCrawls(web: ScribbleHubWeb, options: ScrapeOptions, seriesUrl: string, page: SeriesPage,
                       toc: seq<TocItem>, trace: seq<Event>, book: Book)
    requires StartBook(options, page, seriesUrl, web.parseLd) == Ok(book) && !options.tocOnly
    ensures AfterToc(web, options, seriesUrl, page, toc, trace)
         == Finish(CrawlFrom(PassOf(web, options, toc), WantedItems(toc, options.chapterRange), Going(book, 0, trace)))
  {
  }

  /** Toc-only mode only appends to the chapters it starts with. */
  lemma {:induction false} TocOnlyExtends(entries: seq<TocItem>, chapters: seq<Chapter>)
    ensures multiset(chapters) <= multiset(TocOnlyFrom(entries, chapters))
    decreases |entries|
  {
    if entries != [] {
      var next := TocOnlyStep(entries[0], chapters);
      TocOnlyExtends(entries[1..], next);
      assert multiset(chapters) <= multiset(next);
    }
  }

  /** Toc-only mode requests nothing more, reports neither progress nor checkpoints, and
      returns, even with no chapter at all, a book sorted by index that still holds the
      chapters it started with. */
  lemma TocOnlyFetchesNoChapter(web: ScribbleHubWeb, options: ScrapeOptions, seriesUrl: string, page: SeriesPage,
                                toc: seq<TocItem>, trace: seq<Event>, book: Book)
    requires StartBook(options, page, seriesUrl, web.parseLd) == Ok(book) && options.tocOnly
    ensures var s := AfterToc(web, options, seriesUrl, page, toc, trace);
      s.trace == trace && s.result.Ok?
      && Sorting.SortedBy(s.result.value.chapters, ChapterKey)
      && multiset(book.chapters) <= multiset(s.result.value.chapters)
  {
    var cs := TocOnlyFrom(WantedItems(toc, options.chapterRange), book.chapters);
    TocOnlyExtends(WantedItems(toc, options.chapterRange), book.chapters);
    Sorting.SortSorts(cs, ChapterKey);
    Sorting.SortPermutes(cs, ChapterKey);
  }

  /** `u` is the URL of an entry of `toc` in the range whose index is not among
      `chapters`. */
  predicate RequestedEntry(toc: seq<TocItem>, range: Option<(U32, U32)>, chapters: seq<Chapter>, u: string) {
    exists e :: e in toc && InRange(range, e.order) && e.url == u && !HasIndex(chapters, e.order)
  }

  /** Every chapter request is for an entry in the chapter range whose index was not in the
      starting (resumed) book. */
  lemma FetchesOnlyWanted(web: ScribbleHubWeb, options: ScrapeOptions, seriesUrl: string, page: SeriesPage,
                          toc: seq<TocItem>, trace: seq<Event>, book: Book)
    requires StartBook(options, page, seriesUrl, web.parseLd) == Ok(book)
    ensures var f := Fetches(AfterToc(web, options, seriesUrl, page, toc, trace).trace);
      Fetches(trace) <= f
      && forall k :: |Fetches(trace)| <= k < |f| ==> RequestedEntry(toc, options.chapterRange, book.chapters, f[k])
  {
    if !options.tocOnly {
      var wanted := WantedItems(toc, options.chapterRange);
      var f := Fetches(AfterToc(web, options, seriesUrl, page, toc, trace).trace);
      AfterTocCrawls(web, options, seriesUrl, page, toc, trace, book);
      CrawlFetches(PassOf(web, options, toc), wanted, Going(book, 0, trace));
      WantedItemsKeeps(toc, options.chapterRange);
      forall k | |Fetches(trace)| <= k < |f|
        ensures RequestedEntry(toc, options.chapterRange, book.chapters, f[k])
      {
        assert WantedUrl(wanted, book.chapters, f[k]);
        var e :| e in wanted && e.url == f[k] && !HasIndex(book.chapters, e.order);
        assert e in toc && InRange(options.chapterRange, e.order);
      }
    } else {
      assert AfterToc(web, options, seriesUrl, page, toc, trace).trace == trace;
    }
  }

  /** Every progress report carries the length of the whole table of contents, before the
      range filter, as a `u32`; every checkpoint receives a book sorted by index that holds
      every chapter the scrape started with. */
  lemma ScrapeEvents(web: ScribbleHubWeb, options: ScrapeOptions, seriesUrl: string, page: SeriesPage,
                     toc: seq<TocItem>, trace: seq<Event>, book: Book)
    requires StartBook(options, page, seriesUrl, web.parseLd) == Ok(book)
    ensures var t := AfterToc(web, options, seriesUrl, page, toc, trace).trace;
      Extends(t, trace)
      && forall k :: |trace| <= k < |t| ==> EventOk(PassOf(web, options, toc), book, t[k])
  {
    if !options.tocOnly {
      AfterTocCrawls(web, options, seriesUrl, page, toc, trace, book);
      CrawlEvents(PassOf(web, options, toc), WantedItems(toc, options.chapterRange), Going(book, 0, trace));
    } else {
      assert trace[..|trace|] == trace;
    }
  }

  /** A successful crawl has at least one chapter, keeps every chapter of the resumed book
      and the book's other fields, and is sorted by index when the resumed book was. */
  lemma ScrapeKeepsResumed(web: ScribbleHubWeb, options: ScrapeOptions, seriesUrl: string, page: SeriesPage,
                           toc: seq<TocItem>, trace: seq<Event>, book: Book)
    requires StartBook(options, page, seriesUrl, web.parseLd) == Ok(book)
    requires !options.tocOnly && AfterToc(web, options, seriesUrl, page, toc, trace).result.Ok?
    ensures var b := AfterToc(web, options, seriesUrl, page, toc, trace).result.value;
      b.chapters != [] && b == book.(chapters := b.chapters) && multiset(book.chapters) <= multiset(b.chapters)
      && (Sorting.SortedBy(book.chapters, ChapterKey) ==> Sorting.SortedBy(b.chapters, ChapterKey))
  {
    AfterTocCrawls(web, options, seriesUrl, page, toc, trace, book);
    CrawlGrows(PassOf(web, options, toc), WantedItems(toc, options.chapterRange), Going(book, 0, trace));
  }

  /** A new book starts with no chapters and the series URL as its source. */
  lemma FreshBook(options: ScrapeOptions, page: SeriesPage, seriesUrl: string, parseLd: string -> Option<LdObject>)
    requires options.initialBook.None? && StartBook(options, page, seriesUrl, parseLd).Ok?
    ensures StartBook(options, page, seriesUrl, parseLd).value.chapters == []
    ensures StartBook(options, page, seriesUrl, parseLd).value.sourceUrl == Some(seriesUrl)
    ensures ParseSeriesMetadata(page.html, parseLd, page.dom).Ok?
  {
  }
}

/** The Scribble Hub table of contents: the series URL checks, the `toc=` page number, the
    entries of one TOC page, the link to the next page, and the merge of several pages. */
module ScribbleHubToc {
  import opened Wrappers
  import opened Text
  import opened Model
  import opened Scraper
  import Sorting

  const SCRIBBLEHUB_BASE: string := "https://www.scribblehub.com"
  const SERIES_PREFIX: string := "/series/"

  // ---------------------------------------------------------------- series URL

  /** `extract_series_id_from_url`: the first path segment after a leading "/series/", if it
      is a non-empty run of ASCII digits. `parsed` is what `Url::parse(url)` returned. */
  function ExtractSeriesId(parsed: Result<Url, string>): (r: Option<string>)
    ensures r.Some? ==> parsed.Ok? && r.value != [] && AllDigits(r.value)
    ensures r.Some? ==> var path := parsed.value.path; var n := |SERIES_PREFIX| + |r.value|;
      StartsWith(path, SERIES_PREFIX + r.value) && (n == |path| || path[n] == '/')
  {
    if parsed.Err? || !StartsWith(parsed.value.path, SERIES_PREFIX) then None
    else
      var path := parsed.value.path;
      var id := TakeUntilAny(path[|SERIES_PREFIX|..], {'/'});
      if id == [] || !AllDigits(id) then None
      else
        assert path[..|SERIES_PREFIX| + |id|] == SERIES_PREFIX + id;
        Some(id)
  }

  /** A path "/series/{digits}" followed by nothing or by "/…" gives those digits. */
  lemma SeriesIdRead(host: Option<string>, id: string, rest: string)
    requires id != [] && AllDigits(id) && (rest == [] || rest[0] == '/')
    ensures ExtractSeriesId(Ok(Url(host, SERIES_PREFIX + id + rest))) == Some(id)
  {
    var path := SERIES_PREFIX + id + rest;
    assert path[..|SERIES_PREFIX|] == SERIES_PREFIX;
    assert path[|SERIES_PREFIX|..] == id + rest;
    var t := TakeUntilAny(id + rest, {'/'});
    forall i | 0 <= i < |id| ensures (id + rest)[i] !in {'/'} {
      assert IsAsciiDigit(id[i]);
    }
    assert t == (id + rest)[..|id|] == id;
  }

  /** Without a leading "/series/" there is no series id. */
  lemma SeriesIdNeedsPrefix(parsed: Result<Url, string>)
    requires parsed.Ok? && !StartsWith(parsed.value.path, SERIES_PREFIX)
    ensures ExtractSeriesId(parsed).None?
  {
  }

  const NO_HOST: string := "URL has no host"
  const NOT_SCRIBBLEHUB: string := "Expected a Scribble Hub series URL (host scribblehub.com)."
  const NOT_A_SERIES_URL: string := "Expected a series (index) URL, not a chapter URL. Use the series page, e.g. https://www.scribblehub.com/series/862913/hp-the-arcane-thief-litrpg/"
  const NO_SERIES_PATH: string := "Expected a series URL containing /series/{id}/{slug}/."

  /** `ensure_series_url`: in this order, the URL must parse, have a host containing
      "scribblehub.com", not be a chapter path, and contain "/series/". */
  function EnsureSeriesUrl(url: string, parsed: Result<Url, string>): (r: Result<string, ScraperError>)
  {
    if parsed.Err? then Err(InvalidUrl(url, parsed.error))
    else if parsed.value.host.None? then Err(InvalidUrl(url, NO_HOST))
    else if !Contains(parsed.value.host.value, "scribblehub.com") then Err(ParseStoryPage(NOT_SCRIBBLEHUB))
    else if IsReadChapterPath(parsed.value.path) then Err(ParseStoryPage(NOT_A_SERIES_URL))
    else if !Contains(parsed.value.path, SERIES_PREFIX) then Err(ParseStoryPage(NO_SERIES_PATH))
    else Ok(url)
  }

  /** A chapter path holds both "/read/" and "/chapter/". */
  predicate IsReadChapterPath(path: string) {
    Contains(path, "/read/") && Contains(path, "/chapter/")
  }

  /** A series URL is accepted, unchanged, exactly when it parses, its host contains
      "scribblehub.com", it is not a chapter path and it contains "/series/"; a rejected
      URL that parsed with a host is always `ParseStoryPage`. */
  lemma SeriesUrlAccepted(url: string, parsed: Result<Url, string>)
    ensures EnsureSeriesUrl(url, parsed).Ok? <==>
      parsed.Ok? && parsed.value.host.Some? && Contains(parsed.value.host.value, "scribblehub.com")
      && !IsReadChapterPath(parsed.value.path) && Contains(parsed.value.path, SERIES_PREFIX)
    ensures EnsureSeriesUrl(url, parsed).Ok? ==> EnsureSeriesUrl(url, parsed).value == url
    ensures EnsureSeriesUrl(url, parsed).Err? && parsed.Ok? && parsed.value.host.Some? ==>
      EnsureSeriesUrl(url, parsed).error.ParseStoryPage?
    ensures parsed.Err? ==> EnsureSeriesUrl(url, parsed) == Err(InvalidUrl(url, parsed.error))
  {
    if parsed.Ok? && parsed.value.host.Some? {
      var host := parsed.value.host.value;
      var path := parsed.value.path;
      if !Contains(host, "scribblehub.com") {
        assert EnsureSeriesUrl(url, parsed) == Err(ParseStoryPage(NOT_SCRIBBLEHUB));
      } else if IsReadChapterPath(path) {
        assert EnsureSeriesUrl(url, parsed) == Err(ParseStoryPage(NOT_A_SERIES_URL));
      } else if !Contains(path, SERIES_PREFIX) {
        assert EnsureSeriesUrl(url, parsed) == Err(ParseStoryPage(NO_SERIES_PATH));
      }
    }
  }

  // ---------------------------------------------------------------- toc= page number

  const TOC_KEY: string := "toc="

  /** The page number one query parameter gives: after trimming it must start with "toc=";
      the value is cut at '#' or '&', trimmed and parsed as a u32. */
  function TocParamValue(param: string): Option<nat> {
    var p := Trim(param);
    if StartsWith(p, TOC_KEY) then ParseU32(Trim(TakeUntilAny(p[|TOC_KEY|..], {'#', '&'}))) else None
  }

  /** The page number each query parameter gives. */
  function TocValues(params: seq<string>): (vs: seq<Option<nat>>)
    ensures |vs| == |params|
    decreases |params|
  {
    if params == [] then [] else [TocParamValue(params[0])] + TocValues(params[1..])
  }

  lemma {:induction false} TocValuesAt(params: seq<string>, i: nat)
    requires i < |params|
    ensures TocValues(params)[i] == TocParamValue(params[i])
    decreases i
  {
    assert TocValues(params) == [TocParamValue(params[0])] + TocValues(params[1..]);
    if i > 0 {
      TocValuesAt(params[1..], i - 1);
      assert params[1..][i - 1] == params[i];
    }
  }

  /** The position of the first `Some` in `vs`, or `|vs|`. */
  function FirstSome<T>(vs: seq<Option<T>>): (k: nat)
    ensures k <= |vs|
    ensures k < |vs| ==> vs[k].Some?
    ensures forall j :: 0 <= j < k ==> vs[j].None?
    decreases |vs|
  {
    if vs == [] || vs[0].Some? then 0
    else
      var k := FirstSome(vs[1..]);
      assert forall j :: 1 <= j <= k ==> vs[j] == vs[1..][j - 1];
      1 + k
  }

  /** Every page number a parameter gives fits a u32. */
  lemma TocValueBound(params: seq<string>, i: nat)
    requires i < |params|
    ensures TocValues(params)[i].Some? ==> TocValues(params)[i].value < Model.U32_LIMIT
  {
    TocValuesAt(params, i);
  }

  /** The value of the first query parameter that gives a page number, else 1. */
  function FirstTocParam(params: seq<string>): (r: nat)
    ensures r < Model.U32_LIMIT
    ensures forall k :: 0 <= k < |params| && TocValues(params)[k].Some?
                        && (forall j :: 0 <= j < k ==> TocValues(params)[j].None?)
                        ==> r == TocValues(params)[k].value
    ensures (forall k :: 0 <= k < |params| ==> TocValues(params)[k].None?) ==> r == 1
  {
    var vs := TocValues(params);
    var k := FirstSome(vs);
    if k < |vs| then TocValueBound(params, k); vs[k].value else 1
  }

  /** The query: the second piece of the URL split at '?', or nothing. */
  function QueryOf(url: string): string {
    var pieces := Split(url, '?');
    if |pieces| >= 2 then pieces[1] else []
  }

  /** `parse_toc_page_from_url`: the page number of the first "toc=" parameter that parses,
      else 1. */
  function ParseTocPageFromUrl(url: string): (r: nat)
    ensures r < Model.U32_LIMIT
  {
    FirstTocParam(Split(QueryOf(url), '&'))
  }

  /** A URL without '?' is page 1. */
  lemma NoQueryIsFirstPage(url: string)
    requires '?' !in url
    ensures ParseTocPageFromUrl(url) == 1
  {
    NoQueryIsEmpty(url);
    EmptyQueryIsFirstPage();
  }

  lemma NoQueryIsEmpty(url: string)
    requires '?' !in url
    ensures QueryOf(url) == []
  {
    assert Split(url, '?') == [url];
  }

  lemma EmptyQueryIsFirstPage()
    ensures FirstTocParam(Split([], '&')) == 1
  {
    assert Split([], '&') == [[]];
    assert TocValues([[]]) == [TocParamValue([])];
  }

  /** A query whose parameters are `params`, in order, gives the first page number among
      them, or 1. */
  lemma QueryPageNumber(base: string, params: seq<string>)
    requires '?' !in base && |params| >= 1
    requires forall k :: 0 <= k < |params| ==> '?' !in params[k] && '&' !in params[k]
    ensures ParseTocPageFromUrl(base + "?" + Join(params, '&')) == FirstTocParam(params)
  {
    var q := Join(params, '&');
    JoinFree(params, '&', '?');
    var url := base + "?" + q;
    assert url == base + ['?'] + q;
    SplitOnceAt(url, base, q, '?');
    assert Split(url, '?') == [base] + Split(q, '?');
    SplitNone(q, '?');
    SplitJoin(params, '&');
  }

  lemma {:induction false} JoinFree(parts: seq<string>, c: char, d: char)
    requires |parts| >= 1 && d != c
    requires forall k :: 0 <= k < |parts| ==> d !in parts[k]
    ensures d !in Join(parts, c)
    decreases |parts|
  {
    if |parts| > 1 {
      JoinFree(parts[1..], c, d);
    }
  }

  lemma SplitOnceAt(s: string, a: string, b: string, c: char)
    requires c !in a && s == a + [c] + b
    ensures Split(s, c) == [a] + Split(b, c)
  {
    assert s[|a|] == c;
    assert s[..|a|] == a;
    assert s[|a| + 1..] == b;
  }

  lemma SplitNone(s: string, c: char)
    requires c !in s
    ensures Split(s, c) == [s]
  {
  }

  /** Splitting pieces glued with a separator they do not contain gives the pieces back. */
  lemma {:induction false} SplitJoin(parts: seq<string>, c: char)
    requires |parts| >= 1 && forall k :: 0 <= k < |parts| ==> c !in parts[k]
    ensures Split(Join(parts, c), c) == parts
    decreases |parts|
  {
    if |parts| == 1 {
      SplitNone(parts[0], c);
    } else {
      SplitJoin(parts[1..], c);
      SplitOnceAt(Join(parts, c), parts[0], Join(parts[1..], c), c);
    }
  }

  // ---------------------------------------------------------------- one TOC page

  /** The `a.toc_a` link inside a `li.toc_w`: its href attribute and its text. */
  datatype TocLink = TocLink(href: Option<string>, text: string)

  /** A `li.toc_w` element: its `order` attribute and its first `a.toc_a`, where present. */
  datatype TocLi = TocLi(order: Option<string>, link: Option<TocLink>)

  /** The pagination of a TOC page, in document order: the `a.page-link.next` anchor (with
      its href attribute, if it has one), the hrefs of the `a.page-link` anchors whose href
      contains "toc=", then those of all anchors whose href contains "toc=". */
  datatype Pagination = Pagination(next: Option<Option<string>>, pageLinks: seq<string>, tocLinks: seq<string>)

  /** A TOC page: the `li.toc_w` elements of the first `ol.toc_ol` (None when there is no
      such list), and its pagination. */
  datatype TocPage = TocPage(list: Option<seq<TocLi>>, pagination: Pagination)

  /** One TOC entry: its `order` (0 when missing or not a u32), its absolute URL, its title. */
  datatype TocItem = TocItem(order: U32, url: string, title: string)

  /** `Url::join` of a base URL and a reference, done by the URL library. */
  function Joined(join: (string, string) -> Result<string, string>, base: string, href: string): Result<string, string> {
    join(base, href)
  }

  /** What one `li` gives: nothing when it has no link, no href or an empty trimmed title;
      `ChapterListParse` when its href does not join; else its entry. */
  function ItemOf(li: TocLi, join: (string, string) -> Result<string, string>): (r: Result<Option<TocItem>, ScraperError>)
    ensures r.Err? ==> r.error.ChapterListParse?
    ensures r.Ok? && r.value.Some? ==>
      li.link.Some? && li.link.value.href.Some?
      && r.value.value.title == Trim(li.link.value.text) && r.value.value.title != []
      && Joined(join, SCRIBBLEHUB_BASE, TrimStartChar(li.link.value.href.value, '/')) == Ok(r.value.value.url)
      && r.value.value.order == (if li.order.Some? && ParseU32(li.order.value).Some? then ParseU32(li.order.value).value else 0)
  {
    var order := if li.order.Some? then ParseU32(li.order.value).GetOr(0) else 0;
    if li.link.None? || li.link.value.href.None? then Ok(None)
    else
      var joined := Joined(join, SCRIBBLEHUB_BASE, TrimStartChar(li.link.value.href.value, '/'));
      if joined.Err? then Err(ChapterListParse(joined.error))
      else
        var title := Trim(li.link.value.text);
        if title == [] then Ok(None) else Ok(Some(TocItem(order, joined.value, title)))
  }

  /** The entry an optional item contributes. */
  function Listed(o: Option<TocItem>): seq<TocItem> {
    if o.Some? then [o.value] else []
  }

  /** `items` followed by the entries of a successful parse; an error stays an error. */
  function Then(items: seq<TocItem>, r: Result<seq<TocItem>, ScraperError>): Result<seq<TocItem>, ScraperError> {
    if r.Err? then r else Ok(items + r.value)
  }

  /** The entries of `lis` in order, or the first error. */
  function ItemsFrom(lis: seq<TocLi>, join: (string, string) -> Result<string, string>): (r: Result<seq<TocItem>, ScraperError>)
    ensures r.Ok? ==> |r.value| <= |lis|
    decreases |lis|
  {
    if lis == [] then Ok([])
    else match ItemOf(lis[0], join)
      case Err(e) => Err(e)
      case Ok(o) => Then(Listed(o), ItemsFrom(lis[1..], join))
  }

  const NO_TOC_LIST: string := "ol.toc_ol not found"

  /** `parse_toc_page`: `ChapterListParse` without an `ol.toc_ol`, else the entries. */
  function TocItems(page: TocPage, join: (string, string) -> Result<string, string>): (r: Result<seq<TocItem>, ScraperError>)
  {
    if page.list.None? then Err(ChapterListParse(NO_TOC_LIST)) else ItemsFrom(page.list.value, join)
  }

  /** The step of the `li` loop. */
  lemma ItemsStep(lis: seq<TocLi>, i: nat, join: (string, string) -> Result<string, string>, items: seq<TocItem>)
    requires i < |lis|
    ensures Then(items, ItemsFrom(lis[i..], join))
      == match ItemOf(lis[i], join)
         case Err(e) => Err(e)
         case Ok(o) => Then(items + Listed(o), ItemsFrom(lis[i + 1..], join))
  {
    assert lis[i..][0] == lis[i];
    assert lis[i..][1..] == lis[i + 1..];
    var rest := ItemsFrom(lis[i + 1..], join);
    if rest.Ok? {
      forall o: Option<TocItem> ensures items + (Listed(o) + rest.value) == (items + Listed(o)) + rest.value { }
    }
  }

  /** `parse_toc_page`: the loop over the `li` elements pushing each entry. */
  method ParseTocPage(page: TocPage, join: (string, string) -> Result<string, string>)
    returns (r: Result<seq<TocItem>, ScraperError>)
    ensures r == TocItems(page, join)
  {
    if page.list.None? {
      return Err(ChapterListParse(NO_TOC_LIST));
    }
    var lis := page.list.value;
    var items: seq<TocItem> := [];
    var i := 0;
    assert lis[0..] == lis;
    assert Then([], ItemsFrom(lis, join)) == ItemsFrom(lis, join) by {
      if ItemsFrom(lis, join).Ok? {
        assert [] + ItemsFrom(lis, join).value == ItemsFrom(lis, join).value;
      }
    }
    while i < |lis|
      invariant 0 <= i <= |lis|
      invariant Then(items, ItemsFrom(lis[i..], join)) == ItemsFrom(lis, join)
    {
      ItemsStep(lis, i, join, items);
      var item := ItemOf(lis[i], join);
      if item.Err? {
        return Err(item.error);
      }
      items := items + Listed(item.value);
      i := i + 1;
    }
    assert lis[i..] == [];
    assert items + [] == items;
    r := Ok(items);
  }

  /** `x` is the entry of one of the `li` elements of `lis`. */
  ghost predicate FromSomeLi(lis: seq<TocLi>, join: (string, string) -> Result<string, string>, x: TocItem) {
    exists li :: li in lis && ItemOf(li, join) == Ok(Some(x))
  }

  /** A parse fails only with `ChapterListParse`, and every entry it gives is the entry of
      one of the `li` elements. */
  lemma {:induction false} ItemsFromLinks(lis: seq<TocLi>, join: (string, string) -> Result<string, string>)
    ensures ItemsFrom(lis, join).Err? ==> ItemsFrom(lis, join).error.ChapterListParse?
    ensures ItemsFrom(lis, join).Ok? ==> forall x :: x in ItemsFrom(lis, join).value ==> FromSomeLi(lis, join, x)
    decreases |lis|
  {
    if lis != [] {
      ItemsFromLinks(lis[1..], join);
      var item := ItemOf(lis[0], join);
      var tail := ItemsFrom(lis[1..], join);
      if item.Ok? && tail.Ok? {
        assert ItemsFrom(lis, join) == Ok(Listed(item.value) + tail.value);
        forall x | x in Listed(item.value) + tail.value ensures FromSomeLi(lis, join, x) {
          if x in tail.value {
            assert FromSomeLi(lis[1..], join, x);
            var li :| li in lis[1..] && ItemOf(li, join) == Ok(Some(x));
            assert li in lis;
          } else {
            assert lis[0] in lis;
          }
        }
      }
    }
  }

  // ---------------------------------------------------------------- next TOC page

  /** An href worth following: non-empty and not "#". */
  predicate Usable(href: string) {
    href != [] && href != "#"
  }

  /** What one pagination link offers as the page `page`: its href joined onto `base`, when
      the href is usable, its "toc=" number is `page` and the join succeeds. */
  function LinkTarget(h: string, page: nat, join: (string, string) -> Result<string, string>, base: string): Option<string> {
    if Usable(h) && ParseTocPageFromUrl(h) == page && Joined(join, base, h).Ok? then Some(Joined(join, base, h).value)
    else None
  }

  /** What each link offers as the page `page`. */
  function Targets(links: seq<string>, page: nat, join: (string, string) -> Result<string, string>, base: string): (ts: seq<Option<string>>)
    ensures |ts| == |links|
    decreases |links|
  {
    if links == [] then [] else [LinkTarget(links[0], page, join, base)] + Targets(links[1..], page, join, base)
  }

  lemma {:induction false} TargetsAt(links: seq<string>, page: nat, join: (string, string) -> Result<string, string>,
                                     base: string, i: nat)
    requires i < |links|
    ensures Targets(links, page, join, base)[i] == LinkTarget(links[i], page, join, base)
    decreases i
  {
    assert Targets(links, page, join, base) == [LinkTarget(links[0], page, join, base)] + Targets(links[1..], page, join, base);
    if i > 0 {
      TargetsAt(links[1..], page, join, base, i - 1);
      assert links[1..][i - 1] == links[i];
    }
  }

  /** The joined URL of the first usable link to `page` that joins onto `base`. */
  function FirstLinkTo(links: seq<string>, page: nat, join: (string, string) -> Result<string, string>, base: string): (r: Option<string>)
    ensures var ts := Targets(links, page, join, base);
      forall k :: 0 <= k < |ts| && ts[k].Some? && (forall j :: 0 <= j < k ==> ts[j].None?) ==> r == ts[k]
    ensures var ts := Targets(links, page, join, base);
      (forall k :: 0 <= k < |ts| ==> ts[k].None?) ==> r.None?
  {
    var ts := Targets(links, page, join, base);
    var k := FirstSome(ts);
    if k < |ts| then ts[k] else None
  }

  /** A link chosen for page `page` is a usable link to that page, joined. */
  lemma FirstLinkSource(links: seq<string>, page: nat, join: (string, string) -> Result<string, string>, base: string)
    requires FirstLinkTo(links, page, join, base).Some?
    ensures exists k :: 0 <= k < |links| && Usable(links[k]) && ParseTocPageFromUrl(links[k]) == page
                        && Joined(join, base, links[k]) == Ok(FirstLinkTo(links, page, join, base).value)
  {
    var ts := Targets(links, page, join, base);
    var k := FirstSome(ts);
    TargetsAt(links, page, join, base, k);
  }

  /** `next_toc_page_url`: the `.next` link when it has a usable href that joins; a `.next`
      anchor without an href ends the search; otherwise the first link, among the
      `a.page-link` ones and then all of them, to page current+1 (u32 arithmetic, wrapping). */
  function NextTocPageUrl(pg: Pagination, join: (string, string) -> Result<string, string>, seriesUrl: string,
                          current: Option<string>): Option<string>
  {
    var currentPage := if current.Some? then ParseTocPageFromUrl(current.value) else 1;
    if pg.next == Some(None) then None
    else if pg.next.Some? && Usable(pg.next.value.value) && Joined(join, seriesUrl, pg.next.value.value).Ok? then
      Some(Joined(join, seriesUrl, pg.next.value.value).value)
    else
      var nextPage := (currentPage + 1) % Model.U32_LIMIT;
      var viaPageLinks := FirstLinkTo(pg.pageLinks, nextPage, join, seriesUrl);
      if viaPageLinks.Some? then viaPageLinks else FirstLinkTo(pg.tocLinks, nextPage, join, seriesUrl)
  }

  /** A usable `.next` href that joins wins over every other link. */
  lemma NextLinkPreferred(pg: Pagination, join: (string, string) -> Result<string, string>, seriesUrl: string,
                          current: Option<string>, href: string)
    requires pg.next == Some(Some(href)) && Usable(href) && Joined(join, seriesUrl, href).Ok?
    ensures NextTocPageUrl(pg, join, seriesUrl, current) == Some(Joined(join, seriesUrl, href).value)
  {
  }

  /** A `.next` link with "#" or nothing as its href, and no link to the following page,
      means there is no next page. */
  lemma NoNextPage(pg: Pagination, join: (string, string) -> Result<string, string>, seriesUrl: string,
                   current: Option<string>)
    requires pg.next.None? || pg.next == Some(None) || pg.next == Some(Some("#")) || pg.next == Some(Some([]))
    requires pg.pageLinks == [] && pg.tocLinks == []
    ensures NextTocPageUrl(pg, join, seriesUrl, current).None?
  {
    forall page: nat ensures FirstLinkTo([], page, join, seriesUrl).None? {
      assert Targets([], page, join, seriesUrl) == [];
    }
  }

  /** Whatever page is chosen is the joined `.next` href or the joined link to the page
      after the current one. */
  lemma NextPageSource(pg: Pagination, join: (string, string) -> Result<string, string>, seriesUrl: string,
                       current: Option<string>)
    requires NextTocPageUrl(pg, join, seriesUrl, current).Some?
    ensures var u := NextTocPageUrl(pg, join, seriesUrl, current).value;
      var nextPage := ((if current.Some? then ParseTocPageFromUrl(current.value) else 1) + 1) % Model.U32_LIMIT;
      (pg.next.Some? && pg.next.value.Some? && Usable(pg.next.value.value) && Joined(join, seriesUrl, pg.next.value.value) == Ok(u))
      || (exists k :: 0 <= k < |pg.pageLinks| && Usable(pg.pageLinks[k]) && ParseTocPageFromUrl(pg.pageLinks[k]) == nextPage
                      && Joined(join, seriesUrl, pg.pageLinks[k]) == Ok(u))
      || (exists k :: 0 <= k < |pg.tocLinks| && Usable(pg.tocLinks[k]) && ParseTocPageFromUrl(pg.tocLinks[k]) == nextPage
                      && Joined(join, seriesUrl, pg.tocLinks[k]) == Ok(u))
  {
    var currentPage := if current.Some? then ParseTocPageFromUrl(current.value) else 1;
    var nextPage := (currentPage + 1) % Model.U32_LIMIT;
    if FirstLinkTo(pg.pageLinks, nextPage, join, seriesUrl).Some? {
      FirstLinkSource(pg.pageLinks, nextPage, join, seriesUrl);
    }
    if FirstLinkTo(pg.tocLinks, nextPage, join, seriesUrl).Some? {
      FirstLinkSource(pg.tocLinks, nextPage, join, seriesUrl);
    }
  }

  // ---------------------------------------------------------------- merging pages

  function OrderKey(e: TocItem): int {
    e.order
  }

  /** The entries of `s` whose URL is not in `seen` and not taken by an earlier entry. */
  function DedupFirst(s: seq<TocItem>, seen: set<string>): (r: seq<TocItem>)
    ensures |r| <= |s|
    decreases |s|
  {
    if s == [] then []
    else if s[0].url in seen then DedupFirst(s[1..], seen)
    else [s[0]] + DedupFirst(s[1..], seen + {s[0].url})
  }

  /** `merge_toc_entries`: a stable sort by order, then the first entry of each URL. */
  function Merged(entries: seq<TocItem>): seq<TocItem> {
    DedupFirst(Sorting.Sort(entries, OrderKey), {})
  }

  lemma DedupUnfold(s: seq<TocItem>, i: nat, seen: set<string>)
    requires i < |s|
    ensures DedupFirst(s[i..], seen)
         == if s[i].url in seen then DedupFirst(s[i + 1..], seen)
            else [s[i]] + DedupFirst(s[i + 1..], seen + {s[i].url})
  {
    assert s[i..][0] == s[i];
    assert s[i..][1..] == s[i + 1..];
  }

  /** `merge_toc_entries`: sort in place, then `retain` with a set of URLs already seen. */
  method MergeTocEntries(entries: seq<TocItem>) returns (all: seq<TocItem>)
    ensures all == Merged(entries)
  {
    var sorted := Sorting.Sort(entries, OrderKey);
    all := [];
    var seen: set<string> := {};
    var i := 0;
    assert sorted[0..] == sorted;
    while i < |sorted|
      invariant 0 <= i <= |sorted|
      invariant all + DedupFirst(sorted[i..], seen) == Merged(entries)
    {
      DedupUnfold(sorted, i, seen);
      if sorted[i].url !in seen {
        seen := seen + {sorted[i].url};
        all := all + [sorted[i]];
      }
      i := i + 1;
    }
    assert sorted[i..] == [];
    assert all + [] == all;
  }

  /** Whether some entry has URL `u`. */
  predicate HasUrl(s: seq<TocItem>, u: string) {
    exists k :: 0 <= k < |s| && s[k].url == u
  }

  /** The first entry with URL `u`. */
  function FirstWithUrl(s: seq<TocItem>, u: string): Option<TocItem>
    decreases |s|
  {
    if s == [] then None else if s[0].url == u then Some(s[0]) else FirstWithUrl(s[1..], u)
  }

  /** Each entry of `r` is an entry of `s` with a URL outside `seen`, and the first entry
      of `s` with that URL. */
  predicate KeptFirst(r: seq<TocItem>, s: seq<TocItem>, seen: set<string>) {
    forall k :: 0 <= k < |r| ==> r[k] in s && r[k].url !in seen && FirstWithUrl(s, r[k].url) == Some(r[k])
  }

  /** Each entry the URL filter keeps is an entry of `s` with a URL not yet seen, and the
      first entry of `s` with that URL. */
  lemma {:induction false} DedupKeepsFirst(s: seq<TocItem>, seen: set<string>)
    ensures KeptFirst(DedupFirst(s, seen), s, seen)
    decreases |s|
  {
    if s != [] {
      var x := s[0];
      var t := s[1..];
      assert forall k :: 1 <= k < |s| ==> s[k] == t[k - 1];
      if x.url in seen {
        DedupKeepsFirst(t, seen);
        var r := DedupFirst(t, seen);
        assert DedupFirst(s, seen) == r;
        forall k | 0 <= k < |r| ensures r[k] in s && r[k].url !in seen && FirstWithUrl(s, r[k].url) == Some(r[k]) {
          assert r[k] in t && r[k].url !in seen && FirstWithUrl(t, r[k].url) == Some(r[k]);
          assert r[k].url != x.url;
        }
      } else {
        var seen' := seen + {x.url};
        DedupKeepsFirst(t, seen');
        var rest := DedupFirst(t, seen');
        var r := [x] + rest;
        assert DedupFirst(s, seen) == r;
        forall k | 0 <= k < |r|
          ensures r[k] in s && r[k].url !in seen && FirstWithUrl(s, r[k].url) == Some(r[k])
        {
          if k > 0 {
            assert r[k] == rest[k - 1];
            assert rest[k - 1] in t && rest[k - 1].url !in seen' && FirstWithUrl(t, rest[k - 1].url) == Some(rest[k - 1]);
          }
        }
      }
    }
  }

  /** No two entries share a URL. */
  predicate UniqueUrls(r: seq<TocItem>) {
    forall i, j :: 0 <= i < j < |r| ==> r[i].url != r[j].url
  }

  /** The URL filter keeps each URL at most once. */
  lemma {:induction false} DedupUnique(s: seq<TocItem>, seen: set<string>)
    ensures forall k :: 0 <= k < |DedupFirst(s, seen)| ==> DedupFirst(s, seen)[k].url !in seen
    ensures UniqueUrls(DedupFirst(s, seen))
    decreases |s|
  {
    if s != [] && s[0].url in seen {
      DedupUnique(s[1..], seen);
      assert DedupFirst(s, seen) == DedupFirst(s[1..], seen);
    } else if s != [] {
      var x := s[0];
      var seen' := seen + {x.url};
      DedupUnique(s[1..], seen');
      var rest := DedupFirst(s[1..], seen');
      var r := [x] + rest;
      assert DedupFirst(s, seen) == r;
      forall i, j | 0 <= i < j < |r| ensures r[i].url != r[j].url {
        assert r[j] == rest[j - 1];
        if i > 0 {
          assert r[i] == rest[i - 1];
        }
      }
    }
  }

  /** Every URL of `s` not yet seen is kept. */
  predicate Covers(r: seq<TocItem>, s: seq<TocItem>, seen: set<string>) {
    forall k :: 0 <= k < |s| && s[k].url !in seen ==> HasUrl(r, s[k].url)
  }

  /** Every URL of `s` not yet seen is kept. */
  lemma {:induction false} DedupCovers(s: seq<TocItem>, seen: set<string>)
    ensures Covers(DedupFirst(s, seen), s, seen)
    decreases |s|
  {
    if s != [] {
      var x := s[0];
      var t := s[1..];
      var seen' := if x.url in seen then seen else seen + {x.url};
      DedupCovers(t, seen');
      var rest := DedupFirst(t, seen');
      var r := DedupFirst(s, seen);
      assert r == (if x.url in seen then [] else [x]) + rest;
      forall k | 0 <= k < |s| && s[k].url !in seen ensures HasUrl(r, s[k].url) {
        if s[k].url == x.url {
          assert r[0].url == x.url;
        } else {
          assert t[k - 1] == s[k];
          assert HasUrl(rest, t[k - 1].url);
          var m :| 0 <= m < |rest| && rest[m].url == s[k].url;
          assert r[|r| - |rest| + m] == rest[m];
        }
      }
    }
  }

  /** The URL filter keeps a sorted list sorted. */
  lemma {:induction false} DedupSorted(s: seq<TocItem>, seen: set<string>)
    requires Sorting.SortedBy(s, OrderKey)
    ensures Sorting.SortedBy(DedupFirst(s, seen), OrderKey)
    decreases |s|
  {
    if s != [] {
      var x := s[0];
      var t := s[1..];
      var seen' := if x.url in seen then seen else seen + {x.url};
      assert Sorting.SortedBy(t, OrderKey) by {
        forall i, j | 0 <= i < j < |t| ensures OrderKey(t[i]) <= OrderKey(t[j]) {
          assert t[i] == s[i + 1] && t[j] == s[j + 1];
        }
      }
      DedupSorted(t, seen');
      if x.url !in seen {
        var rest := DedupFirst(t, seen');
        var r := [x] + rest;
        assert DedupFirst(s, seen) == r;
        DedupKeepsFirst(t, seen');
        forall i, j | 0 <= i < j < |r| ensures OrderKey(r[i]) <= OrderKey(r[j]) {
          assert r[j] == rest[j - 1];
          assert rest[j - 1] in t;
          var m :| 0 <= m < |t| && t[m] == r[j];
          assert s[m + 1] == r[j];
          if i > 0 {
            assert r[i] == rest[i - 1];
          }
        }
      } else {
        assert DedupFirst(s, seen) == DedupFirst(t, seen');
      }
    }
  }

  /** The merged list is sorted by order. */
  lemma MergedSorted(entries: seq<TocItem>)
    ensures Sorting.SortedBy(Merged(entries), OrderKey)
  {
    Sorting.SortSorts(entries, OrderKey);
    DedupSorted(Sorting.Sort(entries, OrderKey), {});
  }

  /** The merged list has no two entries with the same URL. */
  lemma MergedUnique(entries: seq<TocItem>)
    ensures UniqueUrls(Merged(entries))
  {
    DedupUnique(Sorting.Sort(entries, OrderKey), {});
  }

  /** The merged list keeps every URL of the input. */
  lemma MergedCovers(entries: seq<TocItem>)
    ensures forall e :: e in entries ==> HasUrl(Merged(entries), e.url)
  {
    var sorted := Sorting.Sort(entries, OrderKey);
    Sorting.SortPermutes(entries, OrderKey);
    DedupCovers(sorted, {});
    forall e | e in entries ensures HasUrl(Merged(entries), e.url) {
      assert e in multiset(sorted);
      var k :| 0 <= k < |sorted| && sorted[k] == e;
    }
  }

  /** Each merged entry is an input entry, and the first entry with its URL in the stable
      sort by order. */
  lemma MergedKeepsFirst(entries: seq<TocItem>)
    ensures forall e :: e in Merged(entries) ==>
      e in entries && FirstWithUrl(Sorting.Sort(entries, OrderKey), e.url) == Some(e)
  {
    var sorted := Sorting.Sort(entries, OrderKey);
    Sorting.SortPermutes(entries, OrderKey);
    DedupKeepsFirst(sorted, {});
    var r := Merged(entries);
    forall e | e in r ensures e in entries && FirstWithUrl(sorted, e.url) == Some(e) {
      var k :| 0 <= k < |r| && r[k] == e;
      assert e in sorted;
      assert e in multiset(sorted);
    }
  }

  /** The example of the module's tests: page one lists Ch1 and Ch2, page two lists Ch2
      again (same URL, another title) and Ch3; the merge keeps the first Ch2. */
  lemma MergeKeepsFirst(u1: string, u2: string, u3: string)
    requires u1 != u2 && u2 != u3 && u1 != u3
    ensures Merged([TocItem(1, u1, "Ch1"), TocItem(2, u2, "Ch2"), TocItem(2, u2, "Ch2 again"), TocItem(3, u3, "Ch3")])
         == [TocItem(1, u1, "Ch1"), TocItem(2, u2, "Ch2"), TocItem(3, u3, "Ch3")]
  {
    var s := [TocItem(1, u1, "Ch1"), TocItem(2, u2, "Ch2"), TocItem(2, u2, "Ch2 again"), TocItem(3, u3, "Ch3")];
    assert Sorting.SortedBy(s, OrderKey);
    Sorting.SortSorted(s, OrderKey);
    assert s[1..][1..][1..][1..] == [];
    assert DedupFirst(s[1..][1..][1..], {u1, u2}) == [TocItem(3, u3, "Ch3")];
    assert DedupFirst(s[1..][1..], {u1, u2}) == [TocItem(3, u3, "Ch3")];
    assert {u1} + {u2} == {u1, u2};
    assert DedupFirst(s[1..], {u1}) == [TocItem(2, u2, "Ch2"), TocItem(3, u3, "Ch3")];
    assert {} + {u1} == {u1};
  }
}

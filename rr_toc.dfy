/** The Royal Road table of contents: the `window.chapters` entries turned into numbered
    chapter links, locked chapters kept or dropped. */
module RoyalRoadToc {
  import opened Wrappers
  import opened Text
  import opened Model
  import opened Scraper
  import opened RoyalRoadScan
  import Sorting

  // ---------------------------------------------------------------- table of contents

  /** One element of `window.chapters` as it stands in the JSON: `order` and `isUnlocked` may
      be missing. */
  datatype WindowChapter = WindowChapter(id: nat, title: string, url: string, order: Option<U32>, isUnlocked: Option<bool>)

  /** One table-of-contents entry: 1-based index, absolute URL, title, whether readable. */
  datatype TocEntry = TocEntry(index: U32, url: string, title: string, isUnlocked: bool)

  /** The foreign parts of TOC discovery: decoding the array text into entries, and joining
      a relative URL onto the site base. */
  datatype TocParsers = TocParsers(
    decodeChapters: string -> Result<seq<WindowChapter>, string>,
    joinBase: string -> Result<string, string>)

  /** `BASE.join(url.trim_start_matches('/'))` for one window chapter. */
  function ChapterUrl(joinBase: string -> Result<string, string>, ch: WindowChapter): Result<string, string> {
    joinBase(TrimStartChar(ch.url, '/'))
  }

  /** The array text decoded into window chapters. */
  function Decode(parsers: TocParsers, slice: string): Result<seq<WindowChapter>, string> {
    parsers.decodeChapters(slice)
  }

  /** `order + 1` in a `u32`, which wraps in a release build. */
  function IndexOfOrder(order: U32): (index: U32)
    ensures order < Model.U32_LIMIT - 1 ==> index == order + 1
    ensures order == Model.U32_LIMIT - 1 ==> index == 0
  {
    (order + 1) % Model.U32_LIMIT
  }

  /** The entry for one window chapter: a missing order counts as 0, a missing
      `isUnlocked` as true. */
  function EntryOf(ch: WindowChapter, url: string): TocEntry {
    TocEntry(IndexOfOrder(ch.order.GetOr(0)), url, ch.title, ch.isUnlocked.GetOr(true))
  }

  /** An entry's index is its order plus one, 1 when the order is missing; it is locked
      only when `isUnlocked` is present and false. */
  lemma EntryDefaults(ch: WindowChapter, url: string)
    ensures ch.order.None? ==> EntryOf(ch, url).index == 1
    ensures ch.order.Some? && ch.order.value < Model.U32_LIMIT - 1 ==> EntryOf(ch, url).index == ch.order.value + 1
    ensures !EntryOf(ch, url).isUnlocked <==> ch.isUnlocked == Some(false)
    ensures EntryOf(ch, url).url == url && EntryOf(ch, url).title == ch.title
  {
  }

  /** The entries in window order, or the first URL that would not join. */
  function Entries(chapters: seq<WindowChapter>, joinBase: string -> Result<string, string>): (r: Result<seq<TocEntry>, ScraperError>)
    ensures r.Ok? ==> |r.value| == |chapters|
    ensures r.Err? ==> r.error.ChapterListParse?
  {
    if chapters == [] then Ok([])
    else match ChapterUrl(joinBase, chapters[0])
      case Err(e) => Err(ChapterListParse(e))
      case Ok(u) =>
        match Entries(chapters[1..], joinBase)
        case Err(e) => Err(e)
        case Ok(rest) => Ok([EntryOf(chapters[0], u)] + rest)
  }

  function EntryKey(e: TocEntry): int {
    e.index
  }

  const CHAPTERS_NEEDLE := "window.chapters = "

  /** `parse_toc_with_locked`: find the assignment, take the array after it, decode it,
      resolve every URL and sort by index. */
  function TocFromHtml(html: string, parsers: TocParsers): (r: Result<seq<TocEntry>, ScraperError>)
    ensures r.Err? ==> r.error.ChapterListParse?
  {
    match Find(html, CHAPTERS_NEEDLE)
    case None => Err(ChapterListParse("window.chapters not found"))
    case Some(start) =>
      var after := html[start + |CHAPTERS_NEEDLE|..];
      match FindChar(after, '[')
      case None => Err(ChapterListParse("window.chapters array start not found"))
      case Some(bracket) =>
        match JsonArraySpan(after[bracket..])
        case None => Err(ChapterListParse("could not extract window.chapters array"))
        case Some(slice) =>
          match Decode(parsers, slice)
          case Err(e) => Err(ChapterListParse(e))
          case Ok(chapters) =>
            match Entries(chapters, parsers.joinBase)
            case Err(e) => Err(e)
            case Ok(toc) => Ok(Sorting.Sort(toc, EntryKey))
  }

  /** `toc` followed by the entries of a successful resolution; an error stays an error. */
  function After(toc: seq<TocEntry>, r: Result<seq<TocEntry>, ScraperError>): Result<seq<TocEntry>, ScraperError> {
    if r.Err? then r else Ok(toc + r.value)
  }

  lemma EntriesStep(chapters: seq<WindowChapter>, i: nat, joinBase: string -> Result<string, string>, toc: seq<TocEntry>)
    requires i < |chapters|
    ensures var joined := ChapterUrl(joinBase, chapters[i]);
      After(toc, Entries(chapters[i..], joinBase))
      == if joined.Err? then Err(ChapterListParse(joined.error))
         else After(toc + [EntryOf(chapters[i], joined.value)], Entries(chapters[i + 1..], joinBase))
  {
    assert chapters[i..][0] == chapters[i];
    assert chapters[i..][1..] == chapters[i + 1..];
    var joined := ChapterUrl(joinBase, chapters[i]);
    if joined.Ok? && Entries(chapters[i + 1..], joinBase).Ok? {
      var rest := Entries(chapters[i + 1..], joinBase).value;
      assert toc + ([EntryOf(chapters[i], joined.value)] + rest) == (toc + [EntryOf(chapters[i], joined.value)]) + rest;
    }
  }

  lemma EntriesEnds(chapters: seq<WindowChapter>, joinBase: string -> Result<string, string>, toc: seq<TocEntry>)
    ensures After([], Entries(chapters[0..], joinBase)) == Entries(chapters, joinBase)
    ensures After(toc, Entries(chapters[|chapters|..], joinBase)) == Ok(toc)
  {
    assert chapters[0..] == chapters;
    if Entries(chapters, joinBase).Ok? {
      assert [] + Entries(chapters, joinBase).value == Entries(chapters, joinBase).value;
    }
    assert chapters[|chapters|..] == [];
    assert toc + [] == toc;
  }

  /** The loop that resolves each window chapter and pushes its entry. */
  method ResolveEntries(chapters: seq<WindowChapter>, joinBase: string -> Result<string, string>)
    returns (r: Result<seq<TocEntry>, ScraperError>)
    ensures r == Entries(chapters, joinBase)
  {
    var toc: seq<TocEntry> := [];
    var i := 0;
    EntriesEnds(chapters, joinBase, toc);
    while i < |chapters|
      invariant 0 <= i <= |chapters|
      invariant After(toc, Entries(chapters[i..], joinBase)) == Entries(chapters, joinBase)
    {
      EntriesStep(chapters, i, joinBase, toc);
      var ch := chapters[i];
      var joined := ChapterUrl(joinBase, ch);
      if joined.Err? {
        return Err(ChapterListParse(joined.error));
      }
      toc := toc + [EntryOf(ch, joined.value)];
      i := i + 1;
    }
    EntriesEnds(chapters, joinBase, toc);
    r := Ok(toc);
  }

  /** `parse_toc_with_locked`, step by step. */
  method ParseTocWithLocked(html: string, parsers: TocParsers) returns (r: Result<seq<TocEntry>, ScraperError>)
    ensures r == TocFromHtml(html, parsers)
  {
    var start := Find(html, CHAPTERS_NEEDLE);
    if start.None? {
      return Err(ChapterListParse("window.chapters not found"));
    }
    var after := html[start.value + |CHAPTERS_NEEDLE|..];
    var bracket := FindChar(after, '[');
    if bracket.None? {
      return Err(ChapterListParse("window.chapters array start not found"));
    }
    var slice := ExtractJsonArrayWithStrings(after[bracket.value..]);
    if slice.None? {
      return Err(ChapterListParse("could not extract window.chapters array"));
    }
    var decoded := Decode(parsers, slice.value);
    if decoded.Err? {
      return Err(ChapterListParse(decoded.error));
    }
    var toc :- ResolveEntries(decoded.value, parsers.joinBase);
    r := Ok(Sorting.Sort(toc, EntryKey));
  }

  /** Each window chapter with its resolved URL, in window order. */
  lemma {:induction false} EntriesMap(chapters: seq<WindowChapter>, joinBase: string -> Result<string, string>)
    requires Entries(chapters, joinBase).Ok?
    ensures forall k :: 0 <= k < |chapters| ==>
      ChapterUrl(joinBase, chapters[k]).Ok?
      && Entries(chapters, joinBase).value[k] == EntryOf(chapters[k], ChapterUrl(joinBase, chapters[k]).value)
    decreases |chapters|
  {
    if chapters != [] {
      EntriesMap(chapters[1..], joinBase);
      forall k | 1 <= k < |chapters| ensures chapters[1..][k - 1] == chapters[k] { }
    }
  }

  /** The table of contents is sorted by index and holds exactly the decoded entries. */
  lemma TocSortedPermutation(html: string, parsers: TocParsers)
    requires TocFromHtml(html, parsers).Ok?
    ensures Sorting.SortedBy(TocFromHtml(html, parsers).value, EntryKey)
    ensures exists toc :: (Entries(ChaptersOf(html, parsers), parsers.joinBase) == Ok(toc)
                           && multiset(TocFromHtml(html, parsers).value) == multiset(toc))
  {
    var toc := Entries(ChaptersOf(html, parsers), parsers.joinBase).value;
    Sorting.SortSorts(toc, EntryKey);
    Sorting.SortPermutes(toc, EntryKey);
  }

  /** The decoded window chapters of a page whose TOC parsed. */
  function ChaptersOf(html: string, parsers: TocParsers): seq<WindowChapter>
    requires TocFromHtml(html, parsers).Ok?
  {
    var start := Find(html, CHAPTERS_NEEDLE).value;
    var after := html[start + |CHAPTERS_NEEDLE|..];
    var bracket := FindChar(after, '[').value;
    Decode(parsers, JsonArraySpan(after[bracket..]).value).value
  }

  /** No assignment, or no '[' after it, is a chapter-list error naming which. */
  lemma TocMarkersRequired(html: string, parsers: TocParsers)
    ensures Find(html, CHAPTERS_NEEDLE).None? ==>
      TocFromHtml(html, parsers) == Err(ChapterListParse("window.chapters not found"))
    ensures Find(html, CHAPTERS_NEEDLE).Some? && '[' !in html[Find(html, CHAPTERS_NEEDLE).value + |CHAPTERS_NEEDLE|..] ==>
      TocFromHtml(html, parsers) == Err(ChapterListParse("window.chapters array start not found"))
  {
  }

  /** `parse_toc`: the unlocked entries, which must not be none. */
  function ParseToc(html: string, parsers: TocParsers): (r: Result<seq<(U32, string, string)>, ScraperError>)
  {
    match TocFromHtml(html, parsers)
    case Err(e) => Err(e)
    case Ok(toc) =>
      var unlocked := UnlockedOnly(toc);
      if unlocked == [] then Err(EmptyChapterList) else Ok(unlocked)
  }

  function UnlockedOnly(toc: seq<TocEntry>): (r: seq<(U32, string, string)>)
    ensures |r| <= |toc|
  {
    if toc == [] then []
    else (if toc[0].isUnlocked then [(toc[0].index, toc[0].url, toc[0].title)] else []) + UnlockedOnly(toc[1..])
  }

  /** The unlocked entries keep their order, and every unlocked entry is kept. */
  lemma {:induction false} UnlockedOnlyKeeps(toc: seq<TocEntry>)
    ensures forall x :: x in UnlockedOnly(toc) <==> exists e :: e in toc && e.isUnlocked && x == (e.index, e.url, e.title)
    decreases |toc|
  {
    if toc != [] {
      UnlockedOnlyKeeps(toc[1..]);
      assert forall e :: e in toc <==> e == toc[0] || e in toc[1..];
    }
  }

  /** No unlocked entry is left exactly when every entry is locked. */
  lemma UnlockedOnlyEmpty(toc: seq<TocEntry>)
    ensures UnlockedOnly(toc) == [] <==> forall e :: e in toc ==> !e.isUnlocked
  {
    UnlockedOnlyKeeps(toc);
    if UnlockedOnly(toc) != [] {
      assert UnlockedOnly(toc)[0] in UnlockedOnly(toc);
    }
  }

  /** `parse_toc` fails with `EmptyChapterList` exactly when every entry is locked. */
  lemma ParseTocEmpty(html: string, parsers: TocParsers)
    requires TocFromHtml(html, parsers).Ok?
    ensures ParseToc(html, parsers) == Err(EmptyChapterList)
      <==> forall e :: e in TocFromHtml(html, parsers).value ==> !e.isUnlocked
  {
    UnlockedOnlyEmpty(TocFromHtml(html, parsers).value);
  }
}

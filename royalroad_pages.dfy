/** What the Royal Road adapter reads out of one page: the fiction URL check, the story
    metadata and a chapter page. The HTML document itself is seen through records of the
    elements the adapter selects. */
module RoyalRoadPages {
  import opened Wrappers
  import opened Text
  import opened Model
  import opened Scraper
  import opened RoyalRoadScan

  const ROYALROAD_BASE: string := "https://www.royalroad.com"

  /** The site suffixes stripped from page titles, in the order they are tried. */
  const TITLE_SUFFIXES: seq<string> := [" _ Royal Road", " - Royal Road", " | Royal Road"]
  // ---------------------------------------------------------------- fiction URL

  /** `ensure_fiction_url`: the URL must parse, and its path must not be a chapter path.
      `parsed` is what `Url::parse(url)` returned. */
  function EnsureFictionUrl(url: string, parsed: Result<Url, string>): (r: Result<string, ScraperError>)
  {
    if parsed.Err? then Err(InvalidUrl(url, parsed.error))
    else if IsChapterPath(parsed.value.path) then
      Err(ParseStoryPage(NOT_A_FICTION_URL))
    else Ok(url)
  }

  /** The message given for a chapter URL. */
  const NOT_A_FICTION_URL: string := "Expected a fiction (index) URL, not a chapter URL. Use the story page, e.g. https://www.royalroad.com/fiction/21220/mother-of-learning"

  /** A path that names a chapter rather than a fiction. */
  predicate IsChapterPath(path: string) {
    Contains(path, "/chapter/")
  }

  /** A parsed URL is accepted exactly when its path has no "/chapter/", and then it is
      returned unchanged; an unparseable one is reported with the input. */
  lemma FictionUrlAccepted(url: string, parsed: Result<Url, string>)
    ensures EnsureFictionUrl(url, parsed) == Ok(url) <==> parsed.Ok? && !IsChapterPath(parsed.value.path)
    ensures parsed.Err? ==> EnsureFictionUrl(url, parsed) == Err(InvalidUrl(url, parsed.error))
    ensures parsed.Ok? && IsChapterPath(parsed.value.path) ==>
      EnsureFictionUrl(url, parsed).Err? && EnsureFictionUrl(url, parsed).error.ParseStoryPage?
  {
    if parsed.Ok? {
      var path := parsed.value.path;
      if IsChapterPath(path) {
        assert EnsureFictionUrl(url, parsed).error.ParseStoryPage?;
      } else {
        assert EnsureFictionUrl(url, parsed) == Ok(url);
      }
    }
  }
  // ---------------------------------------------------------------- metadata

  /** The JSON-LD object of the first `application/ld+json` script, if it parsed: whether
      its `@type` is "Book", and the string values of name, author.name, description and
      image where present. */
  datatype LdObject = LdObject(isBook: bool, name: Option<string>, authorName: Option<string>,
                               description: Option<string>, image: Option<string>)

  /** The DOM fallback: the text of the first `h1.font-white`, `h4 a.font-white` and
      `.description`, and the `content` of the first `og:image` meta, where present. */
  datatype StoryDom = StoryDom(heading: Option<string>, author: Option<string>,
                               description: Option<string>, ogImage: Option<string>)

  const MISSING_TITLE_OR_AUTHOR: string := "missing title or author (selector or structure may have changed)"

  datatype Metadata = Metadata(title: string, author: string, description: Option<string>, coverUrl: Option<string>)

  function NonEmpty(o: Option<string>): (r: Option<string>)
    ensures r.Some? <==> o.Some? && o.value != []
    ensures r.Some? ==> r.value == o.value
  {
    if o.Some? && o.value != [] then o else None
  }

  function MapOpt(o: Option<string>, f: string -> string): Option<string> {
    if o.Some? then Some(f(o.value)) else None
  }

  /** The metadata a JSON-LD object gives when it is a Book with a non-empty name and
      author name: the description without its tags, and the image, each only if
      non-empty. Both adapters read JSON-LD this way. */
  function LdMetadata(ld: Option<LdObject>): Option<Metadata> {
    if ld.Some? && ld.value.isBook then
      var title := NonEmpty(ld.value.name);
      var author := NonEmpty(ld.value.authorName);
      if title.Some? && author.Some? then
        Some(Metadata(title.value, author.value, NonEmpty(MapOpt(ld.value.description, StrippedTags)), NonEmpty(ld.value.image)))
      else None
    else None
  }

  /** `parse_metadata`: JSON-LD first when it is a Book with a name and an author, else
      the DOM; both need a non-empty title and author. */
  function ParseMetadata(ld: Option<LdObject>, dom: StoryDom): (r: Result<Metadata, ScraperError>)
  {
    var fromLd := LdMetadata(ld);
    if fromLd.Some? then Ok(fromLd.value)
    else
      var title := NonEmpty(MapOpt(dom.heading, Trim));
      var author := NonEmpty(MapOpt(dom.author, Trim));
      if title.Some? && author.Some? then
        Ok(Metadata(title.value, author.value, NonEmpty(MapOpt(dom.description, Trim)), NonEmpty(dom.ogImage)))
      else Err(ParseStoryPage(MISSING_TITLE_OR_AUTHOR))
  }

  /** Metadata always has a title and an author, and optional fields are never empty. */
  lemma MetadataComplete(ld: Option<LdObject>, dom: StoryDom)
    requires ParseMetadata(ld, dom).Ok?
    ensures var m := ParseMetadata(ld, dom).value;
      m.title != [] && m.author != [] && m.description != Some([]) && m.coverUrl != Some([])
  {
  }

  /** A JSON-LD Book with a name and an author wins over the DOM. */
  lemma LdPreferred(ld: LdObject, dom: StoryDom)
    requires ld.isBook && NonEmpty(ld.name).Some? && NonEmpty(ld.authorName).Some?
    ensures ParseMetadata(Some(ld), dom).Ok?
    ensures ParseMetadata(Some(ld), dom).value.title == ld.name.value
    ensures ParseMetadata(Some(ld), dom).value.author == ld.authorName.value
  {
  }

  /** Metadata fails only when both sources lack a title or an author. */
  lemma MetadataFailure(ld: Option<LdObject>, dom: StoryDom)
    ensures ParseMetadata(ld, dom).Err? <==>
      !(ld.Some? && ld.value.isBook && NonEmpty(ld.value.name).Some? && NonEmpty(ld.value.authorName).Some?)
      && (NonEmpty(MapOpt(dom.heading, Trim)).None? || NonEmpty(MapOpt(dom.author, Trim)).None?)
  {
  }

  // ---------------------------------------------------------------- chapter page

  /** A chapter page as the adapter selects it: the text of the first
      `h1.font-white.break-word`, the `content` of the first `og:title` meta, the first text
      of `<title>`, whether `div.chapter-inner.chapter-content` exists, and the text of
      each of its direct `<p>` children. */
  datatype ChapterPage = ChapterPage(heading: Option<string>, ogTitle: Option<string>, titleText: Option<string>,
                                     hasContainer: bool, paragraphs: seq<string>)

  /** The title fallback chain: heading, then og:title, then `<title>` without the site
      suffix, then "Chapter {index}"; each step only if non-empty. */
  function ChapterTitle(page: ChapterPage, index: U32): string {
    var heading := NonEmpty(MapOpt(page.heading, Trim));
    var og := NonEmpty(MapOpt(page.ogTitle, StripSuffix));
    var title := NonEmpty(MapOpt(page.titleText, StripSuffix));
    if heading.Some? then heading.value
    else if og.Some? then og.value
    else if title.Some? then title.value
    else ChapterNumberTitle(index)
  }

  function StripSuffix(s: string): string {
    StrippedTitle(Trim(s), TITLE_SUFFIXES)
  }

  /** `parse_chapter_page`: the title and the body, or `ParseChapter` when the content
      container is missing or has no paragraphs. */
  function ParseChapterPage(page: ChapterPage, index: U32, url: string): (r: Result<(string, string), ScraperError>)
  {
    var title := ChapterTitle(page, index);
    if !page.hasContainer then Err(ParseChapter(index, url))
    else
      var body := ParagraphsToBody(page.paragraphs);
      if body == [] then Err(ParseChapter(index, url)) else Ok((title, body))
  }

  /** A parsed chapter has a non-empty title and a non-empty body; it fails, always with
      `ParseChapter` for this index and URL, exactly when there is no container or no
      paragraph in it. */
  lemma ChapterPageOutcome(page: ChapterPage, index: U32, url: string)
    ensures ParseChapterPage(page, index, url).Ok? ==>
      ParseChapterPage(page, index, url).value.0 != [] && ParseChapterPage(page, index, url).value.1 != []
    ensures ParseChapterPage(page, index, url).Err? <==> !page.hasContainer || page.paragraphs == []
    ensures ParseChapterPage(page, index, url).Err? ==> ParseChapterPage(page, index, url).error == ParseChapter(index, url)
  {
  }

  /** With no usable heading or page title the title is "Chapter {index}". */
  lemma ChapterTitleFallback(page: ChapterPage, index: U32)
    requires page.heading.None? && page.ogTitle.None? && page.titleText.None?
    ensures ChapterTitle(page, index) == "Chapter " + NatToString(index)
  {
  }

  /** The og:title loses its Royal Road suffix. */
  lemma OgTitleStripped(x: string, index: U32)
    requires x != [] && !IsWhitespace(x[0]) && !IsWhitespace(x[|x| - 1])
    ensures ChapterTitle(ChapterPage(None, Some(x + " | Royal Road"), None, true, []), index) == x
  {
    StripSuffixedTitle(x, TITLE_SUFFIXES, 2);
    assert Trim(x) == x by { TrimOfTrimmed(x); }
    assert Trim(x + " | Royal Road") == x + " | Royal Road" by { TrimOfTrimmed(x + " | Royal Road"); }
  }
}

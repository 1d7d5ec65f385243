/** What the Scribble Hub adapter reads out of the series page and a chapter page: the
    JSON-LD scan of the metadata with its DOM fallback, and the chapter title and body. The
    HTML document is seen through records of the elements the adapter selects; a JSON-LD
    script body is read by `parseLd`, which stands for `serde_json`. The scan itself is
    stated for any tags and any reader of a script's text. */
module ScribbleHubPages {
  import opened Wrappers
  import opened Text
  import opened Model
  import opened Scraper
  import opened RoyalRoadPages

  const LD_JSON_OPEN: string := "<script type=\"application/ld+json\">"
  const LD_JSON_CLOSE: string := "</script>"

  /** The tags around a JSON-LD script. The scan is stated for any pair of tags, so that its
      proofs do not look into the text of the two tags; `parse_metadata` uses `LD_TAGS`. */
  datatype Tags = Tags(open: string, close: string)

  const LD_TAGS: Tags := Tags(LD_JSON_OPEN, LD_JSON_CLOSE)

  // ---------------------------------------------------------------- the JSON-LD scan

  /** The text of one JSON-LD script: from just past an opening tag to the next closing
      tag, or to the end of the document when the script is not closed. */
  datatype LdScript = LdScript(text: string, closed: bool)

  /** The next script at or after `from`: `html[from..].find(open)`, then
      `html[start..].find(close)`, and the position past the closing tag where the search
      goes on. */
  function NextScript(tags: Tags, html: string, from: nat): (r: Option<(LdScript, nat)>)
    requires from <= |html|
    ensures r.Some? && r.value.0.closed ==> from + |tags.close| <= r.value.1 <= |html|
  {
    match FindFrom(html, tags.open, from)
    case None => None
    case Some(i) =>
      var start := i + |tags.open|;
      match FindFrom(html, tags.close, start)
      case Some(end) => Some((LdScript(html[start..end], true), end + |tags.close|))
      case None => Some((LdScript(html[start..], false), |html| + |tags.close|))
  }

  /** `NextScript` from the positions of the two tags. */
  lemma NextScriptFrom(tags: Tags, html: string, from: nat, i: nat)
    requires from <= |html| && FindFrom(html, tags.open, from) == Some(i)
    ensures FindFrom(html, tags.close, i + |tags.open|).Some? ==>
      var end := FindFrom(html, tags.close, i + |tags.open|).value;
      NextScript(tags, html, from) == Some((LdScript(html[i + |tags.open|..end], true), end + |tags.close|))
    ensures FindFrom(html, tags.close, i + |tags.open|).None? ==>
      NextScript(tags, html, from) == Some((LdScript(html[i + |tags.open|..], false), |html| + |tags.close|))
  {
  }

  /** The scripts of the document in order, as the loop of `parse_metadata` meets them. An
      unclosed script is the last one: the search would go on past the end of the document. */
  function LdScripts(tags: Tags, html: string, from: nat): (r: seq<LdScript>)
    requires tags.close != [] && from <= |html|
    decreases |html| - from
  {
    match NextScript(tags, html, from)
    case None => []
    case Some((script, next)) => if script.closed then [script] + LdScripts(tags, html, next) else [script]
  }

  /** How `parse_metadata` reads one script's text: trimmed, parsed as JSON, and kept when
      it is a Book with a name and an author. */
  function ScriptReader(parseLd: string -> Option<LdObject>): string -> Option<Metadata> {
    t => LdMetadata(parseLd(Trim(t)))
  }

  /** The scan as intended: the first script that reads to a Book's metadata, where a
      script without a closing tag is the last one tried. */
  function FirstBook(scripts: seq<LdScript>, read: string -> Option<Metadata>): (r: Option<Metadata>)
    ensures r.Some? ==> exists i :: 0 <= i < |scripts| && read(scripts[i].text) == r
  {
    if scripts == [] then None
    else if read(scripts[0].text).Some? then read(scripts[0].text)
    else if !scripts[0].closed then None
    else FirstBook(scripts[1..], read)
  }

  /** How the loop of `parse_metadata` ends as the source writes it: with the metadata of
      the first script that is a Book with a name and an author, with no such script, or,
      after an unclosed script that is no such Book, with the slice `html[search_start..]`
      starting past the end of the document, which panics. */
  datatype LdScan = FoundBook(meta: Metadata) | NoBook | SlicePanic

  /** The loop as written: an unclosed script that is not a Book sets the next search start
      beyond the end of the document. */
  function ScanAsWritten(scripts: seq<LdScript>, read: string -> Option<Metadata>): LdScan {
    if scripts == [] then NoBook
    else if read(scripts[0].text).Some? then FoundBook(read(scripts[0].text).value)
    else if !scripts[0].closed then SlicePanic
    else ScanAsWritten(scripts[1..], read)
  }

  /** What `parse_metadata` takes from the written scan when it does not panic. */
  function FoundMeta(w: LdScan): Option<Metadata> {
    if w.FoundBook? then Some(w.meta) else None
  }

  /** The intended scan finds exactly the Book the written one finds; where the written one
      finds none or panics, the intended one finds none (so the metadata falls back to the
      DOM). */
  lemma {:induction false} ScanAgrees(scripts: seq<LdScript>, read: string -> Option<Metadata>)
    ensures FirstBook(scripts, read) == FoundMeta(ScanAsWritten(scripts, read))
  {
    if scripts != [] && read(scripts[0].text).None? && scripts[0].closed {
      ScanAgrees(scripts[1..], read);
    }
  }

  /** The written loop panics exactly when no script before an unclosed one is a Book, the
      unclosed one is not either, and the document has such a script. */
  lemma {:induction false} PanicsOnUnclosed(scripts: seq<LdScript>, read: string -> Option<Metadata>)
    ensures ScanAsWritten(scripts, read).SlicePanic? <==>
      exists i :: 0 <= i < |scripts| && !scripts[i].closed
        && forall j :: 0 <= j <= i ==> read(scripts[j].text).None?
  {
    if scripts != [] {
      PanicsOnUnclosed(scripts[1..], read);
      if ScanAsWritten(scripts, read).SlicePanic? && read(scripts[0].text).None? && scripts[0].closed {
        var i :| 0 <= i < |scripts[1..]| && !scripts[1..][i].closed
          && forall j :: 0 <= j <= i ==> read(scripts[1..][j].text).None?;
        assert forall j :: 0 <= j <= i + 1 ==> read(scripts[j].text).None? by {
          forall j | 0 <= j <= i + 1 ensures read(scripts[j].text).None? {
            if j > 0 { assert scripts[j] == scripts[1..][j - 1]; }
          }
        }
      }
      if exists i :: 0 <= i < |scripts| && !scripts[i].closed && forall j :: 0 <= j <= i ==> read(scripts[j].text).None? {
        var i :| 0 <= i < |scripts| && !scripts[i].closed && forall j :: 0 <= j <= i ==> read(scripts[j].text).None?;
        if i > 0 && scripts[0].closed {
          assert !scripts[1..][i - 1].closed;
          assert forall j :: 0 <= j <= i - 1 ==> read(scripts[1..][j].text).None? by {
            forall j | 0 <= j <= i - 1 ensures read(scripts[1..][j].text).None? {
              assert scripts[1..][j] == scripts[j + 1];
            }
          }
        }
      }
    }
  }

  /** A document whose only JSON-LD script has no closing tag and is not a Book, such as
      `<script type="application/ld+json">{}`, makes the written loop panic; the intended
      scan finds no Book. */
  lemma UnterminatedScriptPanics(parseLd: string -> Option<LdObject>)
    requires LdMetadata(parseLd("{}")).None?
    ensures LdScripts(LD_TAGS, LD_JSON_OPEN + "{}", 0) == [LdScript("{}", false)]
    ensures ScanAsWritten(LdScripts(LD_TAGS, LD_JSON_OPEN + "{}", 0), ScriptReader(parseLd)) == SlicePanic
    ensures FirstBook(LdScripts(LD_TAGS, LD_JSON_OPEN + "{}", 0), ScriptReader(parseLd)).None?
  {
    UnclosedScript(LD_TAGS, "{}");
    assert ScriptReader(parseLd)("{}").None? by {
      assert "{}"[0] == '{' && "{}"[1] == '}';
      TrimOfTrimmed("{}");
    }
  }

  /** A document that is an opening tag followed by text without a closing tag holds one
      script, which is unclosed. */
  lemma UnclosedScript(tags: Tags, t: string)
    requires tags.close != [] && Absent(t, tags.close)
    ensures LdScripts(tags, tags.open + t, 0) == [LdScript(t, false)]
  {
    var html := tags.open + t;
    var start := |tags.open|;
    assert OccursAt(html, tags.open, 0) by { assert html[0..start] == tags.open; }
    FindFromAt(html, tags.open, 0, 0);
    assert html[start..] == t;
    FindFromFirst(html, tags.close, start);
    if FindFrom(html, tags.close, start).Some? {
      var k := FindFrom(html, tags.close, start).value;
      assert html[k..k + |tags.close|] == t[k - start..k - start + |tags.close|];
      assert OccursAt(t, tags.close, k - start);
      assert false;
    }
    NextScriptFrom(tags, html, 0, 0);
  }

  /** The closing tag starts with '<' and has no other '<'. */
  predicate LoneLeadingAngle(c: string) {
    c != [] && c[0] == '<' && forall d :: 0 < d < |c| ==> c[d] != '<'
  }

  /** `LD_JSON_CLOSE` is such a tag. */
  lemma LdCloseLoneAngle()
    ensures LoneLeadingAngle(LD_TAGS.close)
  {
  }

  /** The first opening tag at `at` and the first closing tag after it at `end` delimit the
      first script, which is closed. */
  lemma FirstScriptAt(tags: Tags, html: string, at: nat, end: nat)
    requires LoneLeadingAngle(tags.close)
    requires OccursAt(html, tags.open, at) && forall j: nat :: j < at ==> !OccursAt(html, tags.open, j)
    requires at + |tags.open| <= end && OccursAt(html, tags.close, end)
    requires Absent(html[at + |tags.open|..end], tags.close)
    ensures LdScripts(tags, html, 0) != []
    ensures LdScripts(tags, html, 0)[0] == LdScript(html[at + |tags.open|..end], true)
  {
    var start := at + |tags.open|;
    FindFromAt(html, tags.open, 0, at);
    forall j: nat | start <= j < end ensures !OccursAt(html, tags.close, j) {
      CloseNotBefore(tags.close, html, start, end, j);
    }
    FindFromAt(html, tags.close, start, end);
    NextScriptFrom(tags, html, 0, at);
    ScriptsFromNext(tags, html, 0);
  }

  /** A document that starts, after a stretch with no opening tag, with a closed script
      whose text is a Book with a name and an author, gives that Book's metadata, whatever
      follows. */
  lemma FirstBookScriptWins(tags: Tags, pre: string, json: string, post: string, read: string -> Option<Metadata>)
    requires LoneLeadingAngle(tags.close)
    requires forall j: nat :: j < |pre| ==> !OccursAt(pre + tags.open + json + tags.close + post, tags.open, j)
    requires Absent(json, tags.close)
    requires read(json).Some?
    ensures LdScripts(tags, pre + tags.open + json + tags.close + post, 0) != []
    ensures LdScripts(tags, pre + tags.open + json + tags.close + post, 0)[0] == LdScript(json, true)
    ensures FirstBook(LdScripts(tags, pre + tags.open + json + tags.close + post, 0), read) == read(json)
  {
    var html := pre + tags.open + json + tags.close + post;
    var end := |pre| + |tags.open| + |json|;
    ConcatParts(pre, tags.open, json, tags.close, post);
    FirstScriptAt(tags, html, |pre|, end);
    var scripts := LdScripts(tags, html, 0);
    assert read(scripts[0].text) == read(json);
  }

  /** Where the parts of `a + b + c + d + e` sit. */
  lemma ConcatParts(a: string, b: string, c: string, d: string, e: string)
    ensures var s := a + b + c + d + e;
      var i, j := |a| + |b|, |a| + |b| + |c|;
      && s[|a|..i] == b && s[i..j] == c && j + |d| <= |s| && s[j..j + |d|] == d
      && OccursAt(s, b, |a|) && OccursAt(s, d, j)
  {
    var s := a + b + c + d + e;
    var i, j := |a| + |b|, |a| + |b| + |c|;
    assert s[|a|..i] == b;
    assert s[i..j] == c;
    assert s[j..j + |d|] == d;
  }

  /** The scripts from `from` are the next one and, when it is closed, those after it. */
  lemma ScriptsFromNext(tags: Tags, html: string, from: nat)
    requires tags.close != [] && from <= |html| && NextScript(tags, html, from).Some?
    ensures var (script, next) := NextScript(tags, html, from).value;
      LdScripts(tags, html, from) == [script] + (if script.closed then LdScripts(tags, html, next) else [])
  {
  }

  /** The closing tag cannot start inside a stretch `s[lo..hi]` free of it when a closing
      tag starts at `hi`, because the tag has no proper suffix that is also a prefix. */
  lemma CloseNotBefore(c: string, s: string, lo: nat, hi: nat, j: nat)
    requires LoneLeadingAngle(c)
    requires lo <= j < hi && OccursAt(s, c, hi)
    requires Absent(s[lo..hi], c)
    ensures !OccursAt(s, c, j)
  {
    if j + |c| <= hi {
      var inner := s[lo..hi][j - lo..j - lo + |c|];
      var outer := s[j..j + |c|];
      assert forall k :: 0 <= k < |c| ==> inner[k] == outer[k];
      assert inner == outer;
      assert !OccursAt(s[lo..hi], c, j - lo);
    } else if j + |c| <= |s| {
      var d := hi - j;
      assert s[hi] == c[0];
      assert s[j..j + |c|][d] == s[hi];
    }
  }

  /** One step of the intended scan over the scripts from `from`. */
  lemma FirstBookStep(tags: Tags, html: string, from: nat, read: string -> Option<Metadata>)
    requires tags.close != [] && from <= |html|
    ensures NextScript(tags, html, from).None? ==> FirstBook(LdScripts(tags, html, from), read).None?
    ensures NextScript(tags, html, from).Some? ==>
      var (script, next) := NextScript(tags, html, from).value;
      FirstBook(LdScripts(tags, html, from), read)
        == if read(script.text).Some? || !script.closed then read(script.text)
           else FirstBook(LdScripts(tags, html, next), read)
  {
    var scripts := LdScripts(tags, html, from);
    if NextScript(tags, html, from).Some? {
      var (script, next) := NextScript(tags, html, from).value;
      if script.closed {
        assert scripts == [script] + LdScripts(tags, html, next);
        assert scripts[1..] == LdScripts(tags, html, next);
      }
    }
  }

  /** `parse_metadata`'s loop over every `application/ld+json` script, as the source
      writes it but stopping after a script without a closing tag; the two searches of one
      round are `NextScript`. */
  method ScanLdScripts(tags: Tags, html: string, read: string -> Option<Metadata>) returns (r: Option<Metadata>)
    requires tags.close != []
    ensures r == FirstBook(LdScripts(tags, html, 0), read)
  {
    r := None;
    var searchStart := 0;
    var scanning := true;
    while scanning
      invariant searchStart <= |html|
      invariant scanning ==> FirstBook(LdScripts(tags, html, searchStart), read) == FirstBook(LdScripts(tags, html, 0), read)
      invariant !scanning ==> r == FirstBook(LdScripts(tags, html, 0), read)
      decreases |html| - searchStart, scanning
    {
      var next := NextScript(tags, html, searchStart);
      FirstBookStep(tags, html, searchStart, read);
      if next.None? {
        r := None;
        scanning := false;
      } else {
        var (script, after) := next.value;
        var meta := read(script.text);
        if meta.Some? || !script.closed {
          r := meta;
          scanning := false;
        } else {
          searchStart := after;
        }
      }
    }
  }

  // ---------------------------------------------------------------- metadata

  /** The DOM fallback: the text of the first `div.fic_title`, the `content` of the first
      `og:title` meta, the text of the author's `span.auth_name_fic` and of the author link,
      and the `content` of the first `og:image` meta, where present. */
  datatype SeriesDom = SeriesDom(ficTitle: Option<string>, ogTitle: Option<string>, authorName: Option<string>,
                                 authorLink: Option<string>, ogImage: Option<string>)

  /** The DOM title: the trimmed `div.fic_title` text, else the `og:title` content as is. */
  function DomTitle(dom: SeriesDom): Option<string> {
    var fic := NonEmpty(MapOpt(dom.ficTitle, Trim));
    if fic.Some? then fic else NonEmpty(dom.ogTitle)
  }

  /** The DOM author: the trimmed name span, else the trimmed author link text. */
  function DomAuthor(dom: SeriesDom): Option<string> {
    var span := NonEmpty(MapOpt(dom.authorName, Trim));
    if span.Some? then span else NonEmpty(MapOpt(dom.authorLink, Trim))
  }

  /** `parse_metadata` with the intended scan: the first JSON-LD Book with a name and an
      author, else the DOM, which has no description; both need a title and an author. */
  function ParseSeriesMetadata(html: string, parseLd: string -> Option<LdObject>, dom: SeriesDom): Result<Metadata, ScraperError> {
    var fromLd := FirstBook(LdScripts(LD_TAGS, html, 0), ScriptReader(parseLd));
    if fromLd.Some? then Ok(fromLd.value)
    else
      var title := DomTitle(dom);
      var author := DomAuthor(dom);
      if title.Some? && author.Some? then Ok(Metadata(title.value, author.value, None, NonEmpty(dom.ogImage)))
      else Err(ParseStoryPage(MISSING_TITLE_OR_AUTHOR))
  }

  /** Metadata with a non-empty title and author and no empty optional field. */
  predicate Complete(m: Metadata) {
    m.title != [] && m.author != [] && m.description != Some([]) && m.coverUrl != Some([])
  }

  /** What a script reads to is complete metadata. */
  lemma ReaderComplete(parseLd: string -> Option<LdObject>, t: string)
    ensures ScriptReader(parseLd)(t).Some? ==> Complete(ScriptReader(parseLd)(t).value)
  {
    var ld := parseLd(Trim(t));
    var read := LdMetadata(ld);
    assert ScriptReader(parseLd)(t) == read;
    if read.Some? {
      assert ld.Some? && ld.value.isBook;
      var title := NonEmpty(ld.value.name);
      var author := NonEmpty(ld.value.authorName);
      var description := NonEmpty(MapOpt(ld.value.description, RoyalRoadScan.StrippedTags));
      var cover := NonEmpty(ld.value.image);
      assert title.Some? && author.Some?;
      assert read.value == Metadata(title.value, author.value, description, cover);
      assert title.value != [] && author.value != [];
      assert description != Some([]) && cover != Some([]);
    }
  }

  /** The first Book of a script list is complete metadata. */
  lemma {:induction false} FirstBookComplete(scripts: seq<LdScript>, parseLd: string -> Option<LdObject>)
    ensures FirstBook(scripts, ScriptReader(parseLd)).Some? ==>
      Complete(FirstBook(scripts, ScriptReader(parseLd)).value)
    decreases |scripts|
  {
    if scripts != [] {
      ReaderComplete(parseLd, scripts[0].text);
      FirstBookComplete(scripts[1..], parseLd);
    }
  }

  /** Metadata always has a title and an author, and no optional field is empty. */
  lemma SeriesMetadataComplete(html: string, parseLd: string -> Option<LdObject>, dom: SeriesDom)
    requires ParseSeriesMetadata(html, parseLd, dom).Ok?
    ensures var m := ParseSeriesMetadata(html, parseLd, dom).value;
      m.title != [] && m.author != [] && m.description != Some([]) && m.coverUrl != Some([])
  {
    var scripts := LdScripts(LD_TAGS, html, 0);
    var found := FirstBook(scripts, ScriptReader(parseLd));
    var m := ParseSeriesMetadata(html, parseLd, dom).value;
    if found.Some? {
      FirstBookComplete(scripts, parseLd);
      assert m == found.value;
    } else {
      var title := DomTitle(dom);
      var author := DomAuthor(dom);
      assert title.Some? && author.Some?;
      assert m == Metadata(title.value, author.value, None, NonEmpty(dom.ogImage));
    }
  }

  /** Without a JSON-LD Book the metadata comes from the DOM, has no description, and fails
      exactly when the DOM has no title or no author. */
  lemma DomFallback(html: string, parseLd: string -> Option<LdObject>, dom: SeriesDom)
    requires FirstBook(LdScripts(LD_TAGS, html, 0), ScriptReader(parseLd)).None?
    ensures ParseSeriesMetadata(html, parseLd, dom).Ok? <==> DomTitle(dom).Some? && DomAuthor(dom).Some?
    ensures ParseSeriesMetadata(html, parseLd, dom).Ok? ==> ParseSeriesMetadata(html, parseLd, dom).value.description.None?
    ensures ParseSeriesMetadata(html, parseLd, dom).Err? ==>
      ParseSeriesMetadata(html, parseLd, dom).error == ParseStoryPage(MISSING_TITLE_OR_AUTHOR)
  {
  }

  /** A `div.fic_title` with text wins over `og:title`, which is used untrimmed. */
  lemma FicTitlePreferred(dom: SeriesDom)
    ensures NonEmpty(MapOpt(dom.ficTitle, Trim)).Some? ==> DomTitle(dom) == Some(Trim(dom.ficTitle.value))
    ensures NonEmpty(MapOpt(dom.ficTitle, Trim)).None? && dom.ogTitle.Some? && dom.ogTitle.value != [] ==>
      DomTitle(dom) == dom.ogTitle
  {
  }

  // ---------------------------------------------------------------- chapter page

  const SH_TITLE_SUFFIXES: seq<string> := [" | Scribble Hub", " - Scribble Hub"]

  /** A Scribble Hub chapter page as the adapter selects it: the text of the first
      `div.chapter-title`, the first text of `<title>`, whether `#chp_raw.chp_raw` exists,
      and the text of each of its direct `<p>` children. */
  datatype ShChapterPage = ShChapterPage(chapterTitle: Option<string>, titleText: Option<string>,
                                         hasContainer: bool, paragraphs: seq<string>)

  function StripShSuffix(s: string): string {
    StrippedTitle(Trim(s), SH_TITLE_SUFFIXES)
  }

  /** The title fallback chain: the trimmed `div.chapter-title`, then `<title>` without the
      site suffix, then "Chapter {index}"; each step only if non-empty. */
  function ShChapterTitle(page: ShChapterPage, index: U32): string {
    var heading := NonEmpty(MapOpt(page.chapterTitle, Trim));
    var title := NonEmpty(MapOpt(page.titleText, StripShSuffix));
    if heading.Some? then heading.value
    else if title.Some? then title.value
    else ChapterNumberTitle(index)
  }

  /** `parse_chapter_page`: the title and the body, or `ParseChapter` when the content
      container is missing or has no paragraphs. */
  function ParseShChapterPage(page: ShChapterPage, index: U32, url: string): Result<(string, string), ScraperError> {
    var title := ShChapterTitle(page, index);
    if !page.hasContainer then Err(ParseChapter(index, url))
    else
      var body := ParagraphsToBody(page.paragraphs);
      if body == [] then Err(ParseChapter(index, url)) else Ok((title, body))
  }

  /** A parsed chapter has a non-empty title and body; it fails, always with
      `ParseChapter` for this index and URL, exactly when there is no container or no
      paragraph in it. */
  lemma ShChapterPageOutcome(page: ShChapterPage, index: U32, url: string)
    ensures ParseShChapterPage(page, index, url).Ok? ==>
      ParseShChapterPage(page, index, url).value.0 != [] && ParseShChapterPage(page, index, url).value.1 != []
    ensures ParseShChapterPage(page, index, url).Err? <==> !page.hasContainer || page.paragraphs == []
    ensures ParseShChapterPage(page, index, url).Err? ==> ParseShChapterPage(page, index, url).error == ParseChapter(index, url)
  {
  }

  /** With neither a chapter title nor a page title the title is "Chapter {index}". */
  lemma ShChapterTitleFallback(page: ShChapterPage, index: U32)
    requires page.chapterTitle.None? && page.titleText.None?
    ensures ShChapterTitle(page, index) == "Chapter " + NatToString(index)
  {
  }

  /** Without a `div.chapter-title`, the page title loses its " | Scribble Hub" suffix and
      keeps any " - " or " | " of its own. */
  lemma PageTitleStripped(x: string, index: U32)
    requires x != [] && !IsWhitespace(x[0]) && !IsWhitespace(x[|x| - 1])
    ensures ShChapterTitle(ShChapterPage(None, Some(x + " | Scribble Hub"), true, []), index) == x
  {
    StripSuffixedTitle(x, SH_TITLE_SUFFIXES, 0);
    assert Trim(x + " | Scribble Hub") == x + " | Scribble Hub" by { TrimOfTrimmed(x + " | Scribble Hub"); }
  }
}

/** The command line: the argument parsers, the file-name sanitizer, the resume guard, the
    precedence of flags over the config file over the defaults, the scrape options of a
    normal and of a dry run, and the run itself with its exit codes. The argument
    grammar of the parser library, the progress bar, the config file search and the
    external validator are not modelled. */
module Cli {
  import opened Wrappers
  import opened Text
  import opened Model
  import opened Scraper
  import Client
  import Formats
  import Epub
  import Dispatch

  // ---------------------------------------------------------------- errors

  /** `CliRunError`: bad input, a scrape failure, or a failure of a writer or validator. */
  datatype CliRunError =
    | InvalidInput(message: string)
    | ScrapeFailed(scrapeError: ScraperError)
    | EpubFailed(epubError: Epub.EpubError)
    | FormatFailed(formatError: Formats.FormatError)
    | Validation(message: string)

  /** `exit_code`: 1 for bad input, 2 for a scrape failure, 3 for a failure while writing or
      validating the output. */
  function ExitCode(e: CliRunError): (code: int)
    ensures code == 1 <==> e.InvalidInput?
    ensures code == 2 <==> e.ScrapeFailed?
    ensures code == 3 <==> e.EpubFailed? || e.FormatFailed? || e.Validation?
  {
    match e
    case InvalidInput(_) => 1
    case ScrapeFailed(_) => 2
    case _ => 3
  }

  // ---------------------------------------------------------------- chapter range

  /** Why `--chapters` was refused; each carries what the message quotes. */
  datatype RangeError =
    | MissingDash(input: string)
    | BadStart(text: string)
    | BadEnd(text: string)
    | StartAfterEnd(from: nat, to: nat)

  /** `parse_chapter_range`: trim, split at the first '-', trim both sides, parse each as a
      `u32`, and refuse a start after the end. */
  function ParseChapterRange(s: string): (r: Result<(U32, U32), RangeError>)
    ensures r.Ok? ==> r.value.0 <= r.value.1
    ensures r.Err? && r.error.MissingDash? <==> '-' !in Trim(s)
  {
    SplitRange(Trim(s))
  }

  /** The trimmed argument split at its first dash. */
  function SplitRange(t: string): (r: Result<(U32, U32), RangeError>)
    ensures r.Ok? ==> r.value.0 <= r.value.1
    ensures r.Err? && r.error.MissingDash? <==> '-' !in t
  {
    match SplitOnce(t, '-')
    case None => Err(MissingDash(t))
    case Some((a, b)) => ParseBounds(Trim(a), Trim(b))
  }

  /** Both trimmed sides parsed, the start first. */
  function ParseBounds(fromText: string, toText: string): (r: Result<(U32, U32), RangeError>)
    ensures r.Ok? ==> r.value.0 <= r.value.1
    ensures r.Err? ==> !r.error.MissingDash?
  {
    match ParseU32(fromText)
    case None => Err(BadStart(fromText))
    case Some(from) =>
      match ParseU32(toText)
      case None => Err(BadEnd(toText))
      case Some(to) =>
        if from > to then Err(StartAfterEnd(from, to)) else Ok((from, to))
  }

  /** Splitting at the first '-' of `a + "-" + b` gives back `a` and `b` when `a` has no
      dash. */
  lemma SplitAtFirstDash(a: string, b: string)
    requires '-' !in a
    ensures SplitOnce(a + "-" + b, '-') == Some((a, b))
  {
    var s := a + "-" + b;
    var r := SplitOnce(s, '-');
    assert s[|a|] == '-';
    assert r.Some?;
    var (x, y) := r.value;
    assert x == s[..|x|] == a;
    assert y == s[|x| + 1..] == b;
  }

  /** An argument with nothing to trim around it and a dash after a dash-free start is
      parsed side by side, each side trimmed. */
  lemma RangeParts(a: string, b: string)
    requires '-' !in a && a != [] && b != []
    requires !IsWhitespace(a[0]) && !IsWhitespace(b[|b| - 1])
    ensures ParseChapterRange(a + "-" + b) == ParseBounds(Trim(a), Trim(b))
  {
    var s := a + "-" + b;
    assert s[0] == a[0] && s[|s| - 1] == b[|b| - 1];
    TrimOfTrimmed(s);
    SplitAtFirstDash(a, b);
  }

  /** The errors of the two sides in their order: a bad start is reported whatever the end,
      a bad end only after a good start, and a backwards range only when both parse. */
  lemma BoundsErrors(fromText: string, toText: string)
    ensures ParseU32(fromText).None? ==> ParseBounds(fromText, toText) == Err(BadStart(fromText))
    ensures ParseU32(fromText).Some? && ParseU32(toText).None? ==> ParseBounds(fromText, toText) == Err(BadEnd(toText))
    ensures ParseU32(fromText).Some? && ParseU32(toText).Some? ==>
      (ParseBounds(fromText, toText).Ok? <==> ParseU32(fromText).value <= ParseU32(toText).value)
    ensures ParseBounds(fromText, toText).Ok? ==>
      ParseBounds(fromText, toText).value == (ParseU32(fromText).value, ParseU32(toText).value)
  {
  }

  /** Printing a range and parsing it back gives the range. */
  lemma ChapterRangeRoundTrip(from: U32, to: U32)
    requires from <= to
    ensures ParseChapterRange(NatToString(from) + "-" + NatToString(to)) == Ok((from, to))
  {
    var a, b := NatToString(from), NatToString(to);
    assert IsAsciiDigit(a[0]) && IsAsciiDigit(b[|b| - 1]) && IsAsciiDigit(b[0]) && IsAsciiDigit(a[|a| - 1]);
    VisibleNotWhitespace(a[0]);
    VisibleNotWhitespace(b[0]);
    VisibleNotWhitespace(a[|a| - 1]);
    VisibleNotWhitespace(b[|b| - 1]);
    assert '-' !in a;
    RangeParts(a, b);
    TrimOfTrimmed(a);
    TrimOfTrimmed(b);
    ParsePrinted(from);
    ParsePrinted(to);
  }

  // ---------------------------------------------------------------- enumerated arguments

  /** `parse_site`: the site name or its abbreviation, in any ASCII case. */
  function ParseSite(s: string): Result<Site, string> {
    var l := ToAsciiLowerString(s);
    if l == "royalroad" || l == "rr" then Ok(RoyalRoad)
    else if l == "scribblehub" || l == "sh" then Ok(ScribbleHub)
    else Err("Invalid --site value: '" + s + "'. Use 'royalroad' or 'scribblehub'.")
  }

  /** `parse_locked_behavior`. */
  function ParseLockedBehavior(s: string): Result<LockedChapterBehavior, string> {
    var l := ToAsciiLowerString(s);
    if l == "skip" then Ok(LockedChapterBehavior.Skip)
    else if l == "placeholder" then Ok(LockedChapterBehavior.Placeholder)
    else if l == "fail" then Ok(LockedChapterBehavior.Fail)
    else Err("Invalid --locked-chapters value: '" + s + "'. Use skip, placeholder, or fail.")
  }

  /** `parse_empty_chapter_behavior`. */
  function ParseEmptyChapterBehavior(s: string): Result<EmptyChapterBehavior, string> {
    var l := ToAsciiLowerString(s);
    if l == "skip" then Ok(EmptyChapterBehavior.Skip)
    else if l == "placeholder" then Ok(EmptyChapterBehavior.Placeholder)
    else if l == "fail" then Ok(EmptyChapterBehavior.Fail)
    else Err("Invalid --empty-chapters value: '" + s + "'. Use skip, placeholder, or fail.")
  }

  /** `parse_format`: the five format names, with md and txt as aliases. */
  function ParseFormat(s: string): Result<Formats.OutputFormat, string> {
    var l := ToAsciiLowerString(s);
    if l == "epub" then Ok(Formats.Epub)
    else if l == "json" then Ok(Formats.Json)
    else if l == "html" then Ok(Formats.Html)
    else if l == "markdown" || l == "md" then Ok(Formats.Markdown)
    else if l == "text" || l == "txt" then Ok(Formats.Text)
    else Err("Invalid --format value: '" + s + "'. Use epub, json, html, markdown, or text.")
  }

  /** `extension_for_format`. */
  function ExtensionForFormat(format: Formats.OutputFormat): string {
    match format
    case Epub => "epub"
    case Json => "json"
    case Html => "html"
    case Markdown => "md"
    case Text => "txt"
  }

  /** Every extension parses back as its format, so distinct formats get distinct
      extensions. */
  lemma ExtensionRoundTrip(format: Formats.OutputFormat, other: Formats.OutputFormat)
    ensures ParseFormat(ExtensionForFormat(format)) == Ok(format)
    ensures ExtensionForFormat(format) == ExtensionForFormat(other) ==> format == other
  {
    var e := ExtensionForFormat(format);
    assert ToAsciiLowerString(e) == e;
  }

  /** The site names and their abbreviations. */
  lemma SiteNamesAccepted()
    ensures ParseSite("royalroad") == Ok(RoyalRoad) && ParseSite("rr") == Ok(RoyalRoad)
    ensures ParseSite("scribblehub") == Ok(ScribbleHub) && ParseSite("sh") == Ok(ScribbleHub)
  {
    assert ToAsciiLowerString("royalroad") == "royalroad";
    assert ToAsciiLowerString("rr") == "rr";
    assert ToAsciiLowerString("scribblehub") == "scribblehub";
    assert ToAsciiLowerString("sh") == "sh";
  }

  /** The long names of the formats that have an abbreviation. */
  lemma FormatLongNamesAccepted()
    ensures ParseFormat("markdown") == Ok(Formats.Markdown) && ParseFormat("text") == Ok(Formats.Text)
  {
    assert ToAsciiLowerString("markdown") == "markdown";
    assert ToAsciiLowerString("text") == "text";
  }

  /** The three policy names, for both policies. */
  lemma PolicyNamesAccepted()
    ensures ParseLockedBehavior("skip") == Ok(LockedChapterBehavior.Skip)
    ensures ParseLockedBehavior("placeholder") == Ok(LockedChapterBehavior.Placeholder)
    ensures ParseLockedBehavior("fail") == Ok(LockedChapterBehavior.Fail)
    ensures ParseEmptyChapterBehavior("skip") == Ok(EmptyChapterBehavior.Skip)
    ensures ParseEmptyChapterBehavior("placeholder") == Ok(EmptyChapterBehavior.Placeholder)
    ensures ParseEmptyChapterBehavior("fail") == Ok(EmptyChapterBehavior.Fail)
  {
    assert ToAsciiLowerString("skip") == "skip";
    assert ToAsciiLowerString("placeholder") == "placeholder";
    assert ToAsciiLowerString("fail") == "fail";
  }

  /** Case does not matter to the site parser: an argument is accepted exactly when its
      lower-case form is, and then both give the same value. */
  lemma SiteIgnoresCase(s: string)
    ensures ParseSite(s).Ok? == ParseSite(ToAsciiLowerString(s)).Ok?
    ensures ParseSite(s).Ok? ==> ParseSite(s) == ParseSite(ToAsciiLowerString(s))
  {
    ToAsciiLowerIdempotent(s);
  }

  /** Case does not matter to the format parser: an argument is accepted exactly when its
      lower-case form is, and then both give the same value. */
  lemma FormatIgnoresCase(s: string)
    ensures ParseFormat(s).Ok? == ParseFormat(ToAsciiLowerString(s)).Ok?
    ensures ParseFormat(s).Ok? ==> ParseFormat(s) == ParseFormat(ToAsciiLowerString(s))
  {
    ToAsciiLowerIdempotent(s);
  }

  /** Case does not matter to the locked-chapter policy parser: an argument is accepted exactly when its
      lower-case form is, and then both give the same value. */
  lemma LockedBehaviorIgnoresCase(s: string)
    ensures ParseLockedBehavior(s).Ok? == ParseLockedBehavior(ToAsciiLowerString(s)).Ok?
    ensures ParseLockedBehavior(s).Ok? ==> ParseLockedBehavior(s) == ParseLockedBehavior(ToAsciiLowerString(s))
  {
    ToAsciiLowerIdempotent(s);
  }

  /** Case does not matter to the empty-chapter policy parser: an argument is accepted exactly when its
      lower-case form is, and then both give the same value. */
  lemma EmptyChapterBehaviorIgnoresCase(s: string)
    ensures ParseEmptyChapterBehavior(s).Ok? == ParseEmptyChapterBehavior(ToAsciiLowerString(s)).Ok?
    ensures ParseEmptyChapterBehavior(s).Ok? ==> ParseEmptyChapterBehavior(s) == ParseEmptyChapterBehavior(ToAsciiLowerString(s))
  {
    ToAsciiLowerIdempotent(s);
  }

  /** Upper-case spellings from the unit tests. */
  lemma UpperCaseAccepted()
    ensures ParseSite("RoyalRoad") == Ok(RoyalRoad)
    ensures ParseFormat("EPUB") == Ok(Formats.Epub)
    ensures ParseLockedBehavior("SKIP") == Ok(LockedChapterBehavior.Skip)
  {
    assert ToAsciiLowerString("RoyalRoad") == "royalroad";
    assert ToAsciiLowerString("EPUB") == "epub";
    assert ToAsciiLowerString("SKIP") == "skip";
  }

  /** Unknown values are refused. */
  lemma UnknownRefused()
    ensures ParseSite("other").Err?
    ensures ParseFormat("pdf").Err?
    ensures ParseLockedBehavior("other").Err?
    ensures ParseEmptyChapterBehavior("other").Err?
  {
    assert ToAsciiLowerString("other") == "other";
    assert ToAsciiLowerString("pdf") == "pdf";
  }

  // ---------------------------------------------------------------- file names

  /** The characters a sanitized title may hold. */
  predicate SlugSafe(c: char) {
    'a' <= c <= 'z' || '0' <= c <= '9' || c == '-'
  }

  /** An ASCII letter or digit, lower-cased; anything else becomes '-'. */
  function SlugChar(c: char): (d: char)
    ensures SlugSafe(d)
    ensures d == '-' <==> !IsAsciiAlphanumeric(c)
  {
    if IsAsciiAlphanumeric(c) then ToAsciiLower(c) else '-'
  }

  /** The first step of `sanitize_title`: every character mapped on its own. */
  function SlugChars(title: string): (s: string)
    ensures |s| == |title|
    ensures forall i :: 0 <= i < |s| ==> s[i] == SlugChar(title[i])
  {
    seq(|title|, i requires 0 <= i < |title| => SlugChar(title[i]))
  }

  /** `s` with every run of dashes reduced to one; `afterDash` says whether a dash was just
      emitted, in which case a leading dash of `s` is dropped too. */
  function Squeeze(s: string, afterDash: bool): string
    decreases |s|
  {
    if s == [] then []
    else if s[0] == '-' then (if afterDash then [] else "-") + Squeeze(s[1..], true)
    else [s[0]] + Squeeze(s[1..], false)
  }

  /** What `sanitize_title` returns: the mapped title with runs of dashes squeezed and
      dashes trimmed from both ends, or "book" when nothing is left. */
  function SanitizedTitle(title: string): string {
    var t := TrimEndChar(TrimStartChar(Squeeze(SlugChars(title), false), '-'), '-');
    if t == [] then "book" else t
  }

  /** One `replace("--", "-")` pass does not change what squeezing gives. */
  lemma {:induction false} SqueezeReplace(s: string, afterDash: bool)
    ensures Squeeze(ReplaceAll(s, "--", "-"), afterDash) == Squeeze(s, afterDash)
    decreases |s|
  {
    if s == [] {
    } else if StartsWith(s, "--") {
      var x := ReplaceAll(s[2..], "--", "-");
      SqueezeReplace(s[2..], true);
      assert ("-" + x)[1..] == x;
      assert s[1..][1..] == s[2..];
    } else {
      var x := ReplaceAll(s[1..], "--", "-");
      SqueezeReplace(s[1..], s[0] == '-');
      assert ([s[0]] + x)[1..] == x;
    }
  }

  /** Once no "--" is left, squeezing changes nothing. */
  lemma {:induction false} SqueezeFixed(s: string, afterDash: bool)
    requires !Contains(s, "--")
    requires afterDash ==> s == [] || s[0] != '-'
    ensures Squeeze(s, afterDash) == s
    decreases |s|
  {
    if s != [] {
      assert !Contains(s[1..], "--");
      SqueezeFixed(s[1..], s[0] == '-');
    }
  }

  /** A replacement pass never lengthens, and shortens whenever there is a "--". */
  lemma {:induction false} ReplaceShrinks(s: string)
    ensures |ReplaceAll(s, "--", "-")| <= |s|
    ensures Contains(s, "--") ==> |ReplaceAll(s, "--", "-")| < |s|
    decreases |s|
  {
    if s != [] {
      if StartsWith(s, "--") {
        ReplaceShrinks(s[2..]);
      } else {
        ReplaceShrinks(s[1..]);
      }
    }
  }

  /** `sanitize_title`: map the characters, replace "--" by "-" until none is left, trim the
      dashes, and fall back to "book". */
  method SanitizeTitle(title: string) returns (r: string)
    ensures r == SanitizedTitle(title)
  {
    var s := SlugChars(title);
    ghost var squeezed := Squeeze(s, false);
    while Contains(s, "--")
      invariant Squeeze(s, false) == squeezed
      decreases |s|
    {
      SqueezeReplace(s, false);
      ReplaceShrinks(s);
      s := ReplaceAll(s, "--", "-");
    }
    SqueezeFixed(s, false);
    s := TrimEndChar(TrimStartChar(s, '-'), '-');
    if s == [] {
      s := "book";
    }
    r := s;
  }

  /** No two dashes side by side. */
  ghost predicate NoDoubleDash(s: string) {
    forall i: nat, j :: i < j < |s| && j == i + 1 ==> !(s[i] == '-' && s[j] == '-')
  }

  /** Squeezing keeps only characters it was given, leaves no two dashes together, and after
      a dash does not start with one. */
  lemma {:induction false} SqueezeShape(s: string, afterDash: bool)
    requires forall i :: 0 <= i < |s| ==> SlugSafe(s[i])
    ensures var q := Squeeze(s, afterDash);
      && (forall i :: 0 <= i < |q| ==> SlugSafe(q[i]))
      && NoDoubleDash(q)
      && (afterDash ==> q == [] || q[0] != '-')
    decreases |s|
  {
    if s != [] {
      SqueezeShape(s[1..], s[0] == '-');
    }
  }

  /** A string without two dashes together does not contain "--". */
  lemma NoDoubleDashContains(s: string)
    requires NoDoubleDash(s)
    ensures !Contains(s, "--")
  {
    forall i: nat | i + 2 <= |s| ensures !OccursAt(s, "--", i) {
      assert s[i..i + 2][0] == s[i] && s[i..i + 2][1] == s[i + 1];
    }
    ContainsIff(s, "--");
  }

  /** A slice keeps the characters and the single dashes. */
  lemma SliceShape(q: string, lo: nat, hi: nat)
    requires lo <= hi <= |q|
    requires forall i :: 0 <= i < |q| ==> SlugSafe(q[i])
    requires NoDoubleDash(q)
    ensures forall i :: 0 <= i < hi - lo ==> SlugSafe(q[lo..hi][i])
    ensures NoDoubleDash(q[lo..hi])
  {
    var t := q[lo..hi];
    forall i, j | 0 <= i < j < |t| && j == i + 1 ensures !(t[i] == '-' && t[j] == '-') {
      assert t[i] == q[lo + i] && t[j] == q[lo + j];
    }
  }

  /** Trimming the leading dashes keeps the characters and the single dashes, and leaves
      no dash in front. */
  lemma TrimStartShape(q: string)
    requires forall i :: 0 <= i < |q| ==> SlugSafe(q[i])
    requires NoDoubleDash(q)
    ensures var a := TrimStartChar(q, '-');
      && (forall i :: 0 <= i < |a| ==> SlugSafe(a[i]))
      && NoDoubleDash(a)
  {
    var a := TrimStartChar(q, '-');
    SliceShape(q, |q| - |a|, |q|);
  }

  /** Trimming the trailing dashes of a string that does not start with one keeps the
      characters and the single dashes and leaves no dash at either end. */
  lemma TrimEndShape(a: string)
    requires forall i :: 0 <= i < |a| ==> SlugSafe(a[i])
    requires NoDoubleDash(a)
    requires a == [] || a[0] != '-'
    ensures var t := TrimEndChar(a, '-');
      && (forall i :: 0 <= i < |t| ==> SlugSafe(t[i]))
      && NoDoubleDash(t)
      && (t == [] || (t[0] != '-' && t[|t| - 1] != '-'))
  {
    var t := TrimEndChar(a, '-');
    SliceShape(a, 0, |t|);
    assert t == [] || t[0] == a[0];
  }

  /** What the sanitizer promises: only lower-case letters, digits and dashes, never "--",
      no dash at either end, and never empty. */
  lemma SanitizedShape(title: string)
    ensures var r := SanitizedTitle(title);
      && r != []
      && (forall i :: 0 <= i < |r| ==> SlugSafe(r[i]))
      && !Contains(r, "--")
      && r[0] != '-' && r[|r| - 1] != '-'
  {
    var q := Squeeze(SlugChars(title), false);
    SqueezeShape(SlugChars(title), false);
    var a := TrimStartChar(q, '-');
    TrimStartShape(q);
    var t := TrimEndChar(a, '-');
    TrimEndShape(a);
    var r := if t == [] then "book" else t;
    assert r == SanitizedTitle(title);
    if t == [] {
      assert forall i :: 0 <= i < |r| ==> SlugSafe(r[i]);
      assert NoDoubleDash(r);
    }
    NoDoubleDashContains(r);
  }

  /** Sanitizing a sanitized title changes nothing. */
  lemma SanitizeIdempotent(title: string)
    ensures SanitizedTitle(SanitizedTitle(title)) == SanitizedTitle(title)
  {
    var r := SanitizedTitle(title);
    SanitizedShape(title);
    assert SlugChars(r) == r;
    SqueezeFixed(r, false);
  }

  /** Only the ASCII case-insensitive content of a title matters. */
  lemma SanitizeIgnoresCase(title: string)
    ensures SanitizedTitle(ToAsciiLowerString(title)) == SanitizedTitle(title)
  {
    assert SlugChars(ToAsciiLowerString(title)) == SlugChars(title);
  }

  /** An empty title, or one with no letter or digit, becomes "book". */
  lemma SanitizeNothingLeft(title: string)
    requires forall i :: 0 <= i < |title| ==> !IsAsciiAlphanumeric(title[i])
    ensures SanitizedTitle(title) == "book"
  {
    DashesOnly(SlugChars(title), false);
  }

  /** Squeezing dashes gives dashes. */
  lemma {:induction false} DashesOnly(s: string, afterDash: bool)
    requires forall i :: 0 <= i < |s| ==> s[i] == '-'
    ensures forall i :: 0 <= i < |Squeeze(s, afterDash)| ==> Squeeze(s, afterDash)[i] == '-'
    decreases |s|
  {
    if s != [] {
      DashesOnly(s[1..], true);
    }
  }

  // ---------------------------------------------------------------- resume file

  /** What opening the resume file gave: no such file, another I/O error, or its contents,
      which either parse as JSON or give the parser's message. */
  datatype ResumeFile = Missing | Unreadable(reason: string) | Opened(contents: Result<Json, string>)

  /** Two story URLs name the same story when they agree once all trailing '/' are dropped. */
  predicate SameStory(a: string, b: string) {
    TrimEndChar(a, '/') == TrimEndChar(b, '/')
  }

  /** The resume fragment of `run`: a missing file is a fresh start, an unreadable or
      undecodable one is bad input, and a saved book whose source URL names another story is
      refused before anything is scraped. */
  function LoadResume(path: string, file: ResumeFile, url: string): (r: Result<Option<Book>, CliRunError>)
    ensures r.Err? ==> r.error.InvalidInput?
    ensures r == Ok(None) <==> file == Missing
    ensures r.Ok? && r.value.Some? ==>
      file.Opened? && file.contents.Ok? && DecodeBook(file.contents.value) == Ok(r.value.value)
      && (r.value.value.sourceUrl.None? || SameStory(r.value.value.sourceUrl.value, url))
  {
    match file
    case Missing => Ok(None)
    case Unreadable(reason) => Err(InvalidInput("Cannot read resume file " + path + ": " + reason))
    case Opened(Err(message)) => Err(InvalidInput("Invalid resume file " + path + ": " + message))
    case Opened(Ok(json)) =>
      match DecodeBook(json)
      case Err(_) => Err(InvalidInput("Invalid resume file " + path))
      case Ok(book) =>
        if book.sourceUrl.Some? && !SameStory(book.sourceUrl.value, url) then
          Err(InvalidInput("Resume file is for a different URL (" + book.sourceUrl.value
                           + "). Use the same URL as the original run (" + url + ")."))
        else Ok(Some(book))
  }

  /** The guard: a resumed book never names a different story, a mismatch is bad input
      (exit code 1), and a missing file means starting afresh. */
  lemma ResumeGuard(path: string, file: ResumeFile, url: string)
    ensures LoadResume(path, file, url).Ok? && LoadResume(path, file, url).value.Some? ==>
      var book := LoadResume(path, file, url).value.value;
      book.sourceUrl.None? || SameStory(book.sourceUrl.value, url)
    ensures LoadResume(path, file, url).Err? ==> ExitCode(LoadResume(path, file, url).error) == 1
    ensures file == Missing ==> LoadResume(path, file, url) == Ok(None)
    ensures file.Opened? && file.contents.Ok? && DecodeBook(file.contents.value).Ok? ==>
      var book := DecodeBook(file.contents.value).value;
      (LoadResume(path, file, url).Err? <==> book.sourceUrl.Some? && !SameStory(book.sourceUrl.value, url))
  {
  }

  /** A book saved by the checkpoint callback is resumed as it was saved, provided it is for
      the same story. */
  lemma ResumeFromCheckpoint(path: string, book: Book, url: string)
    requires book.sourceUrl.None? || SameStory(book.sourceUrl.value, url)
    ensures LoadResume(path, Opened(Ok(BookToJson(book))), url) == Ok(Some(book))
  {
    BookRoundTrip(book);
  }

  /** Trailing slashes do not matter to the guard. */
  lemma TrailingSlashIgnored(a: string)
    ensures SameStory(a + "/", a)
  {
    var s := a + "/";
    assert s[..|s| - 1] == a;
  }

  // ---------------------------------------------------------------- settings

  /** The config file's keys; every one is optional. */
  datatype Config = Config(
    outputDir: Option<string>,
    userAgent: Option<string>,
    requestDelaySecs: Option<nat>,
    timeoutSecs: Option<nat>,
    tocPage: Option<bool>,
    retryCount: Option<U32>,
    retryBackoffSecs: Option<seq<nat>>,
    emptyChapters: Option<string>)

  /** The command-line arguments, already parsed by their value parsers. */
  datatype Args = Args(
    url: string,
    output: Option<string>,
    format: Formats.OutputFormat,
    site: Option<Site>,
    epub2: bool,
    quiet: bool,
    ncx: bool,
    chapters: Option<(U32, U32)>,
    resume: Option<string>,
    lockedChapters: LockedChapterBehavior,
    emptyChapters: Option<EmptyChapterBehavior>,
    userAgent: Option<string>,
    delay: Option<nat>,
    timeout: Option<nat>,
    dryRun: bool,
    validate: bool)

  const DEFAULT_DELAY_SECS: nat := 2
  const DEFAULT_TIMEOUT_SECS: nat := 30
  const DEFAULT_RETRY_COUNT: nat := 3
  const DEFAULT_BACKOFF_SECS: seq<nat> := [1, 2, 4]
  const DEFAULT_OUTPUT_DIR: string := "."

  /** The settings `run` derives before scraping. */
  datatype Settings = Settings(
    outputDir: string,
    delaySecs: nat,
    timeoutSecs: nat,
    retryCount: nat,
    retryBackoffSecs: seq<nat>,
    userAgent: Option<string>,
    emptyChapters: EmptyChapterBehavior,
    tocPage: bool)

  /** The first value present: the flag, then the config key, then the default. */
  function FirstOf<T>(flag: Option<T>, key: Option<T>, default: T): (v: T)
    ensures flag.Some? ==> v == flag.value
    ensures flag.None? && key.Some? ==> v == key.value
    ensures flag.None? && key.None? ==> v == default
  {
    if flag.Some? then flag.value else key.GetOr(default)
  }

  /** A config file that sets nothing; no config file reads as this one. */
  const NO_CONFIG: Config := Config(None, None, None, None, None, None, None, None)

  /** The empty-chapter policy from the config file; a value it cannot parse is ignored. */
  function ConfigEmptyChapters(c: Config): Option<EmptyChapterBehavior> {
    match c.emptyChapters
    case None => None
    case Some(s) => if ParseEmptyChapterBehavior(s).Ok? then Some(ParseEmptyChapterBehavior(s).value) else None
  }

  /** The settings fragment of `run`. */
  function EffectiveSettings(args: Args, config: Option<Config>): Settings {
    var c := config.GetOr(NO_CONFIG);
    var retries := c.retryCount.GetOr(DEFAULT_RETRY_COUNT);
    Settings(
      c.outputDir.GetOr(DEFAULT_OUTPUT_DIR),
      FirstOf(args.delay, c.requestDelaySecs, DEFAULT_DELAY_SECS),
      FirstOf(args.timeout, c.timeoutSecs, DEFAULT_TIMEOUT_SECS),
      if retries >= 1 then retries else 1,
      c.retryBackoffSecs.GetOr(DEFAULT_BACKOFF_SECS),
      if args.userAgent.Some? then args.userAgent else c.userAgent,
      FirstOf(args.emptyChapters, ConfigEmptyChapters(c), EmptyChapterBehavior.Skip),
      c.tocPage.GetOr(true))
  }

  /** A flag decides its setting whatever the config file says. */
  lemma FlagsOverrideConfig(args: Args, config: Option<Config>, other: Option<Config>)
    ensures args.delay.Some? ==> EffectiveSettings(args, config).delaySecs == args.delay.value
    ensures args.timeout.Some? ==> EffectiveSettings(args, config).timeoutSecs == args.timeout.value
    ensures args.userAgent.Some? ==> EffectiveSettings(args, config).userAgent == args.userAgent
    ensures args.emptyChapters.Some? ==> EffectiveSettings(args, config).emptyChapters == args.emptyChapters.value
    ensures args.delay.Some? && args.timeout.Some? && args.userAgent.Some? && args.emptyChapters.Some? ==>
      var s, t := EffectiveSettings(args, config), EffectiveSettings(args, other);
      s.delaySecs == t.delaySecs && s.timeoutSecs == t.timeoutSecs && s.userAgent == t.userAgent
      && s.emptyChapters == t.emptyChapters
  {
  }

  /** Without flags, a config key decides its setting; the retry count is still at least 1
      and an empty-chapter policy the parser refuses falls back to skipping. */
  lemma ConfigOverridesDefaults(args: Args, config: Config)
    requires args.delay.None? && args.timeout.None? && args.userAgent.None? && args.emptyChapters.None?
    ensures var s := EffectiveSettings(args, Some(config));
      && (config.requestDelaySecs.Some? ==> s.delaySecs == config.requestDelaySecs.value)
      && (config.timeoutSecs.Some? ==> s.timeoutSecs == config.timeoutSecs.value)
      && (config.userAgent.Some? ==> s.userAgent == config.userAgent)
      && (config.outputDir.Some? ==> s.outputDir == config.outputDir.value)
      && (config.tocPage.Some? ==> s.tocPage == config.tocPage.value)
      && (config.retryBackoffSecs.Some? ==> s.retryBackoffSecs == config.retryBackoffSecs.value)
      && (config.retryCount.Some? ==> s.retryCount == if config.retryCount.value >= 1 then config.retryCount.value else 1)
      && (config.emptyChapters.Some? && ParseEmptyChapterBehavior(config.emptyChapters.value).Ok? ==>
            s.emptyChapters == ParseEmptyChapterBehavior(config.emptyChapters.value).value)
      && (config.emptyChapters.Some? && ParseEmptyChapterBehavior(config.emptyChapters.value).Err? ==>
            s.emptyChapters == EmptyChapterBehavior.Skip)
  {
  }

  /** With neither flags nor a config file: delay 2, timeout 30, three attempts with backoff
      1, 2 and 4, the client's own user agent, skipping empty chapters, the current
      directory and a table-of-contents page. */
  lemma Defaults(args: Args)
    requires args.delay.None? && args.timeout.None? && args.userAgent.None? && args.emptyChapters.None?
    ensures EffectiveSettings(args, None)
         == Settings(".", 2, 30, 3, [1, 2, 4], None, EmptyChapterBehavior.Skip, true)
  {
  }

  /** The client is always built with at least one attempt. */
  lemma RetryCountPositive(args: Args, config: Option<Config>)
    ensures EffectiveSettings(args, config).retryCount >= 1
  {
  }

  /** The builder `run` configures from the settings. */
  function ClientBuilder(s: Settings): (b: Client.PoliteClientBuilder)
    requires s.retryCount >= 1
  {
    var b := Client.DEFAULT_BUILDER.WithDelaySecs(s.delaySecs).WithTimeoutSecs(s.timeoutSecs)
               .WithRetryCount(s.retryCount).WithRetryBackoffSecs(s.retryBackoffSecs);
    if s.userAgent.Some? then b.WithUserAgent(s.userAgent.value) else b
  }

  /** The client gets exactly the derived settings, and the client's default user agent
      when neither flag nor config names one. The command line's defaults (delay 2, three
      attempts, backoff 1, 2, 4) replace the client's own (delay 4, five attempts, backoff
      1, 2, 4, 8). */
  lemma BuilderCarriesSettings(args: Args, config: Option<Config>)
    ensures var s := EffectiveSettings(args, config);
      var b := ClientBuilder(s);
      && b.delaySecs == s.delaySecs && b.timeoutSecs == s.timeoutSecs
      && b.retryCount == s.retryCount && b.retryBackoffSecs == s.retryBackoffSecs
      && Client.UserAgentOf(b) == s.userAgent.GetOr(Client.DEFAULT_USER_AGENT)
    ensures args.delay.None? && args.timeout.None? && args.userAgent.None? ==>
      var b := ClientBuilder(EffectiveSettings(args, None));
      && b.delaySecs == 2 != Client.DEFAULT_BUILDER.delaySecs
      && b.retryCount == 3 != Client.DEFAULT_BUILDER.retryCount
      && b.retryBackoffSecs == [1, 2, 4] != Client.DEFAULT_BUILDER.retryBackoffSecs
  {
  }

  // ---------------------------------------------------------------- output path

  /** `Path::join` of a directory and a plain file name (one without '/'). */
  function JoinPath(dir: string, name: string): (p: string)
    ensures dir == [] ==> p == name
    ensures dir != [] && dir[|dir| - 1] == '/' ==> p == dir + name
    ensures dir != [] && dir[|dir| - 1] != '/' ==> p == dir + "/" + name
  {
    if dir == [] then name
    else if dir[|dir| - 1] == '/' then dir + name
    else dir + "/" + name
  }

  /** The default file name: the sanitized title with the format's extension. */
  function DefaultFileName(title: string, format: Formats.OutputFormat): string {
    SanitizedTitle(title) + "." + ExtensionForFormat(format)
  }

  /** The output path: `--output` when given, otherwise the default file name in the
      effective output directory. */
  function OutputPath(args: Args, s: Settings, title: string): string {
    if args.output.Some? then args.output.value
    else JoinPath(s.outputDir, DefaultFileName(title, args.format))
  }

  /** The path `JoinPath` builds ends with the name, after the directory and at most one
      added separator. */
  lemma JoinPathShape(dir: string, name: string)
    ensures var p := JoinPath(dir, name);
      && |name| <= |p| && p[|p| - |name|..] == name
      && (dir == [] ==> p == name)
      && (dir != [] ==> p[..|p| - |name|] == dir || p[..|p| - |name|] == dir + "/")
  {
    var p := JoinPath(dir, name);
    if dir != [] && dir[|dir| - 1] != '/' {
      assert p == (dir + "/") + name;
    }
  }

  /** A sanitized title has no directory separator. */
  lemma SanitizedNoSlash(title: string)
    ensures '/' !in SanitizedTitle(title)
  {
    var r := SanitizedTitle(title);
    SanitizedShape(title);
    assert forall i | 0 <= i < |r| :: SlugSafe(r[i]);
  }

  /** Extensions are lower-case letters. */
  lemma ExtensionLetters(format: Formats.OutputFormat)
    ensures forall i | 0 <= i < |ExtensionForFormat(format)| :: 'a' <= ExtensionForFormat(format)[i] <= 'z'
  {
  }

  /** Nor has the default file name. */
  lemma DefaultFileNameNoSlash(title: string, format: Formats.OutputFormat)
    ensures '/' !in DefaultFileName(title, format)
  {
    SanitizedNoSlash(title);
    ExtensionLetters(format);
    var r, ext := SanitizedTitle(title), ExtensionForFormat(format);
    var name := DefaultFileName(title, format);
    forall i | 0 <= i < |name| ensures name[i] != '/' {
      if i < |r| {
        assert name[i] == r[i];
      } else if |r| < i {
        assert name[i] == ext[i - |r| - 1];
      }
    }
  }

  /** An explicit output path is taken as given; otherwise the path ends with the default
      file name, which names the format by its extension and holds no directory
      separator, so the file lands directly in the output directory. */
  lemma OutputPathShape(args: Args, s: Settings, title: string)
    ensures args.output.Some? ==> OutputPath(args, s, title) == args.output.value
    ensures args.output.None? ==>
      var p, name := OutputPath(args, s, title), DefaultFileName(title, args.format);
      && '/' !in name
      && |name| <= |p| && p[|p| - |name|..] == name
      && (s.outputDir == [] ==> p == name)
      && (s.outputDir != [] ==> p[..|p| - |name|] == s.outputDir || p[..|p| - |name|] == s.outputDir + "/")
  {
    if args.output.None? {
      DefaultFileNameNoSlash(title, args.format);
      JoinPathShape(s.outputDir, DefaultFileName(title, args.format));
    }
  }

  /** With no `--output` and no config directory, the book lands in the current directory as
      `<sanitized title>.<extension>`. */
  lemma DefaultOutputInCurrentDirectory(args: Args, title: string)
    requires args.output.None? && args.delay.None? && args.timeout.None? && args.userAgent.None?
    requires args.emptyChapters.None?
    ensures OutputPath(args, EffectiveSettings(args, None), title) == "./" + DefaultFileName(title, args.format)
  {
  }

  // ---------------------------------------------------------------- run

  /** What running `epubcheck` gave: it could not be started, or it exited with success, or
      with failure and these outputs. */
  datatype EpubCheck = NotRunnable(reason: string) | Passed | Reported(stdout: string, stderr: string)

  /** Everything `run` learns from outside: the URL parser's verdict, the config file, the
      resume file, the two sites, the file system's answers about the output path, the
      cover download, `epubcheck`, and the HTML-to-text and HTML-to-Markdown converters. */
  datatype Env = Env(
    parsedUrl: Result<Url, string>,
    config: Result<Option<Config>, string>,
    resumeFile: ResumeFile,
    web: Dispatch.Web,
    outputParentMissing: bool,
    jsonCreate: Result<(), string>,
    cover: Epub.CoverFetch,
    epubcheck: EpubCheck,
    plainText: string -> string,
    toMarkdown: string -> string)

  /** What a successful run produced: the dry-run report, or the file written at `path`
      with its contents. */
  datatype RunOutcome =
    | DryRunReport(chapterCount: nat, path: string)
    | WroteJson(path: string, json: Json)
    | WroteEpub(path: string, entries: seq<Epub.Entry>)
    | WroteLines(path: string, lines: seq<string>)

  /** Site resolution's errors as the command line reports them. */
  function SiteError(e: ScraperError): (r: CliRunError)
    ensures e.InvalidUrl? || e.UnrecognizedHost? <==> r.InvalidInput?
  {
    if e.InvalidUrl? then
      InvalidInput("Expected a story URL. Example: https://www.royalroad.com/fiction/12345/... Invalid: "
                   + e.input + ": " + e.reason)
    else if e.UnrecognizedHost? then
      InvalidInput("Unsupported site: " + e.host
                   + ". Use --site royalroad or scribblehub to override, or provide a Royal Road / Scribble Hub URL.")
    else ScrapeFailed(e)
  }

  /** The resume path's file, or no book when `--resume` is absent. */
  function InitialBook(args: Args, env: Env): Result<Option<Book>, CliRunError> {
    if args.resume.Some? then LoadResume(args.resume.value, env.resumeFile, args.url) else Ok(None)
  }

  /** Everything `run` settles before it scrapes: the site, the settings and the book to
      resume from. */
  function Prepare(args: Args, env: Env): (r: Result<(Site, Settings, Option<Book>), CliRunError>)
    ensures r.Err? ==> r.error.InvalidInput?
    ensures r.Ok? ==>
      ResolveSite(args.url, env.parsedUrl, args.site) == Ok(r.value.0) && env.config.Ok?
      && r.value.1 == EffectiveSettings(args, env.config.value)
      && (args.resume.None? ==> r.value.2.None?)
  {
    match ResolveSite(args.url, env.parsedUrl, args.site)
    case Err(e) => Err(SiteError(e))
    case Ok(site) =>
      match env.config
      case Err(message) => Err(InvalidInput(message))
      case Ok(config) =>
        var settings := EffectiveSettings(args, config);
        match InitialBook(args, env)
        case Err(e) => Err(e)
        case Ok(initial) => Ok((site, settings, initial))
  }

  /** The scrape options of a dry run (the table of contents only, no progress, no resume,
      no checkpoints) or of a real one. */
  function ScrapeOptionsFor(args: Args, s: Settings, initial: Option<Book>): (o: ScrapeOptions)
    ensures o.chapterRange == args.chapters
    ensures o.lockedBehavior == Some(args.lockedChapters) && o.emptyChapterBehavior == Some(s.emptyChapters)
    ensures o.tocOnly == args.dryRun
    ensures args.dryRun ==> !o.hasProgress && !o.hasCheckpoint && o.initialBook.None?
    ensures !args.dryRun ==>
      o.hasProgress == !args.quiet && o.hasCheckpoint == args.resume.Some? && o.initialBook == initial
  {
    if args.dryRun then
      ScrapeOptions(false, args.chapters, None, false, Some(args.lockedChapters), Some(s.emptyChapters), true)
    else
      ScrapeOptions(!args.quiet, args.chapters, initial, args.resume.Some?, Some(args.lockedChapters),
                    Some(s.emptyChapters), false)
  }

  /** `epubcheck`'s verdict: success, or a validation error carrying its report (standard
      error when it wrote any, else standard output). */
  function EpubCheckResult(check: EpubCheck): (r: Result<(), CliRunError>)
    ensures r.Ok? <==> check.Passed?
    ensures r.Err? ==> ExitCode(r.error) == 3
  {
    match check
    case Passed => Ok(())
    case NotRunnable(reason) =>
      Err(Validation("Could not run epubcheck: " + reason + ". Is epubcheck installed and on PATH?"))
    case Reported(stdout, stderr) =>
      Err(Validation("epubcheck reported errors:\n" + Trim(if stderr == [] then stdout else stderr)))
  }

  /** Writing the scraped book at `path` in the chosen format. */
  function Deliver(args: Args, env: Env, s: Settings, book: Book, path: string): (r: Result<RunOutcome, CliRunError>)
    ensures r.Ok? ==>
      r.value.path == path && !r.value.DryRunReport?
      && (r.value.WroteJson? <==> args.format.Json?) && (r.value.WroteEpub? <==> args.format.Epub?)
    ensures r.Err? ==> ExitCode(r.error) == 3
  {
    if args.format.Json? then
      if env.jsonCreate.Err? then Err(EpubFailed(Epub.CreateFile(path, env.jsonCreate.error)))
      else Ok(WroteJson(path, BookToJson(book)))
    else if args.format.Epub? then
      var version := if args.epub2 then Epub.Epub2 else Epub.Epub3;
      match Epub.EpubEntries(book, version, args.ncx, s.tocPage, env.cover)
      case Err(e) => Err(EpubFailed(e))
      case Ok(entries) =>
        if args.validate && EpubCheckResult(env.epubcheck).Err? then Err(EpubCheckResult(env.epubcheck).error)
        else Ok(WroteEpub(path, entries))
    else if args.format.Html? then Lines(path, Formats.HtmlDocument(book))
    else if args.format.Markdown? then Lines(path, Formats.MarkdownDocument(book, env.toMarkdown))
    else Lines(path, Formats.TextDocument(book, Formats.PlainTextOf(env.plainText)))
  }

  function Lines(path: string, doc: Result<seq<string>, Formats.FormatError>): Result<RunOutcome, CliRunError> {
    match doc
    case Err(e) => Err(FormatFailed(e))
    case Ok(lines) => Ok(WroteLines(path, lines))
  }

  /** `run`: prepare, scrape, then report (dry run) or check the output path and write.
      `None` means the Scribble Hub table-of-contents bound `fuel` was reached. */
  function Run(args: Args, env: Env, fuel: nat): Option<Result<RunOutcome, CliRunError>> {
    RunWith(args, env, (site, options) => Dispatch.ScrapeBook(site, env.web, args.url, env.parsedUrl, options, fuel))
  }

  /** `run` with the scrape as a parameter: the lemmas below hold for every scraper, so
      they hold for `Dispatch.ScrapeBook` in particular. */
  function RunWith(args: Args, env: Env, scrape: (Site, ScrapeOptions) -> Option<Scrape>)
    : (r: Option<Result<RunOutcome, CliRunError>>)
    ensures r.None? ==> Prepare(args, env).Ok?
    ensures r.Some? && r.value.Ok? ==> (r.value.value.DryRunReport? <==> args.dryRun)
    ensures Prepare(args, env).Err? ==> r.Some? && r.value.Err? && ExitCode(r.value.error) == 1
  {
    match Prepare(args, env)
    case Err(e) => Some(Err(e))
    case Ok((site, s, initial)) => Scraped(args, env, s, scrape(site, ScrapeOptionsFor(args, s, initial)))
  }

  /** The scrape's outcome as the command line reports it. */
  function Scraped(args: Args, env: Env, s: Settings, scrape: Option<Scrape>): Option<Result<RunOutcome, CliRunError>> {
    if scrape.None? then None
    else if scrape.value.result.Err? then Some(Err(ScrapeFailed(scrape.value.result.error)))
    else Some(Finish(args, env, s, scrape.value.result.value))
  }

  /** After a successful scrape: the dry-run report, or the output path check and the write. */
  function Finish(args: Args, env: Env, s: Settings, book: Book): (r: Result<RunOutcome, CliRunError>)
    ensures r.Ok? ==> r.value.path == OutputPath(args, s, book.title) && (r.value.DryRunReport? <==> args.dryRun)
    ensures r.Err? ==> !args.dryRun && (ExitCode(r.error) == 1 <==> env.outputParentMissing)
  {
    var path := OutputPath(args, s, book.title);
    if args.dryRun then Ok(DryRunReport(|book.chapters|, path))
    else if env.outputParentMissing then
      Err(InvalidInput("Cannot write output: " + path + ": parent directory does not exist."))
    else Deliver(args, env, s, book, path)
  }


  /** A URL that names no supported story, or a config file that cannot be read, ends the
      run with exit code 1 before the scraper is asked for anything. */
  lemma BadInputExitsOne(args: Args, env: Env, scrape: (Site, ScrapeOptions) -> Option<Scrape>,
                         other: (Site, ScrapeOptions) -> Option<Scrape>)
    requires ResolveSite(args.url, env.parsedUrl, args.site).Err? || env.config.Err?
    ensures RunWith(args, env, scrape).Some? && RunWith(args, env, scrape).value.Err?
    ensures ExitCode(RunWith(args, env, scrape).value.error) == 1
    ensures RunWith(args, env, other) == RunWith(args, env, scrape)
  {
  }

  /** A resume file that cannot be read or decoded, or that is for another story, ends the
      run with exit code 1 before the scraper is asked for anything, in a dry run too. */
  lemma BadResumeStopsBeforeScraping(args: Args, env: Env, scrape: (Site, ScrapeOptions) -> Option<Scrape>,
                                     other: (Site, ScrapeOptions) -> Option<Scrape>)
    requires ResolveSite(args.url, env.parsedUrl, args.site).Ok? && env.config.Ok?
    requires InitialBook(args, env).Err?
    ensures RunWith(args, env, scrape) == Some(Err(InitialBook(args, env).error))
    ensures ExitCode(InitialBook(args, env).error) == 1
    ensures RunWith(args, env, other) == RunWith(args, env, scrape)
  {
    ResumeGuard(args.resume.value, env.resumeFile, args.url);
  }

  /** A failed scrape is reported as it is, with exit code 2, and nothing is written. */
  lemma ScrapeFailureExitsTwo(args: Args, env: Env, scrape: (Site, ScrapeOptions) -> Option<Scrape>,
                              e: ScraperError, trace: seq<Event>)
    requires Prepare(args, env).Ok?
    requires var (site, s, initial) := Prepare(args, env).value;
      scrape(site, ScrapeOptionsFor(args, s, initial)) == Some(Scrape(Err(e), trace))
    ensures RunWith(args, env, scrape) == Some(Err(ScrapeFailed(e)))
    ensures ExitCode(ScrapeFailed(e)) == 2
  {
  }

  /** A dry run asks for the table of contents only, without progress, resume book or
      checkpoints, and reports the chapter count and the output path: what the file
      system, the cover, the converters and `epubcheck` would say makes no difference. */
  lemma DryRunWritesNothing(args: Args, env: Env, scrape: (Site, ScrapeOptions) -> Option<Scrape>, other: Env)
    requires args.dryRun
    requires other == env.(outputParentMissing := other.outputParentMissing, jsonCreate := other.jsonCreate,
                           cover := other.cover, epubcheck := other.epubcheck,
                           plainText := other.plainText, toMarkdown := other.toMarkdown)
    ensures RunWith(args, other, scrape) == RunWith(args, env, scrape)
    ensures Prepare(args, env).Ok? ==>
      var (_, s, initial) := Prepare(args, env).value;
      var o := ScrapeOptionsFor(args, s, initial);
      o.tocOnly && !o.hasProgress && !o.hasCheckpoint && o.initialBook.None?
    ensures RunWith(args, env, scrape).Some? && RunWith(args, env, scrape).value.Ok? ==>
      RunWith(args, env, scrape).value.value.DryRunReport?
  {
    assert Prepare(args, other) == Prepare(args, env);
  }

  /** After a successful scrape, a real run checks the output directory and then writes
      exactly what the chosen format's writer produces, at the output path; a JSON file that
      cannot be created is reported as the EPUB writer's file error, with exit code 3. */
  lemma FinishWritesFormat(args: Args, env: Env, s: Settings, book: Book)
    requires !args.dryRun
    ensures var path := OutputPath(args, s, book.title);
      var r := Finish(args, env, s, book);
      && (env.outputParentMissing ==> r.Err? && ExitCode(r.error) == 1)
      && (!env.outputParentMissing && args.format.Json? && env.jsonCreate.Ok? ==>
            r == Ok(WroteJson(path, BookToJson(book))))
      && (!env.outputParentMissing && args.format.Json? && env.jsonCreate.Err? ==>
            r == Err(EpubFailed(Epub.CreateFile(path, env.jsonCreate.error))) && ExitCode(r.error) == 3)
      && (!env.outputParentMissing && args.format.Markdown? ==>
            (r.Ok? <==> Formats.MarkdownDocument(book, env.toMarkdown).Ok?)
            && (r.Ok? ==> r.value == WroteLines(path, Formats.MarkdownDocument(book, env.toMarkdown).value)))
      && (!env.outputParentMissing && args.format.Text? ==>
            (r.Ok? <==> Formats.TextDocument(book, Formats.PlainTextOf(env.plainText)).Ok?)
            && (r.Ok? ==> r.value == WroteLines(path, Formats.TextDocument(book, Formats.PlainTextOf(env.plainText)).value)))
      && (!env.outputParentMissing && args.format.Html? ==>
            (r.Ok? <==> Formats.HtmlDocument(book).Ok?)
            && (r.Ok? ==> r.value == WroteLines(path, Formats.HtmlDocument(book).value)))
      && (!env.outputParentMissing && args.format.Epub? ==>
            var entries := Epub.EpubEntries(book, if args.epub2 then Epub.Epub2 else Epub.Epub3, args.ncx, s.tocPage, env.cover);
            (r.Ok? <==> entries.Ok? && (!args.validate || env.epubcheck.Passed?))
            && (r.Ok? ==> r.value == WroteEpub(path, entries.value))
            && (entries.Err? ==> r == Err(EpubFailed(entries.error))))
  {
    if !env.outputParentMissing {
      match args.format
      case Json =>
      case Markdown =>
      case Text =>
      case Html =>
      case Epub =>
    }
  }

  /** A JSON output is itself a resume file for the same story: resuming from it starts
      from exactly the book that was written. */
  lemma JsonOutputResumes(args: Args, env: Env, s: Settings, book: Book, resumePath: string)
    requires !args.dryRun && !env.outputParentMissing && args.format.Json? && env.jsonCreate.Ok?
    requires book.sourceUrl.None? || SameStory(book.sourceUrl.value, args.url)
    ensures Finish(args, env, s, book).Ok? && Finish(args, env, s, book).value.WroteJson?
    ensures LoadResume(resumePath, Opened(Ok(Finish(args, env, s, book).value.json)), args.url) == Ok(Some(book))
  {
    ResumeFromCheckpoint(resumePath, book, args.url);
  }

  /** A resumed real run hands the saved book to the scraper and saves checkpoints. */
  lemma ResumedRunContinuesBook(args: Args, env: Env, book: Book)
    requires !args.dryRun && args.resume.Some?
    requires ResolveSite(args.url, env.parsedUrl, args.site).Ok? && env.config.Ok?
    requires env.resumeFile == Opened(Ok(BookToJson(book)))
    requires book.sourceUrl.None? || SameStory(book.sourceUrl.value, args.url)
    ensures Prepare(args, env).Ok?
    ensures var (_, s, initial) := Prepare(args, env).value;
      var o := ScrapeOptionsFor(args, s, initial);
      o.initialBook == Some(book) && o.hasCheckpoint && !o.tocOnly
  {
    ResumeFromCheckpoint(args.resume.value, book, args.url);
  }
}

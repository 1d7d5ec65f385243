/** The single-file writers for HTML, Markdown and plain text. Each writer is modelled by the
    lines it writes, one per `writeln!`, in order; creating and writing the file is not. The
    HTML-to-text and HTML-to-Markdown conversions are foreign and come in as parameters. */
module Formats {
  import opened Wrappers
  import opened Text
  import opened Model

  /** The output format the command line selects. */
  datatype OutputFormat = Epub | Json | Html | Markdown | Text

  /** The writers' errors; the I/O ones carry the message of the `io::Error`. */
  datatype FormatError = EmptyTitle | EmptyAuthor | Io(path: string, source: string) | Write(source: string)

  /** `validate_book`: a title that trims to nothing, then an author that does. */
  function ValidateBook(book: Book): Result<(), FormatError> {
    if Trim(book.title) == [] then Err(EmptyTitle)
    else if Trim(book.author) == [] then Err(EmptyAuthor)
    else Ok(())
  }

  /** The title is checked before the author, blank means whitespace only, and the chapters
      play no part: a book without chapters is accepted. */
  lemma ValidateBookChecks(book: Book)
    ensures ValidateBook(book).Ok? <==> !IsBlank(book.title) && !IsBlank(book.author)
    ensures IsBlank(book.title) ==> ValidateBook(book) == Err(EmptyTitle)
    ensures !IsBlank(book.title) && IsBlank(book.author) ==> ValidateBook(book) == Err(EmptyAuthor)
    ensures forall cs: seq<Chapter> {:trigger book.(chapters := cs)} ::
      ValidateBook(book.(chapters := cs)) == ValidateBook(book)
  {
    TrimEmptyIffBlank(book.title);
    TrimEmptyIffBlank(book.author);
  }

  // ---------------------------------------------------------------- chapter blocks

  /** The lines the writers emit chapter after chapter, `block` giving one chapter's lines. */
  function Blocks(cs: seq<Chapter>, block: Chapter -> seq<string>): seq<string> {
    if cs == [] then [] else Blocks(cs[..|cs| - 1], block) + block(cs[|cs| - 1])
  }

  lemma BlocksStep(cs: seq<Chapter>, block: Chapter -> seq<string>, i: nat)
    requires i < |cs|
    ensures Blocks(cs[..i + 1], block) == Blocks(cs[..i], block) + block(cs[i])
  {
    assert cs[..i + 1][..i] == cs[..i];
  }

  /** The `for ch in &book.chapters` loop of every writer: `lines` already written, then each
      chapter's block in turn. */
  method WriteBlocks(written: seq<string>, cs: seq<Chapter>, block: Chapter -> seq<string>) returns (lines: seq<string>)
    ensures lines == written + Blocks(cs, block)
  {
    lines := written;
    var i := 0;
    while i < |cs|
      invariant 0 <= i <= |cs|
      invariant lines == written + Blocks(cs[..i], block)
    {
      BlocksStep(cs, block, i);
      assert (written + Blocks(cs[..i], block)) + block(cs[i]) == written + (Blocks(cs[..i], block) + block(cs[i]));
      lines := lines + block(cs[i]);
      i := i + 1;
    }
    assert cs[..i] == cs;
  }

  lemma {:induction false} BlocksAppend(a: seq<Chapter>, b: seq<Chapter>, block: Chapter -> seq<string>)
    ensures Blocks(a + b, block) == Blocks(a, block) + Blocks(b, block)
    decreases |b|
  {
    if b == [] {
      assert a + b == a;
    } else {
      var init := b[..|b| - 1];
      BlocksAppend(a, init, block);
      assert (a + b)[..|a + b| - 1] == a + init;
      assert (a + b)[|a + b| - 1] == b[|b| - 1];
    }
  }

  /** Chapter k's block comes after the blocks of the chapters before it and before those
      of the chapters after it. */
  lemma BlocksAt(cs: seq<Chapter>, block: Chapter -> seq<string>, k: nat)
    requires k < |cs|
    ensures Blocks(cs, block) == Blocks(cs[..k], block) + block(cs[k]) + Blocks(cs[k + 1..], block)
  {
    var before, after := cs[..k], cs[k + 1..];
    assert cs == (before + [cs[k]]) + after;
    BlocksAppend(before + [cs[k]], after, block);
    BlocksAppend(before, [cs[k]], block);
    assert Blocks([cs[k]], block) == block(cs[k]) by {
      assert [cs[k]][..0] == [];
    }
  }

  /** With `n` lines per chapter, the chapter part has `n` lines for each chapter. */
  lemma {:induction false} BlocksLength(cs: seq<Chapter>, block: Chapter -> seq<string>, n: nat)
    requires forall c :: |block(c)| == n
    ensures |Blocks(cs, block)| == n * |cs|
    decreases |cs|
  {
    if cs != [] {
      var init := cs[..|cs| - 1];
      BlocksLength(init, block, n);
      assert |Blocks(cs, block)| == n * |init| + n;
      assert n * |cs| == n * |init| + n by {
        assert |cs| == |init| + 1;
      }
    }
  }

  // ---------------------------------------------------------------- HTML

  const HTML_PREAMBLE: seq<string> :=
    ["<!DOCTYPE html>", "<html lang=\"en\">", "<head>", "  <meta charset=\"UTF-8\"/>"]
  const HTML_TITLE_OPEN: string := "  <title>"
  const HTML_TITLE_CLOSE: string := "</title>"
  const HTML_HEAD_END: seq<string> := ["</head>", "<body>", "  <header>"]
  const HTML_H1_OPEN: string := "    <h1>"
  const HTML_H1_CLOSE: string := "</h1>"
  const HTML_AUTHOR_OPEN: string := "    <p class=\"author\">By "
  const HTML_DESCRIPTION_OPEN: string := "    <p class=\"description\">"
  const HTML_P_CLOSE: string := "</p>"
  const HTML_HEADER_END: string := "  </header>"
  const HTML_SECTION_OPEN: string := "  <section class=\"chapter\">"
  const HTML_H2_OPEN: string := "    <h2>"
  const HTML_H2_CLOSE: string := "</h2>"
  const HTML_BODY_OPEN: string := "    <div class=\"chapter-body\">"
  const HTML_BODY_CLOSE: string := "    </div>"
  const HTML_SECTION_CLOSE: string := "  </section>"
  const HTML_FOOTER: seq<string> := ["</body>", "</html>"]

  /** The escaped description, empty when there is none. */
  function EscapedDescription(book: Book): string {
    HtmlEscape(book.description.GetOr(""))
  }

  /** The document head and the header block: title, author, and the description paragraph
      when the escaped description is non-empty. */
  function HtmlHeader(book: Book): seq<string> {
    var title := HtmlEscape(book.title);
    var description := EscapedDescription(book);
    HTML_PREAMBLE + [HTML_TITLE_OPEN + title + HTML_TITLE_CLOSE] + HTML_HEAD_END
    + [HTML_H1_OPEN + title + HTML_H1_CLOSE, HTML_AUTHOR_OPEN + HtmlEscape(book.author) + HTML_P_CLOSE]
    + (if description != [] then [HTML_DESCRIPTION_OPEN + description + HTML_P_CLOSE] else [])
    + [HTML_HEADER_END]
  }

  /** One chapter's section; the body is written as it is. */
  function HtmlSection(ch: Chapter): (lines: seq<string>)
    ensures |lines| == 6
  {
    [HTML_SECTION_OPEN, HTML_H2_OPEN + HtmlEscape(ch.title) + HTML_H2_CLOSE, HTML_BODY_OPEN, ch.body,
     HTML_BODY_CLOSE, HTML_SECTION_CLOSE]
  }

  /** What `write_html` writes, or the validation error it stops at. */
  function HtmlDocument(book: Book): Result<seq<string>, FormatError> {
    match ValidateBook(book)
    case Err(e) => Err(e)
    case Ok(_) => Ok(HtmlHeader(book) + Blocks(book.chapters, HtmlSection) + HTML_FOOTER)
  }

  /** `write_html`: validate, then write the lines one after the other. */
  method WriteHtml(book: Book) returns (r: Result<seq<string>, FormatError>)
    ensures r == HtmlDocument(book)
  {
    var valid := ValidateBook(book);
    if valid.Err? {
      return Err(valid.error);
    }
    var lines := WriteBlocks(HtmlHeader(book), book.chapters, HtmlSection);
    lines := lines + HTML_FOOTER;
    r := Ok(lines);
  }

  /** The description paragraph appears exactly when the description is present and
      non-empty, as the eleventh line, after the author. */
  lemma HtmlDescriptionShown(book: Book)
    ensures book.description.Some? && book.description.value != [] ==>
      |HtmlHeader(book)| == 12 && HtmlHeader(book)[10] == HTML_DESCRIPTION_OPEN + HtmlEscape(book.description.value) + HTML_P_CLOSE
    ensures book.description.None? || book.description.value == [] ==> |HtmlHeader(book)| == 11
  {
    var d := book.description.GetOr("");
    HtmlEscapeLength(d);
    if d == [] {
      assert HtmlEscape(d) == [];
    }
  }

  /** Six lines per chapter, and chapter k's section sits at lines 6k to 6k+5, in book
      order. */
  lemma HtmlSectionsInOrder(cs: seq<Chapter>, k: nat)
    requires k < |cs|
    ensures |Blocks(cs, HtmlSection)| == 6 * |cs|
    ensures Blocks(cs, HtmlSection)[6 * k..6 * k + 6] == HtmlSection(cs[k])
  {
    BlocksAt(cs, HtmlSection, k);
    BlocksLength(cs, HtmlSection, 6);
    BlocksLength(cs[..k], HtmlSection, 6);
  }

  // ---------------------------------------------------------------- plain text

  /** `body_to_plain_text`: the trimmed text of the parsed fragment (`text`, from the HTML
      parser), or the trimmed raw body when that text is blank. */
  function BodyToPlainText(body: string, text: string): string {
    if Trim(text) == [] then Trim(body) else Trim(text)
  }

  /** `body_to_plain_text` as the writer calls it, given the HTML parser's text of a body. */
  function PlainTextOf(textOf: string -> string): string -> string {
    body => BodyToPlainText(body, textOf(body))
  }

  /** The plain text falls back to the trimmed raw body exactly when the parsed fragment
      has no text but whitespace. */
  lemma PlainTextFallback(body: string, text: string)
    ensures IsBlank(text) ==> BodyToPlainText(body, text) == Trim(body)
    ensures !IsBlank(text) ==> BodyToPlainText(body, text) == Trim(text) != []
  {
    TrimEmptyIffBlank(text);
  }

  /** The heading `write_text` gives a chapter: its own index, not its position. */
  function TextHeading(ch: Chapter): string {
    "--- Chapter " + NatToString(ch.index) + ": " + ch.title + " ---"
  }

  /** Title, author, a blank line, and the description with a blank line when there is one. */
  function TextHeader(book: Book): seq<string> {
    [book.title, "By " + book.author, ""]
    + (match book.description case Some(d) => [d, ""] case None => [])
  }

  /** One chapter: a blank line, the heading, a blank line and the plain text of the body
      (`plain` is `body_to_plain_text`, see `PlainTextOf`). */
  function TextBlock(ch: Chapter, plain: string -> string): (lines: seq<string>)
    ensures |lines| == 4
  {
    ["", TextHeading(ch), "", plain(ch.body)]
  }

  function TextBlockOf(plain: string -> string): Chapter -> seq<string> {
    ch => TextBlock(ch, plain)
  }

  /** What `write_text` writes; `plain` converts a chapter body to plain text. */
  function TextDocument(book: Book, plain: string -> string): Result<seq<string>, FormatError> {
    match ValidateBook(book)
    case Err(e) => Err(e)
    case Ok(_) => Ok(TextHeader(book) + Blocks(book.chapters, TextBlockOf(plain)))
  }

  /** `write_text`: validate, then write the lines one after the other. */
  method WriteText(book: Book, plain: string -> string) returns (r: Result<seq<string>, FormatError>)
    ensures r == TextDocument(book, plain)
  {
    var valid := ValidateBook(book);
    if valid.Err? {
      return Err(valid.error);
    }
    var lines := WriteBlocks(TextHeader(book), book.chapters, TextBlockOf(plain));
    r := Ok(lines);
  }

  /** Chapter k's heading is line 4k+1 of the chapter part: one per chapter, in book order,
      numbered by `Chapter.index`, followed two lines later by its plain text. */
  lemma TextHeadingsInOrder(cs: seq<Chapter>, plain: string -> string, k: nat)
    requires k < |cs|
    ensures |Blocks(cs, TextBlockOf(plain))| == 4 * |cs|
    ensures Blocks(cs, TextBlockOf(plain))[4 * k + 1] == TextHeading(cs[k])
    ensures Blocks(cs, TextBlockOf(plain))[4 * k + 3] == plain(cs[k].body)
  {
    BlocksAt(cs, TextBlockOf(plain), k);
    BlocksLength(cs, TextBlockOf(plain), 4);
    BlocksLength(cs[..k], TextBlockOf(plain), 4);
  }

  /** The heading of the chapter with index 1 titled "Chapter One". */
  lemma TextHeadingExample(body: string)
    ensures TextHeading(Chapter("Chapter One", 1, body)) == "--- Chapter 1: Chapter One ---"
  {
  }

  // ---------------------------------------------------------------- Markdown

  /** Title, author and the description (when present), each followed by a blank line, then
      a rule. */
  function MarkdownHeader(book: Book): seq<string> {
    ["# " + book.title, "", "By " + book.author, ""]
    + (match book.description case Some(d) => [d, ""] case None => [])
    + ["---", ""]
  }

  /** One chapter: its title as a level-two heading and the converted body. */
  function MarkdownBlock(ch: Chapter, toMarkdown: string -> string): (lines: seq<string>)
    ensures |lines| == 4
  {
    ["## " + ch.title, "", toMarkdown(ch.body), ""]
  }

  function MarkdownBlockOf(toMarkdown: string -> string): Chapter -> seq<string> {
    ch => MarkdownBlock(ch, toMarkdown)
  }

  /** What `write_markdown` writes; `toMarkdown` is the HTML-to-Markdown converter. */
  function MarkdownDocument(book: Book, toMarkdown: string -> string): Result<seq<string>, FormatError> {
    match ValidateBook(book)
    case Err(e) => Err(e)
    case Ok(_) => Ok(MarkdownHeader(book) + Blocks(book.chapters, MarkdownBlockOf(toMarkdown)))
  }

  /** `write_markdown`: validate, then write the lines one after the other. */
  method WriteMarkdown(book: Book, toMarkdown: string -> string) returns (r: Result<seq<string>, FormatError>)
    ensures r == MarkdownDocument(book, toMarkdown)
  {
    var valid := ValidateBook(book);
    if valid.Err? {
      return Err(valid.error);
    }
    var lines := WriteBlocks(MarkdownHeader(book), book.chapters, MarkdownBlockOf(toMarkdown));
    r := Ok(lines);
  }

  /** Chapter k's heading is line 4k of the chapter part, in book order. */
  lemma MarkdownHeadingsInOrder(cs: seq<Chapter>, toMarkdown: string -> string, k: nat)
    requires k < |cs|
    ensures |Blocks(cs, MarkdownBlockOf(toMarkdown))| == 4 * |cs|
    ensures Blocks(cs, MarkdownBlockOf(toMarkdown))[4 * k] == "## " + cs[k].title
  {
    BlocksAt(cs, MarkdownBlockOf(toMarkdown), k);
    BlocksLength(cs, MarkdownBlockOf(toMarkdown), 4);
    BlocksLength(cs[..k], MarkdownBlockOf(toMarkdown), 4);
  }

  /** An empty description is dropped by the HTML writer, which tests the escaped text, but
      written (as an empty line) by the text and Markdown writers, which test only presence. */
  lemma EmptyDescription(book: Book)
    requires book.description == Some("")
    ensures |HtmlHeader(book)| == 11
    ensures TextHeader(book) == [book.title, "By " + book.author, "", "", ""]
    ensures |MarkdownHeader(book)| == 8 && MarkdownHeader(book)[4] == ""
  {
    HtmlDescriptionShown(book);
  }
}

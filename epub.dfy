/** The EPUB writer: validation, the cover decision, the OPF manifest and spine, the
    navigation entries, and the sequence of archive entries. Documents are modelled by the
    entries and lists they are built from; their markup, the ZIP encoding and the file
    system are not. */
module Epub {
  import opened Wrappers
  import opened Text
  import opened Model
  import Scraper

  datatype EpubVersion = Epub3 | Epub2

  /** The writer's errors; the I/O and archive ones carry their message. */
  datatype EpubError =
    | EmptyTitle
    | EmptyAuthor
    | NoChapters
    | Io(path: string, source: string)
    | CreateFile(path: string, source: string)
    | Zip(reason: string)

  /** `validate_book`: a title that trims to nothing, then an author that does, then no
      chapters. */
  function ValidateBook(book: Book): Result<(), EpubError> {
    if Trim(book.title) == [] then Err(EmptyTitle)
    else if Trim(book.author) == [] then Err(EmptyAuthor)
    else if book.chapters == [] then Err(NoChapters)
    else Ok(())
  }

  /** The three checks in their order: each error is reported only when the checks before it
      passed, and a book passes exactly when none applies. */
  lemma ValidateBookOrder(book: Book)
    ensures ValidateBook(book).Ok? <==> !IsBlank(book.title) && !IsBlank(book.author) && book.chapters != []
    ensures IsBlank(book.title) ==> ValidateBook(book) == Err(EmptyTitle)
    ensures !IsBlank(book.title) && IsBlank(book.author) ==> ValidateBook(book) == Err(EmptyAuthor)
    ensures !IsBlank(book.title) && !IsBlank(book.author) && book.chapters == [] ==> ValidateBook(book) == Err(NoChapters)
  {
    TrimEmptyIffBlank(book.title);
    TrimEmptyIffBlank(book.author);
  }

  const DEFAULT_IDENTIFIER: string := "urn:rdrscrape:book"

  /** `identifier`: the source URL, or a fixed URN for a book without one. */
  function Identifier(book: Book): (id: string)
    ensures book.sourceUrl.Some? ==> id == book.sourceUrl.value
    ensures book.sourceUrl.None? ==> id == DEFAULT_IDENTIFIER
  {
    book.sourceUrl.GetOr(DEFAULT_IDENTIFIER)
  }

  /** The OPF metadata values: identifier, title and creator escaped, and the description
      element only for a non-empty escaped description. */
  datatype Metadata = Metadata(identifier: string, title: string, creator: string, description: Option<string>)

  function OpfMetadata(book: Book): Metadata {
    var description := XmlEscape(book.description.GetOr(""));
    Metadata(XmlEscape(Identifier(book)), XmlEscape(book.title), XmlEscape(book.author),
             if description == [] then None else Some(description))
  }

  /** A description element is written exactly when the book has a non-empty description. */
  lemma DescriptionElement(book: Book)
    ensures OpfMetadata(book).description.Some? <==> book.description.Some? && book.description.value != []
  {
    var d := book.description.GetOr("");
    XmlEscapeRoundTrip(d);
  }

  // ---------------------------------------------------------------- cover

  /** What the cover request gave: a transport error, or a status with the content type
      (when present and readable) and the body bytes or the error reading them. */
  datatype CoverFetch =
    | FetchFailed(reason: string)
    | Fetched(status: nat, contentType: Option<string>, bytes: Result<seq<bv8>, string>)

  /** `CoverOutcome`: no cover page, a title-only cover page, or an image. */
  datatype CoverOutcome = NoCover | TitleOnly | Image(data: seq<bv8>, ext: string)

  const JPG: string := "jpg"
  const PNG: string := "png"

  /** The image extension from the content type: jpg when it mentions jpeg or jpg, else png. */
  function CoverExtension(contentType: Option<string>): (ext: string)
    ensures ext == JPG <==> contentType.Some? && (Contains(contentType.value, "jpeg") || Contains(contentType.value, "jpg"))
    ensures ext == JPG || ext == PNG
  {
    match contentType
    case Some(ct) => if Contains(ct, "jpeg") || Contains(ct, "jpg") then JPG else PNG
    case None => PNG
  }

  /** `fetch_cover`: no URL (or an empty one) means no cover; any failure of the request
      means a title-only cover page. */
  function FetchCover(coverUrl: Option<string>, fetch: CoverFetch): CoverOutcome {
    if coverUrl.None? || coverUrl.value == [] then NoCover
    else match fetch
      case FetchFailed(_) => TitleOnly
      case Fetched(status, contentType, bytes) =>
        if !Scraper.IsSuccess(status) then TitleOnly
        else if bytes.Err? then TitleOnly
        else Image(bytes.value, CoverExtension(contentType))
  }

  /** The cover decision: no cover exactly when no URL is set, an image exactly when the
      request succeeded and its body was read, and otherwise a title-only page. */
  lemma CoverDecision(coverUrl: Option<string>, fetch: CoverFetch)
    ensures FetchCover(coverUrl, fetch) == NoCover <==> coverUrl.None? || coverUrl.value == []
    ensures FetchCover(coverUrl, fetch).Image? <==>
      coverUrl.Some? && coverUrl.value != [] && fetch.Fetched? && Scraper.IsSuccess(fetch.status) && fetch.bytes.Ok?
    ensures FetchCover(coverUrl, fetch).Image? ==>
      FetchCover(coverUrl, fetch) == Image(fetch.bytes.value, CoverExtension(fetch.contentType))
  {
  }

  const IMAGE_JPEG: string := "image/jpeg"
  const IMAGE_PNG: string := "image/png"

  /** `cover_media_type`. */
  function CoverMediaType(ext: string): (mediaType: string)
    ensures mediaType == IMAGE_JPEG <==> ext == JPG
    ensures mediaType == IMAGE_JPEG || mediaType == IMAGE_PNG
  {
    if ext == JPG then IMAGE_JPEG else IMAGE_PNG
  }

  /** The image's declared media type agrees with what the server said it sent. */
  lemma CoverMediaTypeFollowsContentType(contentType: Option<string>)
    ensures CoverMediaType(CoverExtension(contentType)) == IMAGE_JPEG <==>
      contentType.Some? && (Contains(contentType.value, "jpeg") || Contains(contentType.value, "jpg"))
  {
  }

  // ---------------------------------------------------------------- documents

  /** The files of the OEBPS directory, each with its manifest id, file name and media type.
      Chapters are numbered by their 1-based position in the book, not by `Chapter.index`. */
  datatype Doc = ContentOpf | Nav | Ncx | CoverImage(ext: string) | CoverPage | TocPage | ChapterDoc(position: nat)

  const XHTML: string := "application/xhtml+xml"
  const CHAPTER_PREFIX: string := "chapter-"

  function Id(d: Doc): string {
    match d
    case ContentOpf => "content-opf"
    case Nav => "nav"
    case Ncx => "ncx"
    case CoverImage(_) => "cover-img"
    case CoverPage => "cover"
    case TocPage => "toc-page"
    case ChapterDoc(n) => CHAPTER_PREFIX + NatToString(n)
  }

  function Href(d: Doc): string {
    match d
    case ContentOpf => "content.opf"
    case Nav => "nav.xhtml"
    case Ncx => "toc.ncx"
    case CoverImage(ext) => "images/cover." + ext
    case CoverPage => "cover.xhtml"
    case TocPage => "toc.xhtml"
    case ChapterDoc(n) => CHAPTER_PREFIX + NatToString(n) + ".xhtml"
  }

  function MediaType(d: Doc): string {
    match d
    case ContentOpf => "application/oebps-package+xml"
    case Ncx => "application/x-dtbncx+xml"
    case CoverImage(ext) => CoverMediaType(ext)
    case _ => XHTML
  }

  /** The manifest's `properties` attribute: only the navigation document has one. */
  function Properties(d: Doc): Option<string> {
    if d == Nav then Some("nav") else None
  }

  // ---------------------------------------------------------------- manifest and spine

  /** The chapter documents 1 to n. */
  function ChapterDocs(n: nat): (docs: seq<Doc>)
    ensures |docs| == n
  {
    if n == 0 then [] else ChapterDocs(n - 1) + [ChapterDoc(n)]
  }

  lemma {:induction false} ChapterDocsAt(n: nat)
    ensures forall k :: 0 <= k < n ==> ChapterDocs(n)[k] == ChapterDoc(k + 1)
  {
    if n > 0 {
      ChapterDocsAt(n - 1);
    }
  }

  /** A document is a chapter document of a book of n chapters exactly when its position is
      1 to n. */
  lemma ChapterDocsContain(n: nat, d: Doc)
    ensures d in ChapterDocs(n) <==> d.ChapterDoc? && 1 <= d.position <= n
  {
    ChapterDocsAt(n);
    if d.ChapterDoc? && 1 <= d.position <= n {
      assert ChapterDocs(n)[d.position - 1] == d;
    }
  }

  /** No other document is among the chapter documents. */
  lemma {:induction false} NotChapterDoc(n: nat, d: Doc)
    requires !d.ChapterDoc?
    ensures d !in ChapterDocs(n)
  {
    ChapterDocsContain(n, d);
  }

  /** The document `d` when `b` holds, nothing otherwise. */
  function If(b: bool, d: Doc): (docs: seq<Doc>)
    ensures forall x :: x in docs <==> b && x == d
  {
    if b then [d] else []
  }

  /** Whether toc.ncx is listed and written: always in EPUB 2, on request in EPUB 3. */
  predicate HasNcx(version: EpubVersion, includeNcx: bool) {
    version == Epub2 || includeNcx
  }

  /** The manifest items before the chapters, in the order `write_opf3` / `write_opf2` push
      them. */
  function FixedItems(version: EpubVersion, cover: CoverOutcome, includeNcx: bool, includeTocPage: bool): seq<Doc> {
    [ContentOpf]
    + If(version == Epub3, Nav)
    + If(HasNcx(version, includeNcx), Ncx)
    + ImageDocs(cover)
    + If(cover != NoCover, CoverPage)
    + If(includeTocPage, TocPage)
  }

  /** The manifest of a book of `chapters` chapters. */
  function Manifest(version: EpubVersion, cover: CoverOutcome, includeNcx: bool, includeTocPage: bool,
                    chapters: nat): seq<Doc> {
    FixedItems(version, cover, includeNcx, includeTocPage) + ChapterDocs(chapters)
  }

  /** The manifest as `write_opf3` / `write_opf2` build it, one push at a time. */
  method BuildManifest(version: EpubVersion, cover: CoverOutcome, includeNcx: bool, includeTocPage: bool,
                       chapters: nat) returns (items: seq<Doc>)
    ensures items == Manifest(version, cover, includeNcx, includeTocPage, chapters)
  {
    items := FixedItems(version, cover, includeNcx, includeTocPage);
    var i := 0;
    while i < chapters
      invariant i <= chapters
      invariant items == FixedItems(version, cover, includeNcx, includeTocPage) + ChapterDocs(i)
    {
      items := items + [ChapterDoc(i + 1)];
      i := i + 1;
    }
  }

  /** Which fixed documents the manifest lists: content.opf always, nav.xhtml in EPUB 3,
      toc.ncx as `HasNcx` says, the cover page for any cover outcome but none, and the
      table-of-contents page when asked for. */
  lemma ManifestFixed(version: EpubVersion, cover: CoverOutcome, includeNcx: bool, includeTocPage: bool,
                      chapters: nat)
    ensures var m := Manifest(version, cover, includeNcx, includeTocPage, chapters);
      && ContentOpf in m
      && (Nav in m <==> version == Epub3)
      && (Ncx in m <==> HasNcx(version, includeNcx))
      && (CoverPage in m <==> cover != NoCover)
      && (TocPage in m <==> includeTocPage)
  {
    var m := Manifest(version, cover, includeNcx, includeTocPage, chapters);
    forall x: Doc | !x.ChapterDoc? && !x.CoverImage?
      ensures x in m <==> x == ContentOpf || (version == Epub3 && x == Nav) || (HasNcx(version, includeNcx) && x == Ncx)
                          || (cover != NoCover && x == CoverPage) || (includeTocPage && x == TocPage)
    {
      NotChapterDoc(chapters, x);
    }
  }

  /** The manifest lists the cover image only for an image cover, under that cover's
      extension, and exactly the chapters 1 to n. */
  lemma ManifestImageAndChapters(version: EpubVersion, cover: CoverOutcome, includeNcx: bool, includeTocPage: bool,
                                 chapters: nat, d: Doc)
    ensures var m := Manifest(version, cover, includeNcx, includeTocPage, chapters);
      && (d.CoverImage? ==> (d in m <==> cover.Image? && cover.ext == d.ext))
      && (d.ChapterDoc? ==> (d in m <==> 1 <= d.position <= chapters))
  {
    ChapterDocsContain(chapters, d);
  }

  /** The spine: the cover page when there is one, the table-of-contents page when asked
      for, then the chapters in book order; a spine that would be empty gets chapter 1. */
  function Spine(cover: CoverOutcome, includeTocPage: bool, chapters: nat): seq<Doc> {
    var spine := (if cover != NoCover then [CoverPage] else []) + (if includeTocPage then [TocPage] else [])
                 + ChapterDocs(chapters);
    if spine == [] then [ChapterDoc(1)] else spine
  }

  /** The spine as `write_opf3` / `write_opf2` build it. */
  method BuildSpine(cover: CoverOutcome, includeTocPage: bool, chapters: nat) returns (spine: seq<Doc>)
    ensures spine == Spine(cover, includeTocPage, chapters)
  {
    spine := [];
    if cover != NoCover {
      spine := spine + [CoverPage];
    }
    if includeTocPage {
      spine := spine + [TocPage];
    }
    var lead := spine;
    var i := 0;
    while i < chapters
      invariant i <= chapters
      invariant spine == lead + ChapterDocs(i)
    {
      spine := spine + [ChapterDoc(i + 1)];
      i := i + 1;
    }
    if spine == [] {
      spine := [ChapterDoc(1)];
    }
  }

  /** The spine's order: cover page, table-of-contents page, then chapter 1 to chapter n;
      with at least one chapter the chapter-1 fallback never applies. */
  lemma SpineOrder(cover: CoverOutcome, includeTocPage: bool, chapters: nat)
    requires chapters >= 1
    ensures var lead := (if cover != NoCover then 1 else 0) + (if includeTocPage then 1 else 0);
      && |Spine(cover, includeTocPage, chapters)| == lead + chapters
      && (cover != NoCover ==> Spine(cover, includeTocPage, chapters)[0] == CoverPage)
      && (includeTocPage ==> Spine(cover, includeTocPage, chapters)[lead - 1] == TocPage)
      && forall k :: lead <= k < lead + chapters ==> Spine(cover, includeTocPage, chapters)[k] == ChapterDoc(k - lead + 1)
  {
    ChapterDocsAt(chapters);
  }

  /** Every spine entry is a manifest item (section 2.4 of OPF 2.0.1), once the book has a
      chapter, and the navigation, NCX and image documents are never in the spine. */
  lemma SpineInManifest(version: EpubVersion, cover: CoverOutcome, includeNcx: bool, includeTocPage: bool,
                        chapters: nat, d: Doc)
    requires chapters >= 1
    requires d in Spine(cover, includeTocPage, chapters)
    ensures d in Manifest(version, cover, includeNcx, includeTocPage, chapters)
    ensures d.CoverPage? || d.TocPage? || d.ChapterDoc?
  {
    ChapterDocsContain(chapters, d);
    ManifestFixed(version, cover, includeNcx, includeTocPage, chapters);
    ManifestImageAndChapters(version, cover, includeNcx, includeTocPage, chapters, d);
  }

  // ---------------------------------------------------------------- navigation

  /** One entry of nav.xhtml and of the visible table of contents. */
  datatype NavLink = NavLink(target: Doc, text: string)

  /** One NCX navPoint; its id is "navpoint-" and the play order. */
  datatype NavPoint = NavPoint(playOrder: nat, text: string, src: Doc)

  /** The nav.xhtml links of `cs`, numbered from 1 by position. */
  function NavLinks(cs: seq<Chapter>): (links: seq<NavLink>)
    ensures |links| == |cs|
  {
    if cs == [] then [] else NavLinks(cs[..|cs| - 1]) + [NavLink(ChapterDoc(|cs|), HtmlEscape(cs[|cs| - 1].title))]
  }

  /** The NCX navPoints of `cs`, numbered from 1 by position. */
  function NavPoints(cs: seq<Chapter>): (points: seq<NavPoint>)
    ensures |points| == |cs|
  {
    if cs == [] then [] else NavPoints(cs[..|cs| - 1]) + [NavPoint(|cs|, XmlEscape(cs[|cs| - 1].title), ChapterDoc(|cs|))]
  }

  /** The link loop of `write_nav_xhtml` and `write_toc_page_xhtml`. */
  method BuildNavLinks(cs: seq<Chapter>) returns (links: seq<NavLink>)
    ensures links == NavLinks(cs)
  {
    links := [];
    var i := 0;
    while i < |cs|
      invariant i <= |cs|
      invariant links == NavLinks(cs[..i])
    {
      assert cs[..i + 1][..i] == cs[..i];
      links := links + [NavLink(ChapterDoc(i + 1), HtmlEscape(cs[i].title))];
      i := i + 1;
    }
    assert cs[..i] == cs;
  }

  /** The navPoint loop of `write_ncx`. */
  method BuildNavPoints(cs: seq<Chapter>) returns (points: seq<NavPoint>)
    ensures points == NavPoints(cs)
  {
    points := [];
    var i := 0;
    while i < |cs|
      invariant i <= |cs|
      invariant points == NavPoints(cs[..i])
    {
      assert cs[..i + 1][..i] == cs[..i];
      points := points + [NavPoint(i + 1, XmlEscape(cs[i].title), ChapterDoc(i + 1))];
      i := i + 1;
    }
    assert cs[..i] == cs;
  }

  /** One link per chapter in book order, pointing at the chapter's document and labelled
      with its escaped title. */
  lemma {:induction false} NavLinksInOrder(cs: seq<Chapter>)
    ensures forall k :: 0 <= k < |cs| ==> NavLinks(cs)[k] == NavLink(ChapterDoc(k + 1), HtmlEscape(cs[k].title))
  {
    if cs != [] {
      var init := cs[..|cs| - 1];
      NavLinksInOrder(init);
      forall k | 0 <= k < |init| ensures cs[k] == init[k] {
      }
    }
  }

  /** One navPoint per chapter in book order, with play order i+1 for the chapter at
      position i. */
  lemma {:induction false} NavPointsInOrder(cs: seq<Chapter>)
    ensures forall k :: 0 <= k < |cs| ==> NavPoints(cs)[k] == NavPoint(k + 1, XmlEscape(cs[k].title), ChapterDoc(k + 1))
  {
    if cs != [] {
      var init := cs[..|cs| - 1];
      NavPointsInOrder(init);
      forall k | 0 <= k < |init| ensures cs[k] == init[k] {
      }
    }
  }

  // ---------------------------------------------------------------- archive

  /** Where an archive entry goes: the mimetype file, the container, or a document of the
      OEBPS directory. */
  datatype EntryPath = Mimetype | Container | Oebps(doc: Doc)

  /** One archive entry: its path and whether it is stored uncompressed. */
  datatype Entry = Entry(path: EntryPath, stored: bool)

  function EntryName(p: EntryPath): string {
    match p
    case Mimetype => "mimetype"
    case Container => "META-INF/container.xml"
    case Oebps(d) => "OEBPS/" + Href(d)
  }

  /** The deflated entries of some documents. */
  function Packaged(docs: seq<Doc>): (entries: seq<Entry>)
    ensures |entries| == |docs|
    ensures forall k :: 0 <= k < |docs| ==> entries[k] == Entry(Oebps(docs[k]), false)
  {
    if docs == [] then [] else Packaged(docs[..|docs| - 1]) + [Entry(Oebps(docs[|docs| - 1]), false)]
  }

  /** The archive of some documents: the stored mimetype entry, the container, then the
      documents. */
  function Archive(docs: seq<Doc>): seq<Entry> {
    [Entry(Mimetype, true), Entry(Container, false)] + Packaged(docs)
  }

  /** The documents from content.opf to the table-of-contents page, in the order `write_epub`
      writes them for the version. */
  function LeadingDocs(version: EpubVersion, cover: CoverOutcome, includeNcx: bool, includeTocPage: bool): seq<Doc> {
    [ContentOpf]
    + If(version == Epub3, Nav)
    + If(HasNcx(version, includeNcx), Ncx)
    + If(cover != NoCover, CoverPage)
    + If(includeTocPage, TocPage)
  }

  /** The cover image, for an image cover only. */
  function ImageDocs(cover: CoverOutcome): (docs: seq<Doc>)
    ensures forall x :: x in docs <==> cover.Image? && x == CoverImage(cover.ext)
  {
    if cover.Image? then [CoverImage(cover.ext)] else []
  }

  /** Every document written, in order. */
  function WrittenDocs(version: EpubVersion, cover: CoverOutcome, includeNcx: bool, includeTocPage: bool,
                       chapters: nat): seq<Doc> {
    LeadingDocs(version, cover, includeNcx, includeTocPage) + ChapterDocs(chapters) + ImageDocs(cover)
  }

  /** What `write_epub` writes: nothing and the validation error for an invalid book,
      otherwise every entry in order. `includeNcx` only matters for EPUB 3. */
  function EpubEntries(book: Book, version: EpubVersion, includeNcx: bool, includeTocPage: bool,
                       fetch: CoverFetch): Result<seq<Entry>, EpubError> {
    match ValidateBook(book)
    case Err(e) => Err(e)
    case Ok(_) =>
      var cover := FetchCover(book.coverUrl, fetch);
      Ok(Archive(WrittenDocs(version, cover, includeNcx, includeTocPage, |book.chapters|)))
  }

  /** The documents `write_epub` writes after the container, one after the other. */
  method WriteDocuments(version: EpubVersion, cover: CoverOutcome, includeNcx: bool, includeTocPage: bool,
                        chapters: nat) returns (docs: seq<Doc>)
    ensures docs == WrittenDocs(version, cover, includeNcx, includeTocPage, chapters)
  {
    var lead := LeadingDocs(version, cover, includeNcx, includeTocPage);
    docs := lead;
    var i := 0;
    while i < chapters
      invariant i <= chapters
      invariant docs == lead + ChapterDocs(i)
    {
      docs := docs + [ChapterDoc(i + 1)];
      i := i + 1;
    }
    if cover.Image? {
      docs := docs + [CoverImage(cover.ext)];
    }
  }

  /** `write_epub`: validate, write the mimetype and container entries, request the cover,
      then write the documents. */
  method WriteEpub(book: Book, version: EpubVersion, includeNcx: bool, includeTocPage: bool, fetch: CoverFetch)
    returns (r: Result<seq<Entry>, EpubError>)
    ensures r == EpubEntries(book, version, includeNcx, includeTocPage, fetch)
  {
    var valid := ValidateBook(book);
    if valid.Err? {
      return Err(valid.error);
    }
    var entries := [Entry(Mimetype, true), Entry(Container, false)];
    var cover := FetchCover(book.coverUrl, fetch);
    var docs := WriteDocuments(version, cover, includeNcx, includeTocPage, |book.chapters|);
    r := Ok(entries + Packaged(docs));
    assert r.value == Archive(docs);
  }

  /** The writer fails only on an invalid book: the cover request never makes it fail. */
  lemma CoverNeverFails(book: Book, version: EpubVersion, includeNcx: bool, includeTocPage: bool, fetch: CoverFetch)
    ensures EpubEntries(book, version, includeNcx, includeTocPage, fetch).Ok? <==> ValidateBook(book).Ok?
    ensures ValidateBook(book).Err? ==> EpubEntries(book, version, includeNcx, includeTocPage, fetch) == Err(ValidateBook(book).error)
  {
  }

  /** The mimetype entry comes first and is the only one stored uncompressed; the container
      entry is second. */
  lemma MimetypeFirst(book: Book, version: EpubVersion, includeNcx: bool, includeTocPage: bool, fetch: CoverFetch)
    requires EpubEntries(book, version, includeNcx, includeTocPage, fetch).Ok?
    ensures var entries := EpubEntries(book, version, includeNcx, includeTocPage, fetch).value;
      && |entries| >= 3
      && entries[0] == Entry(Mimetype, true) && entries[1] == Entry(Container, false)
      && forall k :: 1 <= k < |entries| ==> !entries[k].stored
  {
    var cover := FetchCover(book.coverUrl, fetch);
    var docs := WrittenDocs(version, cover, includeNcx, includeTocPage, |book.chapters|);
    assert docs[0] == ContentOpf;
    ArchiveLayout(docs);
  }

  lemma ArchiveLayout(docs: seq<Doc>)
    ensures var entries := Archive(docs);
      && |entries| == |docs| + 2
      && entries[0] == Entry(Mimetype, true) && entries[1] == Entry(Container, false)
      && forall k :: 1 <= k < |entries| ==> !entries[k].stored
  {
    var entries := Archive(docs);
    forall k | 2 <= k < |entries| ensures !entries[k].stored {
      assert entries[k] == Packaged(docs)[k - 2];
    }
  }

  /** Which documents the archive holds: toc.ncx exactly for EPUB 2 or when asked for,
      toc.xhtml exactly when the table-of-contents page is asked for, cover.xhtml exactly
      for a cover outcome other than none, and chapters 1 to n. */
  lemma ArchiveContents(version: EpubVersion, cover: CoverOutcome, includeNcx: bool, includeTocPage: bool,
                        chapters: nat, d: Doc)
    ensures var w := WrittenDocs(version, cover, includeNcx, includeTocPage, chapters);
      && (Ncx in w <==> HasNcx(version, includeNcx))
      && (TocPage in w <==> includeTocPage)
      && (CoverPage in w <==> cover != NoCover)
      && (d.ChapterDoc? ==> (d in w <==> 1 <= d.position <= chapters))
  {
    ManifestFixed(version, cover, includeNcx, includeTocPage, chapters);
    ManifestImageAndChapters(version, cover, includeNcx, includeTocPage, chapters, d);
    ManifestMatchesArchive(version, cover, includeNcx, includeTocPage, chapters, Ncx);
    ManifestMatchesArchive(version, cover, includeNcx, includeTocPage, chapters, TocPage);
    ManifestMatchesArchive(version, cover, includeNcx, includeTocPage, chapters, CoverPage);
    ManifestMatchesArchive(version, cover, includeNcx, includeTocPage, chapters, d);
  }

  /** The archive holds exactly the documents the manifest lists: nothing listed is
      missing and nothing written is unlisted. */
  lemma ManifestMatchesArchive(version: EpubVersion, cover: CoverOutcome, includeNcx: bool, includeTocPage: bool,
                               chapters: nat, d: Doc)
    ensures d in Manifest(version, cover, includeNcx, includeTocPage, chapters)
        <==> d in WrittenDocs(version, cover, includeNcx, includeTocPage, chapters)
  {
    ChapterDocsContain(chapters, d);
  }
}

# rdrscrape, modelled in Dafny

rdrscrape is a command-line tool that downloads a web novel from Royal Road or
Scribble Hub and writes it out as EPUB (2 or 3), JSON, HTML, Markdown or plain
text. This project models its core and proves properties of the model:

- the canonical `Book` / `Chapter` record and its JSON shape, with the
  serialise/deserialise round trip (`model.dfy`);
- the polite HTTP client: the delay between requests, the retry loop with its
  backoff schedules, and the builder (`client.dfy`, a class whose methods
  update the client's fields);
- the shared scraper pieces: response checking, site-suffix stripping of
  titles, site resolution, the chapter sort and the crawl bookkeeping
  (`scraper.dfy`, `sorting.dfy`, `dispatch.dfy`);
- the Royal Road adapter: the `window.chapters` bracket scanner, the tag
  stripper, the table of contents with locked chapters, metadata and chapter
  pages, and the whole `scrape_book` crawl (`rr_scan.dfy`, `rr_toc.dfy`,
  `royalroad_pages.dfy`, `rr_crawl.dfy`);
- the Scribble Hub adapter: series URLs and ids, TOC pages, pagination links,
  the TOC merge, the JSON-LD scan, chapter pages, the AJAX/paginated TOC fetch
  and the crawl (`sh_toc.dfy`, `sh_pages.dfy`, `sh_crawl.dfy`);
- the writers: validation and the line structure of the HTML, Markdown and
  text writers (`formats.dfy`), and the EPUB package — manifest, spine,
  navigation, NCX, cover decision and archive layout (`epub.dfy`);
- the command line: argument parsers, title sanitising, settings precedence
  (flag, then config file, then default), the resume guard, the output path
  and `run` from start to exit code (`cli.dfy`).

The network, the HTML parser, `serde_json`, the URL library and the file
system are parameters: a scrape is a function of the pages and responses it
would receive, and returns its result together with a trace of the requests,
progress reports and checkpoints it makes. `text.dfy` holds the Rust string
operations the code relies on (`trim`, `find`, `split`, `replace`,
`parse::<u32>`, the escapes), each specified on its own. `wrappers.dfy` holds
`Option` and `Result`.

Where the prose design and the code disagree, the model follows the code:

- The optional origin URL is written under the JSON key `source_url` (the
  struct has no rename for it), not `sourceUrl`.
- The HTTP client's own defaults are a 4-second delay and 5 attempts with
  backoff 1, 2, 4, 8 (`src/scraper/client.rs:7-14`), although the builder's doc
  comments say 2 seconds and 3 attempts. The command line passes its own
  defaults (2 seconds, 3 attempts, backoff 1, 2, 4) to the builder, so a run
  from the command line uses those.
- A failure to create the JSON output file is reported as an EPUB error
  (`CliRunError::Epub(EpubError::CreateFile …)`, `src/cli.rs:472-480`), with
  exit code 3; the model does the same.
- Royal Road counts an entry and reports progress before its outcome is known
  (a skipped locked chapter and a failed request count); Scribble Hub counts
  only chapters it adds.

## Model

| member | source | states |
|---|---|---|
| Model.BookToJson | src/model.rs:11-22 | definition only, with no contract of its own; the serialised object (five keys, then "source_url" only when set); Model.BookKeys and Model.BookRoundTrip state what it promises |
| Model.DecodeBook | src/model.rs:11-22 | definition only, with no contract of its own; serde's derived decoding of a Book; Model.BookRoundTrip, Model.MissingOptionalsAreNone and Model.RequiredFieldsRead state what it promises |
| Model.BookKeys | src/model.rs:11-22 | the serialised book has the keys title, author, description, coverUrl, chapters in that order, then source_url exactly when the book has one |
| Model.ChapterKeys | src/model.rs:27-34 | a serialised chapter has exactly the keys title, index, body |
| Model.Lookup | src/model.rs:11-22 | a field reads as absent exactly when its key is missing; a repeated key is an error |
| Model.DecodeChapters | src/model.rs:18 | a decoded chapter array has one chapter per element |
| Model.ChapterRoundTrip | src/model.rs:27-34 | deserialising a serialised chapter gives the same chapter |
| Model.ChaptersRoundTrip | src/model.rs:85-133 | the chapter array round-trips, in order |
| Model.BookLookupAt | src/model.rs:11-22 | the book's keys are distinct, so each key reads back the value written beside it |
| Model.RequiredFieldsRead | src/model.rs:12-18 | title, author and chapters read back as written |
| Model.OptionalFieldsRead | src/model.rs:15-17 | description and coverUrl read back as written, absence included |
| Model.SourceUrlRead | src/model.rs:19-21 | source_url reads back as written, and an omitted key reads as None |
| Model.BookRoundTrip | src/model.rs:85-133 | deserialising a serialised book gives the same book, every field and every chapter in order |
| Model.MissingOptionalsAreNone | src/model.rs:15-21 | a document without description, coverUrl or source_url still decodes, with None for each absent key |
| Model.IndexRequired | src/model.rs:28-31 | a chapter without "index" is refused; a decoded index came from a number that fits a u32 |
| Text.HtmlEscape | src/scraper/royalroad.rs:332-337 | definition only, with no contract of its own; the chained replaces, '&' first; Text.HtmlEscapeIsCharwise, Text.HtmlEscapeRoundTrip and Text.HtmlEscapeRemovesSpecials state what it promises |
| Text.HtmlEscapeIsCharwise | src/scraper/royalroad.rs:332-337 | because '&' is replaced first, the chained replaces equal escaping each character on its own |
| Text.XmlEscapeIsCharwise | src/epub/mod.rs:700-706 | the five chained replaces equal escaping each character on its own |
| Text.HtmlEscapeRoundTrip | src/formats.rs:51-56 | decoding the entities of the escaped text gives the input back |
| Text.XmlEscapeRoundTrip | src/epub/mod.rs:700-706 | decoding the entities of the escaped text gives the input back |
| Text.HtmlEscapeRemovesSpecials | src/epub/mod.rs:708-713 | no '<', '>' or '"' survives the HTML escape |
| Text.XmlEscapeRemovesSpecials | src/epub/mod.rs:700-706 | no '<', '>', '"' or '\'' survives the XML escape |
| Text.HtmlEscapeLength | src/formats.rs:51-56 | escaping never shortens a string |
| Text.HtmlEscapePlain | src/formats.rs:291-296 | a string without special characters passes through unchanged |
| Text.HtmlEscapeNotIdempotent | src/formats.rs:298-303 | "a & b" escapes to "a &amp; b", and a second pass escapes that '&' again |
| Text.ParseU32 | src/cli.rs:156-167 | a parsed number is below 2^32 (`parse::<u32>`); Text.ParsePrinted states that every printed u32 reads back |
| Text.ParsePrinted | src/cli.rs:156-167 | `parse::<u32>` reads back every printed number below 2^32 |
| Sorting.SortSorts | src/scraper/royalroad.rs:210 | `sort_by_key` orders the sequence by key |
| Sorting.SortPermutes | src/scraper/royalroad.rs:210 | the sort neither loses nor duplicates an element |
| Sorting.SortStable | src/scraper/scribblehub.rs:294 | elements with equal keys keep their relative order (the merge relies on it) |
| Sorting.SortSorted | src/scraper/royalroad.rs:422 | sorting an already sorted sequence changes nothing |
| Sorting.SortAppendSorted | src/scraper/royalroad.rs:447-452 | pushing one item onto a sorted list and re-sorting is one insertion |
| Scraper.FetchedAccepted | src/scraper/royalroad.rs:62-78 | the body is used exactly when the status is 2xx and the body was read; a non-success status is `HttpStatus` with URL and context; a transport error is `Network` |
| Scraper.SortChapters | src/scraper/royalroad.rs:422 | definition only, with no contract of its own; `sort_by_key` on the chapter index; the Sorting lemmas (sorted, a permutation, stable) and Scraper.SortedPush state what it promises |
| Scraper.SortedPush | src/scraper/scribblehub.rs:572-577 | push plus re-sort adds exactly that chapter and leaves the chapters sorted by index |
| Scraper.ParagraphsToBody | src/scraper/royalroad.rs:312-320 | the body is empty exactly when there are no paragraphs |
| Scraper.FirstSuffixMatch | src/scraper/mod.rs:17-26 | the suffix found is the first one, in list order, that the title ends with |
| Scraper.CutBounds | src/scraper/mod.rs:17-26 | cutting never lengthens a title and keeps it trimmed |
| Scraper.StrippedTitleBounds | src/scraper/mod.rs:17-26 | the stripped title is no longer than the trimmed one and is itself trimmed |
| Scraper.StripTitleSiteSuffix | src/scraper/mod.rs:17-26 | the loop over the suffixes returns the specified stripped title |
| Scraper.CutAt | src/scraper/mod.rs:20-23 | when suffix k is the first match, the result is the trimmed title without it |
| Scraper.CutNone | src/scraper/mod.rs:19-25 | a title ending with no suffix is left as it is |
| Scraper.CutRemovesOnlyTheEnd | src/scraper/mod.rs:20-23 | the title is what was kept followed by the matched suffix |
| Scraper.StripAtMostOnce | src/scraper/mod.rs:17-26 | a suffix that occurs twice is removed once |
| Scraper.StripSuffixedTitle | src/scraper/mod.rs:17-26 | a trimmed title followed by the first matching suffix comes back as that title |
| Scraper.StripExampleDash | src/scraper/mod.rs:126-133 | " - " inside a title survives |
| Scraper.StripExamplePipe | src/scraper/mod.rs:134-140 | " \| " inside a title survives |
| Scraper.StripExampleRoyalRoad | src/scraper/mod.rs:141-147 | the Royal Road suffix is cut and the title's own dashes survive |
| Scraper.ResolveSite | src/scraper/mod.rs:70-91 | the only errors are `InvalidUrl` and `UnrecognizedHost` |
| Scraper.OverrideWins | src/scraper/mod.rs:70-73 | an override is returned whatever the URL, even an unparseable one |
| Scraper.HostDecides | src/scraper/mod.rs:74-91 | Royal Road exactly when the host contains "royalroad.com", Scribble Hub exactly when it contains "scribblehub.com" and not that, otherwise `UnrecognizedHost` with the host |
| Scraper.InvalidUrlCarriesInput | src/scraper/mod.rs:74-80 | an unparseable URL or one without a host is `InvalidUrl` with the original input |
| Client.RateLimitBackoff | src/scraper/client.rs:79-83 | after a 429 the wait is 30, 60, 90, 120 seconds and then stays at 120 |
| Client.SendTimeRespectsDelay | src/scraper/client.rs:115-122 | a send never goes before the clock or sooner than the delay after the last request, and waits no longer than it must |
| Client.RunReturnsLastOutcome | src/scraper/client.rs:65-113 | the retry loop returns the outcome of its last send, after one to the remaining attempts' sends |
| Client.Retryable | src/scraper/client.rs:74-97 | definition only, with no contract of its own; a 5xx or 429 response, or a timeout or connect error; Client.RunStopsOnlyWhenItMust states that only these are retried |
| Client.RunStopsOnlyWhenItMust | src/scraper/client.rs:71-110 | every attempt before the last was retryable (5xx, 429, timeout, connect), and the last is not retryable or the final one allowed |
| Client.RunSpacing | src/scraper/client.rs:72-105 | every send waits for the delay after the last recorded request, and each retry goes no sooner than its backoff after the previous send |
| Client.SynthesizedBackoff | src/scraper/client.rs:189-192 | an empty schedule becomes `1 << min(i, 4)` for each of the retry count minus one retries |
| Client.SynthesizedForFive | src/scraper/client.rs:189-192 | with five attempts the synthesized schedule is 1, 2, 4, 8 |
| Client.PoliteClientBuilder.WithUserAgent | src/scraper/client.rs:149-152 | sets the user agent and nothing else |
| Client.PoliteClientBuilder.WithDelaySecs | src/scraper/client.rs:155-158 | sets the delay and nothing else |
| Client.PoliteClientBuilder.WithTimeoutSecs | src/scraper/client.rs:161-164 | sets the timeout and nothing else |
| Client.PoliteClientBuilder.WithRetryCount | src/scraper/client.rs:167-170 | sets the attempts to `max(n, 1)` and nothing else |
| Client.PoliteClientBuilder.WithRetryBackoffSecs | src/scraper/client.rs:173-176 | sets the schedule and nothing else |
| Client.PoliteClientBuilder.EffectiveBackoff | src/scraper/client.rs:189-195 | the configured schedule when non-empty, else one of length attempts minus one |
| Client.PoliteClient.constructor | src/scraper/client.rs:179-203 | a built client has the builder's delay, attempts and effective schedule, and no request recorded |
| Client.PoliteClient.WaitDelay | src/scraper/client.rs:115-122 | the clock moves to the earliest time the delay allows, and nothing else changes |
| Client.PoliteClient.Send | src/scraper/client.rs:39-57 | waits, sends, and records the time only when a response came back |
| Client.PoliteClient.GetWithRetry | src/scraper/client.rs:65-113 | the loop makes exactly the specified run's sends and returns its outcome, recording the time only for a returned response |
| Client.DefaultClientExhaustsOnTimeouts | src/scraper/client.rs:7-14 | with the defaults, five timeouts make five sends spaced by 1, 2, 4, 8 seconds and return the last timeout |
| Client.ClientErrorNotRetried | src/scraper/client.rs:59-64 | a 404 is returned at once without a retry |
| Client.DefaultBuilderSettings | src/scraper/client.rs:135-145 | the default builder has delay 4, timeout 30, five attempts, schedule 1, 2, 4, 8 and the default user agent |
| Client.EmptyScheduleSynthesized | src/scraper/client.rs:172-195 | an emptied schedule is replaced by one whose length is one less than the attempts |
| RoyalRoadScan.CloseAt | src/scraper/royalroad.rs:235-261 | a closing position found holds a ']' |
| RoyalRoadScan.ExtractJsonArrayWithStrings | src/scraper/royalroad.rs:230-263 | the scanning loop returns the specified span |
| RoyalRoadScan.SpanShape | src/scraper/royalroad.rs:230-263 | the span starts at the first '[' of the input, ends with ']' and is at least "[]" |
| RoyalRoadScan.NoBracketNoSpan | src/scraper/royalroad.rs:231 | without a '[' there is no span |
| RoyalRoadScan.QuoteFreeScanCounts | src/scraper/royalroad.rs:250-260 | without quotes the scan stops at the first ']' where the bracket balance returns to zero |
| RoyalRoadScan.WholeSpan | src/scraper/royalroad.rs:230-263 | an input that is one array closed by its last character is its own span |
| RoyalRoadScan.BracketInStringKept | src/scraper/royalroad.rs:236-262 | for every string content, whatever brackets and escaped quotes it holds, an array of that one string is kept whole |
| RoyalRoadScan.EscapedQuoteKept | src/scraper/royalroad.rs:237-244 | for every character and every rest of the input, a backslash inside a string makes the scan skip that character (a quote or a bracket included) and go on inside the string |
| RoyalRoadScan.StringSkipped | src/scraper/royalroad.rs:236-248 | for every string content and any rest, the scan inside a string ignores brackets and escaped quotes and resumes after the closing quote at the depth it had |
| RoyalRoadScan.UnclosedGivesNone | src/scraper/royalroad.rs:250-262 | for every quote-free input with a '[', there is no span exactly when no ']' brings the count of '[' minus ']' back to zero |
| RoyalRoadScan.StripHtmlTags | src/scraper/royalroad.rs:157-169 | the loop drops the tags, collapses "\n\n\n" once and trims, as specified |
| RoyalRoadScan.NoAngleBrackets | src/scraper/royalroad.rs:157-169 | no angle bracket survives tag removal |
| RoyalRoadScan.PlainTextKept | src/scraper/royalroad.rs:157-169 | text without tags is kept as it is |
| RoyalRoadScan.TagsDropped | src/scraper/royalroad.rs:157-169 | "<p>Hi</p>" gives "Hi" |
| RoyalRoadToc.IndexOfOrder | src/scraper/royalroad.rs:207 | the index is order + 1, wrapping to 0 at the u32 limit as a release build computes it (a debug build panics there instead) |
| RoyalRoadToc.EntryDefaults | src/scraper/royalroad.rs:200-208 | a missing order gives index 1; an entry is locked exactly when isUnlocked is present and false |
| RoyalRoadToc.Entries | src/scraper/royalroad.rs:199-209 | one entry per window chapter, or a `ChapterListParse` error |
| RoyalRoadToc.TocFromHtml | src/scraper/royalroad.rs:173-212 | every failure is `ChapterListParse` |
| RoyalRoadToc.ResolveEntries | src/scraper/royalroad.rs:199-209 | the loop builds the specified entries |
| RoyalRoadToc.ParseTocWithLocked | src/scraper/royalroad.rs:173-212 | the step-by-step parse returns the specified table of contents |
| RoyalRoadToc.EntriesMap | src/scraper/royalroad.rs:199-209 | entry k is window chapter k with its resolved URL |
| RoyalRoadToc.TocSortedPermutation | src/scraper/royalroad.rs:210 | the table of contents is sorted by index and is a permutation of the decoded entries |
| RoyalRoadToc.TocMarkersRequired | src/scraper/royalroad.rs:174-185 | no `window.chapters = `, or no '[' after it, is a `ChapterListParse` error naming which |
| RoyalRoadToc.UnlockedOnlyKeeps | src/scraper/royalroad.rs:218-222 | exactly the unlocked entries are kept |
| RoyalRoadToc.UnlockedOnlyEmpty | src/scraper/royalroad.rs:223 | nothing is left exactly when every entry is locked |
| RoyalRoadToc.ParseToc | src/scraper/royalroad.rs:216-227 | definition only, with no contract of its own; the unlocked entries, or EmptyChapterList; RoyalRoadToc.UnlockedOnlyKeeps and RoyalRoadToc.ParseTocEmpty state what it promises |
| RoyalRoadToc.ParseTocEmpty | src/scraper/royalroad.rs:216-227 | `parse_toc` fails with `EmptyChapterList` when every entry is locked |
| RoyalRoadPages.FictionUrlAccepted | src/scraper/royalroad.rs:47-59 | a URL is accepted, unchanged, exactly when it parses and its path has no "/chapter/"; otherwise `InvalidUrl` or `ParseStoryPage` |
| RoyalRoadPages.NonEmpty | src/scraper/royalroad.rs:81-155 | an optional text is kept exactly when it is present and non-empty |
| RoyalRoadPages.ParseMetadata | src/scraper/royalroad.rs:81-155 | definition only, with no contract of its own; JSON-LD first, then the DOM; RoyalRoadPages.MetadataComplete, RoyalRoadPages.LdPreferred and RoyalRoadPages.MetadataFailure state what it promises |
| RoyalRoadPages.MetadataComplete | src/scraper/royalroad.rs:81-155 | metadata always has a non-empty title and author and no empty optional field |
| RoyalRoadPages.LdPreferred | src/scraper/royalroad.rs:85-110 | a JSON-LD Book with a name and an author wins over the DOM |
| RoyalRoadPages.MetadataFailure | src/scraper/royalroad.rs:111-155 | metadata fails exactly when both sources lack a title or an author |
| RoyalRoadPages.ChapterPageOutcome | src/scraper/royalroad.rs:266-330 | a page fails with `ParseChapter` exactly when the container is missing or has no paragraph; a parsed page has a non-empty body |
| RoyalRoadPages.ChapterTitleFallback | src/scraper/royalroad.rs:266-301 | with no heading or page title the title is "Chapter {index}" |
| RoyalRoadPages.OgTitleStripped | src/scraper/royalroad.rs:276-301 | the og:title loses its " \| Royal Road" suffix |
| RoyalRoadCrawl.LockedCount | src/scraper/royalroad.rs:363 | the locked count is at most the number of entries |
| RoyalRoadCrawl.LockedCountZero | src/scraper/royalroad.rs:363-364 | the count is zero exactly when every entry is unlocked |
| RoyalRoadCrawl.InRangeOnlyKeeps | src/scraper/royalroad.rs:376-378 | the range filter keeps exactly the entries in range, in order; without a range nothing changes |
| RoyalRoadCrawl.TocOnlyChapters | src/scraper/royalroad.rs:394-423 | the toc-only loop lists the specified empty-bodied chapters |
| RoyalRoadCrawl.ScrapeSpec | src/scraper/royalroad.rs:346-569 | definition only, with no contract of its own; the whole Royal Road scrape with its request trace; RoyalRoadCrawl.ScrapeBook is proved equal to it, and the RoyalRoadCrawl.Scrape* lemmas state what it promises |
| RoyalRoadCrawl.ScrapeBook | src/scraper/royalroad.rs:346-569 | the method's result and trace are those of the specified scrape |
| RoyalRoadCrawl.CrawlToc | src/scraper/royalroad.rs:362-569 | the part after the story page matches its specification |
| RoyalRoadCrawl.VisitEntry | src/scraper/royalroad.rs:427-560 | one turn of the loop is one specified step |
| RoyalRoadCrawl.VisitLocked | src/scraper/royalroad.rs:436-464 | a locked entry is skipped, gets a placeholder, or stops the scrape, as specified |
| RoyalRoadCrawl.VisitUnlocked | src/scraper/royalroad.rs:466-493 | a failed request skips the chapter, as specified |
| RoyalRoadCrawl.VisitPage | src/scraper/royalroad.rs:495-559 | handling a fetched page matches its specification |
| RoyalRoadCrawl.AppendedOutcome | src/scraper/royalroad.rs:534-539 | an appended chapter re-sorts the book and is reported to the checkpoint |
| RoyalRoadCrawl.StepOutcome | src/scraper/royalroad.rs:427-560 | a step reports progress (and requests an unlocked page) before its outcome; the count rises whatever the outcome |
| RoyalRoadCrawl.FailedFetchSkips | src/scraper/royalroad.rs:466-493 | a transport error, a non-success status or a failed body read skips only that chapter |
| RoyalRoadCrawl.StepFetches | src/scraper/royalroad.rs:427-466 | a step requests the entry's URL exactly when it is unlocked and its index is not in the book |
| RoyalRoadCrawl.CrawlGrows | src/scraper/royalroad.rs:427-560 | the pass only adds events and chapters, keeps the book's other fields and keeps it sorted |
| RoyalRoadCrawl.CrawlFetches | src/scraper/royalroad.rs:427-560 | every request is for an unlocked entry whose index was not in the starting book |
| RoyalRoadCrawl.CrawlEvents | src/scraper/royalroad.rs:431-455 | every progress event carries the total, every checkpoint a sorted book keeping the starting chapters |
| RoyalRoadCrawl.ScrapeEarlyErrors | src/scraper/royalroad.rs:351-360 | an invalid URL makes no request; a failed story page stops after that one request |
| RoyalRoadCrawl.ScrapeReachesToc | src/scraper/royalroad.rs:351-362 | once the story page and TOC are read the rest starts from the one request made |
| RoyalRoadCrawl.LockedFailsFast | src/scraper/royalroad.rs:363-373 | a locked entry under the Fail policy fails with the locked count before any chapter request |
| RoyalRoadCrawl.TocOnlyFetchesNoChapter | src/scraper/royalroad.rs:394-423 | toc-only mode requests nothing, reports nothing and returns a sorted book keeping its chapters |
| RoyalRoadCrawl.TocOnlyExtends | src/scraper/royalroad.rs:398-421 | toc-only mode only appends chapters |
| RoyalRoadCrawl.FetchesOnlyWanted | src/scraper/royalroad.rs:375-466 | every chapter request is for an unlocked entry in range whose index was not in the resumed book |
| RoyalRoadCrawl.ScrapeEvents | src/scraper/royalroad.rs:426-560 | progress carries the whole TOC's total; checkpoints carry a sorted book with every starting chapter |
| RoyalRoadCrawl.ScrapeKeepsResumed | src/scraper/royalroad.rs:380-568 | a successful crawl has a chapter, keeps the resumed chapters and fields, and stays sorted |
| RoyalRoadCrawl.FreshBook | src/scraper/royalroad.rs:380-392 | a new book starts with no chapters and the fiction URL as its source |
| ScribbleHubToc.ExtractSeriesId | src/scraper/scribblehub.rs:28-37 | an id is a non-empty run of digits right after "/series/" in the path |
| ScribbleHubToc.SeriesIdRead | src/scraper/scribblehub.rs:28-37 | "/series/{digits}" followed by nothing or "/…" gives those digits |
| ScribbleHubToc.SeriesIdNeedsPrefix | src/scraper/scribblehub.rs:30-31 | without a leading "/series/" there is no id |
| ScribbleHubToc.SeriesUrlAccepted | src/scraper/scribblehub.rs:40-66 | a URL is accepted, unchanged, exactly when it parses, has a Scribble Hub host, is not a chapter path and contains "/series/" |
| ScribbleHubToc.FirstTocParam | src/scraper/scribblehub.rs:236-248 | the page is the first "toc=" parameter that parses as a u32, else 1 |
| ScribbleHubToc.ParseTocPageFromUrl | src/scraper/scribblehub.rs:236-248 | the page number fits a u32 |
| ScribbleHubToc.NoQueryIsFirstPage | src/scraper/scribblehub.rs:237-238 | a URL without '?' is page 1 |
| ScribbleHubToc.QueryPageNumber | src/scraper/scribblehub.rs:236-248 | a query of given parameters gives the first page number among them, or 1 |
| ScribbleHubToc.SplitJoin | src/scraper/scribblehub.rs:239 | splitting joined pieces on a separator they lack gives them back |
| ScribbleHubToc.ItemOf | src/scraper/scribblehub.rs:200-229 | an `li` gives nothing, its entry, or `ChapterListParse` when its href does not join |
| ScribbleHubToc.ItemsFrom | src/scraper/scribblehub.rs:199-231 | no more entries than `li` elements |
| ScribbleHubToc.ParseTocPage | src/scraper/scribblehub.rs:192-233 | the loop returns the specified entries |
| ScribbleHubToc.ItemsFromLinks | src/scraper/scribblehub.rs:192-233 | fails only with `ChapterListParse`; every entry comes from one `li` |
| ScribbleHubToc.FirstLinkTo | src/scraper/scribblehub.rs:266-288 | the first usable link to the page that joins is chosen |
| ScribbleHubToc.FirstLinkSource | src/scraper/scribblehub.rs:266-288 | a chosen link is a usable link to that page |
| ScribbleHubToc.NextLinkPreferred | src/scraper/scribblehub.rs:255-264 | a usable `.next` href that joins wins |
| ScribbleHubToc.NoNextPage | src/scraper/scribblehub.rs:253-290 | a "#" or empty `.next` and no link to the following page means no next page |
| ScribbleHubToc.NextPageSource | src/scraper/scribblehub.rs:253-290 | the next page is the joined `.next` href or a joined link to page current+1, computed modulo 2^32 as a release build does |
| ScribbleHubToc.DedupFirst | src/scraper/scribblehub.rs:295-296 | the URL filter never adds entries |
| ScribbleHubToc.MergeTocEntries | src/scraper/scribblehub.rs:293-298 | sort then `retain` returns the specified merge |
| ScribbleHubToc.DedupKeepsFirst | src/scraper/scribblehub.rs:295-296 | each kept entry is the first of its URL |
| ScribbleHubToc.DedupUnique | src/scraper/scribblehub.rs:295-296 | each URL is kept at most once |
| ScribbleHubToc.DedupCovers | src/scraper/scribblehub.rs:295-296 | every URL not yet seen is kept |
| ScribbleHubToc.DedupSorted | src/scraper/scribblehub.rs:295-296 | the filter keeps a sorted list sorted |
| ScribbleHubToc.MergedSorted | src/scraper/scribblehub.rs:293-298 | the merge is sorted by order |
| ScribbleHubToc.MergedUnique | src/scraper/scribblehub.rs:293-298 | no two merged entries share a URL |
| ScribbleHubToc.MergedCovers | src/scraper/scribblehub.rs:293-298 | every input URL is in the merge |
| ScribbleHubToc.Merged | src/scraper/scribblehub.rs:293-298 | definition only, with no contract of its own; a stable sort by order, then the first entry per URL; ScribbleHubToc.MergedSorted, MergedUnique, MergedCovers and MergedKeepsFirst state what it promises |
| ScribbleHubToc.MergedKeepsFirst | src/scraper/scribblehub.rs:293-298 | each merged entry is the first with its URL in the stable sort |
| ScribbleHubToc.MergeKeepsFirst | src/scraper/scribblehub.rs:721-736 | a repeated URL across pages keeps its first title |
| ScribbleHubPages.NextScript | src/scraper/scribblehub.rs:94-102 | a closed script ends after its closing tag, within the document |
| ScribbleHubPages.FirstBook | src/scraper/scribblehub.rs:94-132 | a result is what some script reads to |
| ScribbleHubPages.ScanAgrees | src/scraper/scribblehub.rs:94-132 | when the loop as written does not panic it finds what the intended scan finds |
| ScribbleHubPages.PanicsOnUnclosed | src/scraper/scribblehub.rs:94-102 | the written loop panics exactly when an unclosed, non-Book script follows no Book |
| ScribbleHubPages.UnterminatedScriptPanics | src/scraper/scribblehub.rs:94-102 | a document ending in an unclosed `{}` script panics as written and finds no Book as intended |
| ScribbleHubPages.UnclosedScript | src/scraper/scribblehub.rs:94-102 | an opening tag followed by text with no closing tag yields exactly one script, unclosed, holding all that text |
| ScribbleHubPages.FirstBookScriptWins | src/scraper/scribblehub.rs:94-132 | a first script that reads to a Book decides the scan |
| ScribbleHubPages.ScanLdScripts | src/scraper/scribblehub.rs:94-132 | the corrected loop returns the first Book among the scripts |
| ScribbleHubPages.ParseSeriesMetadata | src/scraper/scribblehub.rs:91-175 | definition only, with no contract of its own; the first JSON-LD Book, else the DOM; ScribbleHubPages.SeriesMetadataComplete and ScribbleHubPages.DomFallback state what it promises |
| ScribbleHubPages.ReaderComplete | src/scraper/scribblehub.rs:104-128 | a script read as a Book has a non-empty name and author |
| ScribbleHubPages.FirstBookComplete | src/scraper/scribblehub.rs:94-128 | the first Book of any list of scripts has a non-empty title and author and no empty optional field |
| ScribbleHubPages.SeriesMetadataComplete | src/scraper/scribblehub.rs:91-175 | metadata always has a title and an author and no empty optional field |
| ScribbleHubPages.DomFallback | src/scraper/scribblehub.rs:134-175 | without a JSON-LD Book the DOM decides, with no description, and fails exactly without a title or author |
| ScribbleHubPages.FicTitlePreferred | src/scraper/scribblehub.rs:134-150 | the trimmed `div.fic_title` wins over the untrimmed og:title |
| ScribbleHubPages.ShChapterPageOutcome | src/scraper/scribblehub.rs:385-430 | a page fails with `ParseChapter` exactly when the container is missing or has no paragraph |
| ScribbleHubPages.ShChapterTitleFallback | src/scraper/scribblehub.rs:385-402 | with no chapter or page title the title is "Chapter {index}" |
| ScribbleHubPages.PageTitleStripped | src/scraper/scribblehub.rs:682-701 | the page title loses " \| Scribble Hub" and keeps its own " - " and " \| " |
| ScribbleHubCrawl.FetchFullToc | src/scraper/scribblehub.rs:342-382 | the method returns the specified table of contents and trace |
| ScribbleHubCrawl.PaginatedToc | src/scraper/scribblehub.rs:356-382 | the paginated fallback matches its specification |
| ScribbleHubCrawl.FollowPages | src/scraper/scribblehub.rs:361-375 | the next-page loop matches its specification |
| ScribbleHubCrawl.WantedItemsKeeps | src/scraper/scribblehub.rs:464-466 | the range filter keeps exactly the entries in range, in order |
| ScribbleHubCrawl.TocOnlyChapters | src/scraper/scribblehub.rs:482-495 | the toc-only loop lists the specified chapters |
| ScribbleHubCrawl.ScrapeBook | src/scraper/scribblehub.rs:446-619 | the method's outcome is that of the specified scrape |
| ScribbleHubCrawl.CrawlToc | src/scraper/scribblehub.rs:463-619 | the part after the TOC matches its specification |
| ScribbleHubCrawl.VisitEntry | src/scraper/scribblehub.rs:498-612 | one turn of the loop is one specified step |
| ScribbleHubCrawl.VisitPage | src/scraper/scribblehub.rs:534-611 | handling a fetched page matches its specification |
| ScribbleHubCrawl.MergedCrawlable | src/scraper/scribblehub.rs:293-298 | a non-empty merge is sorted with unique URLs |
| ScribbleHubCrawl.MorePagesGrow | src/scraper/scribblehub.rs:361-375 | the page loop requests one page per turn, keeps earlier entries first, and stays within the fuel |
| ScribbleHubCrawl.MorePagesFuel | src/scraper/scribblehub.rs:361-375 | more fuel changes nothing once the loop has ended |
| ScribbleHubCrawl.FullTocCrawlable | src/scraper/scribblehub.rs:342-382 | a fetched table of contents is sorted, URL-unique and non-empty |
| ScribbleHubCrawl.AjaxFirst | src/scraper/scribblehub.rs:347-354 | with a series id the AJAX answer comes first; its error or a non-empty list ends the fetch |
| ScribbleHubCrawl.PagesFallback | src/scraper/scribblehub.rs:356-382 | without an id, or with an empty AJAX list, the series page's entries come first |
| ScribbleHubCrawl.SinglePage | src/scraper/scribblehub.rs:356-382 | a series page with no next link needs no fuel |
| ScribbleHubCrawl.StepOutcome | src/scraper/scribblehub.rs:498-612 | a step requests, then counts only added chapters |
| ScribbleHubCrawl.FailedFetchSkips | src/scraper/scribblehub.rs:505-532 | a failed request leaves the book and the count unchanged |
| ScribbleHubCrawl.UnparsedPolicy | src/scraper/scribblehub.rs:586-609 | an unparsable page under Fail stops with `ParseChapter`; under Skip it is left out and not counted |
| ScribbleHubCrawl.StepFetches | src/scraper/scribblehub.rs:498-505 | a step requests the entry's URL exactly when its index is not in the book |
| ScribbleHubCrawl.CrawlGrows | src/scraper/scribblehub.rs:497-612 | the pass only adds, keeps the other fields, stays sorted, and counts exactly the chapters added |
| ScribbleHubCrawl.CrawlFetches | src/scraper/scribblehub.rs:497-612 | every request is for an entry whose index was not in the starting book |
| ScribbleHubCrawl.CrawlEvents | src/scraper/scribblehub.rs:578-584 | progress carries the total; checkpoints carry a sorted book keeping the starting chapters |
| ScribbleHubCrawl.ScrapeEarlyErrors | src/scraper/scribblehub.rs:451-460 | an invalid URL makes no request; a failed series page stops after one request |
| ScribbleHubCrawl.ScrapeReachesToc | src/scraper/scribblehub.rs:451-462 | after the TOC the crawl starts from the requests so far on a sorted, URL-unique list |
| ScribbleHubCrawl.ScrapeFuel | src/scraper/scribblehub.rs:361-375 | a scrape that ends within some fuel ends the same way with more |
| ScribbleHubCrawl.TocOnlyExtends | src/scraper/scribblehub.rs:483-492 | toc-only mode only appends chapters |
| ScribbleHubCrawl.TocOnlyFetchesNoChapter | src/scraper/scribblehub.rs:482-495 | toc-only mode requests no chapter and returns a sorted book keeping its chapters |
| ScribbleHubCrawl.FetchesOnlyWanted | src/scraper/scribblehub.rs:464-505 | every chapter request is for an entry in range not in the resumed book |
| ScribbleHubCrawl.ScrapeEvents | src/scraper/scribblehub.rs:497-612 | progress and checkpoint events are well formed |
| ScribbleHubCrawl.ScrapeKeepsResumed | src/scraper/scribblehub.rs:468-618 | a successful crawl has a chapter, keeps the resumed chapters and fields, and stays sorted |
| ScribbleHubCrawl.FreshBook | src/scraper/scribblehub.rs:468-480 | a new book starts with no chapters and the series URL as its source |
| Dispatch.ScrapeBook | src/scraper/mod.rs:103-119 | definition only, with no contract of its own; the scrape of the chosen site; Dispatch.RoutesToOwnAdapter and Dispatch.RoyalRoadNeedsNoFuel state what it promises |
| Dispatch.RoutesToOwnAdapter | src/scraper/mod.rs:103-119 | each site goes to its own adapter, which ignores the other site's pages |
| Dispatch.RoyalRoadNeedsNoFuel | src/scraper/mod.rs:103-119 | a Royal Road scrape always ends |
| Dispatch.ForcedScribbleHubOnForeignHost | src/scraper/mod.rs:70-73 | a forced Scribble Hub site on a foreign host passes resolution and is rejected by the adapter before any request |
| Dispatch.ResolvedHostAccepted | src/scraper/scribblehub.rs:40-66 | a host resolved as Scribble Hub is never rejected for its host |
| Formats.ValidateBook | src/formats.rs:41-49 | definition only, with no contract of its own; Formats.ValidateBookChecks states what it promises |
| Formats.ValidateBookChecks | src/formats.rs:41-49 | title then author, blank meaning whitespace only; a book without chapters passes |
| Formats.WriteBlocks | src/formats.rs:71-179 | the chapter loop appends each chapter's block in turn |
| Formats.BlocksAt | src/formats.rs:71-179 | chapter k's block sits between the blocks before and after it |
| Formats.BlocksLength | src/formats.rs:71-179 | n lines per chapter give n times the chapters |
| Formats.HtmlSection | src/formats.rs:103-112 | a chapter's section is six lines |
| Formats.HtmlDocument | src/formats.rs:71-118 | definition only, with no contract of its own; the lines `write_html` writes; Formats.WriteHtml is proved equal to it, and Formats.HtmlSectionsInOrder and Formats.HtmlDescriptionShown state what it promises |
| Formats.WriteHtml | src/formats.rs:71-118 | the writer produces the specified document |
| Formats.HtmlDescriptionShown | src/formats.rs:82-100 | the description paragraph appears exactly for a non-empty description |
| Formats.HtmlSectionsInOrder | src/formats.rs:103-112 | chapter k's section is lines 6k to 6k+5, in book order |
| Formats.PlainTextFallback | src/formats.rs:59-68 | plain text falls back to the trimmed body exactly when the parsed text is blank |
| Formats.TextBlock | src/formats.rs:170-176 | a chapter's block is four lines |
| Formats.TextDocument | src/formats.rs:153-179 | definition only, with no contract of its own; the lines `write_text` writes; Formats.WriteText is proved equal to it, and Formats.TextHeadingsInOrder states what it promises |
| Formats.WriteText | src/formats.rs:153-179 | the writer produces the specified document |
| Formats.TextHeadingsInOrder | src/formats.rs:170-176 | chapter k's heading is line 4k+1, numbered by its own index, followed by its plain text |
| Formats.TextHeadingExample | src/formats.rs:231-242 | chapter 1 "Chapter One" is headed "--- Chapter 1: Chapter One ---" |
| Formats.MarkdownBlock | src/formats.rs:141-147 | a chapter's block is four lines |
| Formats.MarkdownDocument | src/formats.rs:121-150 | definition only, with no contract of its own; the lines `write_markdown` writes; Formats.WriteMarkdown is proved equal to it, and Formats.MarkdownHeadingsInOrder states what it promises |
| Formats.WriteMarkdown | src/formats.rs:121-150 | the writer produces the specified document |
| Formats.MarkdownHeadingsInOrder | src/formats.rs:141-147 | chapter k's heading "## title" is line 4k |
| Formats.EmptyDescription | src/formats.rs:71-179 | an empty description is dropped by HTML and written by text and Markdown |
| Epub.ValidateBook | src/epub/mod.rs:155-166 | definition only, with no contract of its own; Epub.ValidateBookOrder states what it promises |
| Epub.ValidateBookOrder | src/epub/mod.rs:155-166 | title, author, then chapters, each error only after the earlier checks pass |
| Epub.Identifier | src/epub/mod.rs:219-224 | the source URL, else the fixed URN |
| Epub.DescriptionElement | src/epub/mod.rs:335-339 | a description element exactly for a non-empty description |
| Epub.CoverExtension | src/epub/mod.rs:192-203 | jpg exactly when the content type mentions jpeg or jpg, else png |
| Epub.FetchCover | src/epub/mod.rs:169-217 | definition only, with no contract of its own; Epub.CoverDecision states what it promises |
| Epub.CoverDecision | src/epub/mod.rs:169-217 | no cover exactly without a URL; an image exactly when the request and body read succeed; otherwise a title-only page |
| Epub.CoverMediaType | src/epub/mod.rs:467-472 | image/jpeg exactly for jpg, else image/png |
| Epub.CoverMediaTypeFollowsContentType | src/epub/mod.rs:192-203 | the declared media type agrees with the server's content type |
| Epub.ChapterDocs | src/epub/mod.rs:275-280 | n chapter documents |
| Epub.ChapterDocsAt | src/epub/mod.rs:275-280 | document k is chapter k+1 |
| Epub.ChapterDocsContain | src/epub/mod.rs:275-280 | a document is listed exactly when it is chapter 1 to n |
| Epub.Manifest | src/epub/mod.rs:243-282 | definition only, with no contract of its own; Epub.BuildManifest is proved equal to it, and Epub.ManifestFixed and Epub.ManifestImageAndChapters state what it promises |
| Epub.BuildManifest | src/epub/mod.rs:243-282 | the pushes build the specified manifest |
| Epub.ManifestFixed | src/epub/mod.rs:243-274 | the fixed items, NCX and pages appear exactly when the version and options call for them |
| Epub.ManifestImageAndChapters | src/epub/mod.rs:255-282 | the image only for an image cover, under its extension, and exactly chapters 1 to n |
| Epub.Spine | src/epub/mod.rs:284-303 | definition only, with no contract of its own; Epub.BuildSpine is proved equal to it, and Epub.SpineOrder and Epub.SpineInManifest state what it promises |
| Epub.BuildSpine | src/epub/mod.rs:284-303 | the pushes build the specified spine |
| Epub.SpineOrder | src/epub/mod.rs:284-303 | cover page, TOC page, then chapters 1 to n; the chapter-1 fallback never applies with a chapter |
| Epub.SpineInManifest | src/epub/mod.rs:243-303 | every spine entry is in the manifest, and nav, NCX and image are never in the spine |
| Epub.NavLinks | src/epub/mod.rs:474-511 | one link per chapter |
| Epub.NavPoints | src/epub/mod.rs:551-593 | one navPoint per chapter |
| Epub.BuildNavLinks | src/epub/mod.rs:474-511 | the loop builds the specified links |
| Epub.BuildNavPoints | src/epub/mod.rs:551-593 | the loop builds the specified navPoints |
| Epub.NavLinksInOrder | src/epub/mod.rs:474-511 | link k points at chapter k+1 with its escaped title |
| Epub.NavPointsInOrder | src/epub/mod.rs:551-593 | navPoint k has play order k+1 and points at chapter k+1 |
| Epub.ImageDocs | src/epub/mod.rs:145-149 | the image entry only for an image cover |
| Epub.WriteDocuments | src/epub/mod.rs:114-149 | the documents are written in the specified order |
| Epub.EpubEntries | src/epub/mod.rs:79-153 | definition only, with no contract of its own; Epub.WriteEpub is proved equal to it, and Epub.ArchiveContents, Epub.MimetypeFirst and Epub.ManifestMatchesArchive state what it promises |
| Epub.WriteEpub | src/epub/mod.rs:79-153 | the writer produces the specified entries |
| Epub.CoverNeverFails | src/epub/mod.rs:79-153 | the writer fails exactly on an invalid book, never because of the cover |
| Epub.MimetypeFirst | src/epub/mod.rs:103-109 | mimetype first and alone stored; container second |
| Epub.ArchiveContents | src/epub/mod.rs:114-149 | the archive holds the package, nav/NCX, cover, TOC page and chapters 1 to n as called for |
| Epub.ManifestMatchesArchive | src/epub/mod.rs:114-149 | the archive holds exactly the documents the manifest lists |
| Cli.ExitCode | src/cli.rs:37-45 | 1 for bad input, 2 for a scrape failure, 3 for writing or validating |
| Cli.ParseChapterRange | src/cli.rs:145-175 | a range has start at most end; `MissingDash` exactly when the trimmed text has no '-' |
| Cli.SplitRange | src/cli.rs:147-152 | a split range has start at most end; `MissingDash` exactly without a '-' |
| Cli.ParseBounds | src/cli.rs:153-174 | parsed bounds are ordered, and their errors are never `MissingDash` |
| Cli.RangeParts | src/cli.rs:145-175 | "a-b" parses its trimmed sides |
| Cli.BoundsErrors | src/cli.rs:153-174 | a bad start first, a bad end only after a good start, a backwards range only when both parse |
| Cli.ChapterRangeRoundTrip | src/cli.rs:536-557 | a printed range parses back |
| Cli.ExtensionRoundTrip | src/cli.rs:212-234 | every extension parses back as its format, so extensions are distinct |
| Cli.ParseSite | src/cli.rs:177-186 | definition only, with no contract of its own; Cli.SiteIgnoresCase, Cli.SiteNamesAccepted and Cli.UnknownRefused state what it promises |
| Cli.ParseFormat | src/cli.rs:212-224 | definition only, with no contract of its own; Cli.FormatIgnoresCase, Cli.FormatLongNamesAccepted and Cli.ExtensionRoundTrip state what it promises |
| Cli.ParseLockedBehavior | src/cli.rs:188-198 | definition only, with no contract of its own; Cli.LockedBehaviorIgnoresCase and Cli.PolicyNamesAccepted state what it promises |
| Cli.ParseEmptyChapterBehavior | src/cli.rs:200-210 | definition only, with no contract of its own; Cli.EmptyChapterBehaviorIgnoresCase and Cli.PolicyNamesAccepted state what it promises |
| Cli.SiteNamesAccepted | src/cli.rs:177-186 | the site names and abbreviations parse |
| Cli.FormatLongNamesAccepted | src/cli.rs:212-224 | "markdown" and "text" parse |
| Cli.PolicyNamesAccepted | src/cli.rs:188-210 | skip, placeholder and fail parse for both policies |
| Cli.SiteIgnoresCase | src/cli.rs:177-186 | case does not matter to the site parser |
| Cli.FormatIgnoresCase | src/cli.rs:212-224 | case does not matter to the format parser |
| Cli.LockedBehaviorIgnoresCase | src/cli.rs:188-198 | case does not matter to the locked-chapter parser |
| Cli.EmptyChapterBehaviorIgnoresCase | src/cli.rs:200-210 | case does not matter to the empty-chapter parser |
| Cli.UpperCaseAccepted | src/cli.rs:569-622 | upper-case spellings parse |
| Cli.UnknownRefused | src/cli.rs:582-602 | unknown values are refused |
| Cli.SlugChar | src/cli.rs:238-247 | a letter or digit is lower-cased, anything else becomes '-' |
| Cli.SlugChars | src/cli.rs:238-247 | the mapping is character by character |
| Cli.SqueezeReplace | src/cli.rs:248-250 | one replace pass does not change the squeezed result |
| Cli.SqueezeFixed | src/cli.rs:248-250 | with no "--" left, squeezing changes nothing |
| Cli.ReplaceShrinks | src/cli.rs:248-250 | a pass shortens while "--" remains, so the loop ends |
| Cli.SanitizedTitle | src/cli.rs:237-257 | definition only, with no contract of its own; Cli.SanitizeTitle is proved equal to it, and Cli.SanitizedShape and Cli.SanitizeIdempotent state what it promises |
| Cli.SanitizeTitle | src/cli.rs:236-257 | the loop returns the specified sanitized title |
| Cli.SanitizedShape | src/cli.rs:236-257 | only lower-case letters, digits and single dashes, no dash at either end, never empty |
| Cli.SanitizeIdempotent | src/cli.rs:236-257 | sanitizing twice is sanitizing once |
| Cli.SanitizeIgnoresCase | src/cli.rs:532-535 | only the case-insensitive content of a title matters |
| Cli.SanitizeNothingLeft | src/cli.rs:517-521 | a title without letters or digits becomes "book" |
| Cli.LoadResume | src/cli.rs:353-386 | every failure is bad input; the run starts afresh exactly when the file is missing; a resumed book is the decoded file and names the same story |
| Cli.ResumeGuard | src/cli.rs:353-386 | a resumed book is for the same story; a failure is exit code 1; a missing file starts afresh |
| Cli.ResumeFromCheckpoint | src/cli.rs:353-408 | a checkpointed book resumes as saved |
| Cli.TrailingSlashIgnored | src/cli.rs:363-366 | trailing slashes do not matter to the guard |
| Cli.FirstOf | src/cli.rs:293-316 | the flag, then the config key, then the default |
| Cli.FlagsOverrideConfig | src/cli.rs:293-316 | a flag decides its setting whatever the config says |
| Cli.EffectiveSettings | src/cli.rs:288-316 | definition only, with no contract of its own; Cli.FlagsOverrideConfig, Cli.ConfigOverridesDefaults and Cli.RetryCountPositive state what it promises |
| Cli.ConfigOverridesDefaults | src/cli.rs:288-316 | without flags the config decides; retries at least 1; an unknown policy is skipped |
| Cli.Defaults | src/cli.rs:288-316 | no flags and no config give ".", 2 s, 30 s, 3 attempts, 1, 2, 4, Skip and a TOC page |
| Cli.RetryCountPositive | src/cli.rs:300-305 | the client always gets at least one attempt |
| Cli.BuilderCarriesSettings | src/cli.rs:318-328 | the builder carries the settings, which differ from the client's own defaults |
| Cli.JoinPath | src/cli.rs:460-467 | the name is joined to the directory with at most one added '/' |
| Cli.SanitizedNoSlash | src/cli.rs:236-257 | a sanitized title has no '/' |
| Cli.DefaultFileNameNoSlash | src/cli.rs:460-467 | the default file name has no '/' |
| Cli.OutputPath | src/cli.rs:460-467 | definition only, with no contract of its own; Cli.OutputPathShape and Cli.DefaultFileNameNoSlash state what it promises |
| Cli.OutputPathShape | src/cli.rs:460-467 | `--output` wins; otherwise the file lands directly in the output directory |
| Cli.DefaultOutputInCurrentDirectory | src/cli.rs:560-567 | with no output and no config the book is "./<title>.<ext>" |
| Cli.SiteError | src/cli.rs:274-284 | URL and host errors are bad input |
| Cli.ScrapeOptionsFor | src/cli.rs:420-453 | a dry run asks for the TOC only, without progress, resume or checkpoints |
| Cli.EpubCheckResult | src/cli.rs:48-69 | success exactly when epubcheck passes; otherwise exit code 3 |
| Cli.Prepare | src/cli.rs:273-386 | every failure is bad input (exit code 1); on success the site is the one `resolve_site` gives, the settings are those of the loaded config, and there is no resume book without `--resume` |
| Cli.RunWith | src/cli.rs:273-510 | only the scrape can leave the run unfinished; a successful run is a dry-run report exactly when a dry run was asked for; a failure before scraping exits with 1 |
| Cli.Run | src/cli.rs:273-510 | definition only, with no contract of its own; RunWith with Dispatch.ScrapeBook as the scraper, so every Cli lemma about RunWith applies to it |
| Cli.BadInputExitsOne | src/cli.rs:273-291 | a bad URL or config exits 1 before scraping |
| Cli.BadResumeStopsBeforeScraping | src/cli.rs:353-386 | a bad resume file exits 1 before scraping |
| Cli.ScrapeFailureExitsTwo | src/cli.rs:444-453 | a failed scrape exits 2 and writes nothing |
| Cli.DryRunWritesNothing | src/cli.rs:420-442 | a dry run writes nothing and ignores everything output-side |
| Cli.Finish | src/cli.rs:420-507 | a success is at the output path and is a dry-run report exactly for a dry run; a failure happens only in a real run and exits with 1 exactly when the output directory is missing |
| Cli.Deliver | src/cli.rs:470-504 | a success is at the given path, is JSON exactly for the JSON format and an EPUB exactly for EPUB; every failure exits with 3 |
| Cli.FinishWritesFormat | src/cli.rs:460-504 | after a successful scrape a real run fails with exit 1 when the output directory is missing, and otherwise writes exactly what the format's writer produces for JSON, EPUB, HTML, Markdown and text; a JSON file that cannot be created is the EPUB file error with exit 3 |
| Cli.JsonOutputResumes | src/cli.rs:472-480 | a JSON output resumes as the same book |
| Cli.ResumedRunContinuesBook | src/cli.rs:353-453 | a resumed run hands the saved book to the scraper and saves checkpoints |

## Left out

- HTTP itself (reqwest, cookies, redirects, timeouts, sleeping): each request's outcome is a parameter, and time is an explicit clock.
- HTML parsing and CSS selectors: pages are pre-extracted records of what the selectors would return; `text()` of a parsed fragment is a parameter.
- `serde_json` decoding of `window.chapters`, of JSON-LD and of the AJAX answer, `toml` config parsing and `Url::parse` / `Url::join`: these are parameters; the book's own JSON shape is modelled.
- ZIP compression, file creation and writing, `html2md`: the EPUB is its ordered list of entries, the other formats their lines.
- The XHTML, OPF and NCX markup text: documents, manifest items, spine entries and navigation entries are structured values.
- The config file search of `src/config.rs` (`config.rs` is not part of this model): the loaded config is a parameter.
- clap's argument parsing, help and its own exit codes.
- The progress bar, verbose logging, `eprintln!` messages and the "Wrote …" message.
- The Display texts of the error enums: errors are datatypes with their fields.
- `epubcheck` runs only as a verdict parameter, and the output directory check as a flag (`outputParentMissing`).
- The failure to serialise JSON and the failure to build the HTTP client: assumed not to happen.
- The `cancel_check` option (src/scraper/scribblehub.rs:502): the options struct declares no such field, so the code as given does not compile there.
- ScribbleHubCrawl.ScrapeBook: the TOC pagination loop has no bound in the source (a cycle of next links never ends); the model reads at most `fuel` pages and returns None beyond that.
- Cli.ParseFormat: lower-casing is ASCII only; Rust's `to_lowercase` also folds the Kelvin sign U+212A to 'k', so "MAR\u{212A}DOWN" parses as Markdown in the source and is refused by the model.
- Cli.ParseLockedBehavior: the same ASCII-only lower-casing; "S\u{212A}IP" means Skip in the source and is refused by the model.
- Cli.ParseEmptyChapterBehavior: the same ASCII-only lower-casing; "S\u{212A}IP" means Skip in the source and is refused by the model.
- Cli.FormatIgnoresCase: states ASCII case only, for the reason given for Cli.ParseFormat.
- Cli.LockedBehaviorIgnoresCase: states ASCII case only, for the reason given for Cli.ParseLockedBehavior.
- Cli.EmptyChapterBehaviorIgnoresCase: states ASCII case only, for the reason given for Cli.ParseEmptyChapterBehavior.
- Cli.SiteIgnoresCase: states ASCII case only; no site name or abbreviation is reachable through a non-ASCII letter that `to_lowercase` folds, so nothing is lost there.
- Cli.Defaults: delay and timeout are unbounded naturals; the u64 bound is not modelled.
- ScribbleHubCrawl.CrawlGrows: the u32 `done` counter is unbounded; overflow beyond 2^32 chapters is not modelled.
- RoyalRoadCrawl.CrawlGrows: the u32 `done` counter (src/scraper/royalroad.rs:426-431) is unbounded in the same way; overflow beyond 2^32 chapters is not modelled.
- RoyalRoadToc.IndexOfOrder: `order + 1` is modelled as a release build computes it (wrapping to 0); a debug build panics on that overflow instead, which the model does not show.
- ScribbleHubToc.NextPageSource: `current_page + 1` (src/scraper/scribblehub.rs:267) is likewise taken modulo 2^32; a debug build panics there instead.
- UnclosedGivesNone: the "no closing bracket" condition is stated as a bracket count for quote-free input only; for input with strings, StringSkipped reduces each quoted string to a skip of its length, and the count is not restated over the quote-aware scan.
- RoyalRoadScan.ExtractJsonArrayWithStrings: the i32 bracket depth is an unbounded integer; overflow after 2^31 nested '[' is not modelled.
- Formats.WriteHtml: the chapter body is written as given; what a browser makes of it is not modelled.

## Findings

| source | as written | input that shows it | evidently intended | confidence | as-written member | corrected member |
|---|---|---|---|---|---|---|
| src/scraper/scribblehub.rs:94-102 | a JSON-LD script without a closing tag sets the next search start past the end of the document, so the next `html[search_start..]` slice panics when that script is not a Book | a page ending with `<script type="application/ld+json">{}` | stop after the last script and fall back to the DOM | not executed | ScribbleHubPages.UnterminatedScriptPanics | ScribbleHubPages.ScanLdScripts |

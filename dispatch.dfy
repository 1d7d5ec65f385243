/** `scrape_book` of the scraper module: build the adapter of the site and run it. */
module Dispatch {
  import opened Wrappers
  import opened Text
  import opened Scraper
  import RoyalRoadCrawl
  import ScribbleHubCrawl
  import ScribbleHubToc

  /** What each adapter sees of its site. */
  datatype Web = Web(royalRoad: RoyalRoadCrawl.RoyalRoadWeb, scribbleHub: ScribbleHubCrawl.ScribbleHubWeb)

  /** The scrape of `site`; `fuel` bounds the Scribble Hub TOC pages and `None` means the
      bound was reached. */
  function ScrapeBook(site: Site, web: Web, url: string, parsed: Result<Url, string>, options: ScrapeOptions,
                      fuel: nat): Option<Scrape>
  {
    match site
    case RoyalRoad => Some(RoyalRoadCrawl.ScrapeSpec(web.royalRoad, url, parsed, options))
    case ScribbleHub => ScribbleHubCrawl.ScrapeSpec(web.scribbleHub, url, parsed, options, fuel)
  }

  /** Each site is routed to its own adapter, which sees only its own site: the other
      site's pages make no difference. */
  lemma RoutesToOwnAdapter(site: Site, web: Web, other: Web, url: string, parsed: Result<Url, string>,
                           options: ScrapeOptions, fuel: nat)
    ensures site == RoyalRoad ==>
      ScrapeBook(site, web, url, parsed, options, fuel) == Some(RoyalRoadCrawl.ScrapeSpec(web.royalRoad, url, parsed, options))
    ensures site == ScribbleHub ==>
      ScrapeBook(site, web, url, parsed, options, fuel) == ScribbleHubCrawl.ScrapeSpec(web.scribbleHub, url, parsed, options, fuel)
    ensures site == RoyalRoad && other.royalRoad == web.royalRoad ==>
      ScrapeBook(site, other, url, parsed, options, fuel) == ScrapeBook(site, web, url, parsed, options, fuel)
    ensures site == ScribbleHub && other.scribbleHub == web.scribbleHub ==>
      ScrapeBook(site, other, url, parsed, options, fuel) == ScrapeBook(site, web, url, parsed, options, fuel)
  {
  }

  /** A Royal Road scrape always ends, whatever the fuel. */
  lemma RoyalRoadNeedsNoFuel(web: Web, url: string, parsed: Result<Url, string>, options: ScrapeOptions, fuel: nat)
    ensures ScrapeBook(RoyalRoad, web, url, parsed, options, fuel).Some?
    ensures ScrapeBook(RoyalRoad, web, url, parsed, options, fuel) == ScrapeBook(RoyalRoad, web, url, parsed, options, 0)
  {
  }

  /** Forcing Scribble Hub on a URL whose host is not Scribble Hub's is accepted by site
      resolution, and the adapter then rejects the URL before any request. */
  lemma ForcedScribbleHubOnForeignHost(input: string, url: Url, web: Web, options: ScrapeOptions, fuel: nat)
    requires url.host.Some? && !Contains(url.host.value, "scribblehub.com")
    ensures ResolveSite(input, Ok(url), Some(ScribbleHub)) == Ok(ScribbleHub)
    ensures ScrapeBook(ScribbleHub, web, input, Ok(url), options, fuel)
         == Some(Scrape(Err(ParseStoryPage(ScribbleHubToc.NOT_SCRIBBLEHUB)), []))
  {
  }

  /** A site resolved from the host never makes the Scribble Hub adapter reject the host. */
  lemma ResolvedHostAccepted(input: string, url: Url)
    requires ResolveSite(input, Ok(url), None) == Ok(ScribbleHub)
    ensures url.host.Some? && Contains(url.host.value, "scribblehub.com")
    ensures ScribbleHubToc.EnsureSeriesUrl(input, Ok(url)) != Err(ParseStoryPage(ScribbleHubToc.NOT_SCRIBBLEHUB))
  {
    assert ScribbleHubToc.NOT_SCRIBBLEHUB != ScribbleHubToc.NOT_A_SERIES_URL;
    assert ScribbleHubToc.NOT_SCRIBBLEHUB != ScribbleHubToc.NO_SERIES_PATH;
  }
}

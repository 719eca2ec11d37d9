// The HTTP boundary of the scraper: check the request body, run the scrape,
// and map each kind of failure to its own status; the history route reads
// its `limit` parameter.

module ScraperController {
  import opened Wrappers
  import opened Errors
  import opened Store
  import opened ScraperService
  import opened Http

  /** The catch clause: the `instanceof` tests in the order they are
      written, subclasses before the base class, with unknown errors
      answered by a fixed 500. */
  function ScrapeErrorReply<T>(e: Thrown): (r: Reply<T>)
    ensures !r.body.Payload?
    ensures e.Domain? <==> r.status != 500
    ensures e.Domain? ==> r.body.message == Message(e.error)
    ensures r.status == 400 ==> r.body == ErrorBody("Invalid URL", Message(e.error))
    ensures r.status == 403 <==> e.Domain? && e.error.ScrapingBlockedError?
    ensures r.status == 403 ==> r.body == BlockedBody("Scraping Blocked", Message(e.error), e.error.statusCode)
    ensures r.status == 504 ==> r.body == ErrorBody("Timeout", Message(e.error))
    ensures r.status == 502 ==> r.body == ErrorBody("Scraping Failed", Message(e.error))
    ensures e.Foreign? ==> r == Reply(500, ErrorBody("Internal Server Error", "An unexpected error occurred"))
  {
    RaisedHierarchy(e);
    if Raised(e, InvalidUrlErrorClass) then
      Reply(400, ErrorBody("Invalid URL", Message(e.error)))
    else if Raised(e, ScrapingBlockedErrorClass) then
      Reply(403, BlockedBody("Scraping Blocked", Message(e.error), e.error.statusCode))
    else if Raised(e, ScrapingTimeoutErrorClass) then
      Reply(504, ErrorBody("Timeout", Message(e.error)))
    else if Raised(e, ScraperErrorClass) then
      Reply(502, ErrorBody("Scraping Failed", Message(e.error)))
    else
      Reply(500, ErrorBody("Internal Server Error", "An unexpected error occurred"))
  }

  /** The status each kind of error deserves, by its most specific class. */
  function StatusByClass(e: Thrown): int {
    match e
    case Foreign(_) => 500
    case Domain(d) =>
      match ClassOf(d)
      case InvalidUrlErrorClass => 400
      case ScrapingBlockedErrorClass => 403
      case ScrapingTimeoutErrorClass => 504
      case ScraperErrorClass => 502
  }

  /** Testing the subclasses before the base class gives every error the
      status of its most specific class. */
  lemma ScrapeStatusIsMostSpecific<T>(e: Thrown)
    ensures ScrapeErrorReply<T>(e).status == StatusByClass(e)
  {
    RaisedHierarchy(e);
  }

  /** The analysis and repurpose controllers distinguish fewer errors: the
      status they give agrees with this controller's, except that a
      blocked or timed-out scrape is a plain 502 there. */
  lemma PipelineStatusCoarsens<T>(e: Thrown, failedLabel: string)
    ensures var s := ScrapeErrorReply<T>(e).status;
      PipelineErrorReply<T>(e, failedLabel).status == (if s == 403 || s == 504 then 502 else s)
  {
    RaisedHierarchy(e);
  }

  /** End to end: a URL that does not parse as http(s) is answered 400
      with the offending string in the message, whatever the network does. */
  lemma RejectedUrlReply<T>(url: string, web: Web)
    requires !AllowedProtocol(web.protocolOf(url))
    ensures ScrapeErrorReply<T>(ScrapeSteps(url, web).error)
         == Reply(400, ErrorBody("Invalid URL", InvalidUrlPrefix + url))
  {
    RaisedHierarchy(ScrapeSteps(url, web).error);
  }

  /** End to end: an origin answering 403 or 429 is reported as 403 with
      the origin's own status echoed in the body. */
  lemma BlockedOriginReply<T>(url: string, web: Web)
    requires AllowedProtocol(web.protocolOf(url)) && web.fetch(url).Responded?
    requires web.fetch(url).response.status in {403, 429}
    ensures var r := ScrapeErrorReply<T>(ScrapeSteps(url, web).error);
      r.status == 403 && r.body.BlockedBody? && r.body.statusCode == web.fetch(url).response.status
  {
    var e := ScrapeSteps(url, web).error;
    assert e == Domain(ScrapingBlockedError(url, web.fetch(url).response.status));
  }

  /** POST /api/scrape: a request without a non-empty url string is
      answered 400 without touching the database; otherwise the scrape
      runs, and its row is answered 200 or its failure mapped. */
  method HandleScrape(db: Database, field: UrlField, web: Web) returns (reply: Reply<Row<ScrapeResult>>)
    requires db.Valid()
    modifies db
    ensures db.Valid()
    ensures RequestedUrl(field).None? ==>
      reply == BadRequest() && db.scrapes == old(db.scrapes)
    ensures RequestedUrl(field).Some? && ScrapeSteps(RequestedUrl(field).value, web).Success? ==>
      reply.status == 200 && reply.body.Payload? && db.scrapes == old(db.scrapes) + [reply.body.value]
      && reply.body.value.data == ToRecord(RequestedUrl(field).value, ScrapeSteps(RequestedUrl(field).value, web).value)
    ensures RequestedUrl(field).Some? && ScrapeSteps(RequestedUrl(field).value, web).Failure? ==>
      reply == ScrapeErrorReply(ScrapeSteps(RequestedUrl(field).value, web).error)
      && db.scrapes == old(db.scrapes)
    ensures db.analyses == old(db.analyses) && db.repurposes == old(db.repurposes)
  {
    var url := RequestedUrl(field);
    if url.None? {
      return BadRequest();
    }
    var result := Scrape(db, url.value, web);
    if result.Failure? {
      return ScrapeErrorReply(result.error);
    }
    return Reply(200, Payload(result.value));
  }

  /** GET /api/history: the newest scrapes, as many as the `limit`
      parameter asks for (20 when it is absent, not a number, or 0). */
  method HandleHistory(db: Database, limitQuery: Option<string>) returns (reply: Reply<seq<Row<ScrapeResult>>>)
    requires db.Valid()
    ensures reply.status == 200 && reply.body.Payload?
    ensures reply.body.value == FindMany(db.scrapes, HistoryLimit(limitQuery))
    ensures var rows := reply.body.value;
      forall i, j :: 0 <= i < j < |rows| ==> rows[i].stamp > rows[j].stamp
  {
    var rows := GetHistory(db, HistoryLimit(limitQuery));
    return Reply(200, Payload(rows));
  }
}

// The HTTP boundary of the analysis: check the request body, run the
// analysis, and map failures with the coarser three-way mapping; the
// history route reads its `limit` parameter.

module AnalysisController {
  import opened Wrappers
  import opened Errors
  import opened Store
  import opened ScraperService
  import opened AnalysisService
  import opened Http

  const FailedLabel := "Analysis Failed"

  /** End to end: an origin answering 403 or 429 is not reported as
      blocked here but as a failed scrape, 502, carrying the blocked
      error's message. */
  lemma BlockedOriginReply<T>(url: string, web: Web, analyst: Analyst)
    requires AllowedProtocol(web.protocolOf(url)) && web.fetch(url).Responded?
    requires web.fetch(url).response.status in {403, 429}
    ensures PipelineErrorReply<T>(AnalyzeTrace(url, web, analyst).outcome.error, FailedLabel)
         == Reply(502, ErrorBody("Scraping Failed", Message(ScrapingBlockedError(url, web.fetch(url).response.status))))
  {
    var e := AnalyzeTrace(url, web, analyst).outcome.error;
    assert e == Domain(ScrapingBlockedError(url, web.fetch(url).response.status));
    RaisedHierarchy(e);
  }

  /** POST /api/analyze: a request without a non-empty url string is
      answered 400 without touching the database; otherwise the analysis
      runs, and its row is answered 200 or its failure mapped, so a
      blocked or timed-out scrape is 502 and a model or parse failure 500. */
  method HandleAnalyze(db: Database, field: UrlField, web: Web, analyst: Analyst)
    returns (reply: Reply<Row<AnalysisResult>>)
    requires db.Valid()
    modifies db
    ensures db.Valid()
    ensures RequestedUrl(field).None? ==>
      reply == BadRequest() && db.scrapes == old(db.scrapes) && db.analyses == old(db.analyses)
    ensures RequestedUrl(field).Some? ==>
      var t := AnalyzeTrace(RequestedUrl(field).value, web, analyst);
      (t.outcome.Success? ==>
         reply.status == 200 && reply.body.Payload? && reply.body.value.data == t.outcome.value
         && db.analyses == old(db.analyses) + [reply.body.value])
      && (t.outcome.Failure? ==> reply == PipelineErrorReply(t.outcome.error, FailedLabel))
      && Data(db.scrapes) == Data(old(db.scrapes)) + t.scrapes
      && Data(db.analyses) == Data(old(db.analyses)) + t.records
    ensures db.repurposes == old(db.repurposes)
  {
    var url := RequestedUrl(field);
    if url.None? {
      return BadRequest();
    }
    var result := Analyze(db, url.value, web, analyst);
    if result.Failure? {
      return PipelineErrorReply(result.error, FailedLabel);
    }
    return Reply(200, Payload(result.value));
  }

  /** GET /api/analyses: the newest analyses, as many as the `limit`
      parameter asks for (20 when it is absent, not a number, or 0). */
  method HandleHistory(db: Database, limitQuery: Option<string>) returns (reply: Reply<seq<Row<AnalysisResult>>>)
    requires db.Valid()
    ensures reply.status == 200 && reply.body.Payload?
    ensures reply.body.value == FindMany(db.analyses, HistoryLimit(limitQuery))
    ensures var rows := reply.body.value;
      forall i, j :: 0 <= i < j < |rows| ==> rows[i].stamp > rows[j].stamp
  {
    var rows := AnalysisService.GetHistory(db, HistoryLimit(limitQuery));
    return Reply(200, Payload(rows));
  }
}

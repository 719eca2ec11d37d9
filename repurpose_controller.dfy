// The HTTP boundary of the repurposing: check the request body, run it,
// and map failures with the coarser three-way mapping; the
// history route reads its `limit` parameter.

module RepurposeController {
  import opened Wrappers
  import opened Errors
  import opened Store
  import opened ScraperService
  import opened RepurposeService
  import opened Http

  const FailedLabel := "Repurpose Failed"

  /** POST /api/repurpose: a request without a non-empty url string is
      answered 400 without touching the database; otherwise the repurposing
      runs, and its row is answered 200 or its failure mapped, so a
      blocked or timed-out scrape is 502 and a generation or parse failure 500. */
  method HandleRepurpose(db: Database, field: UrlField, web: Web, writer: Writer)
    returns (reply: Reply<Row<RepurposeResult>>)
    requires db.Valid()
    modifies db
    ensures db.Valid()
    ensures RequestedUrl(field).None? ==>
      reply == BadRequest() && db.scrapes == old(db.scrapes) && db.repurposes == old(db.repurposes)
    ensures RequestedUrl(field).Some? ==>
      var t := RepurposeTrace(RequestedUrl(field).value, web, writer);
      (t.outcome.Success? ==>
         reply.status == 200 && reply.body.Payload? && reply.body.value.data == t.outcome.value
         && db.repurposes == old(db.repurposes) + [reply.body.value])
      && (t.outcome.Failure? ==> reply == PipelineErrorReply(t.outcome.error, FailedLabel))
      && Data(db.scrapes) == Data(old(db.scrapes)) + t.scrapes
      && Data(db.repurposes) == Data(old(db.repurposes)) + t.records
    ensures db.analyses == old(db.analyses)
  {
    var url := RequestedUrl(field);
    if url.None? {
      return BadRequest();
    }
    var result := Repurpose(db, url.value, web, writer);
    if result.Failure? {
      return PipelineErrorReply(result.error, FailedLabel);
    }
    return Reply(200, Payload(result.value));
  }

  /** GET /api/repurpose/history: the newest repurpose results, as many as the `limit`
      parameter asks for (20 when it is absent, not a number, or 0). */
  method HandleHistory(db: Database, limitQuery: Option<string>) returns (reply: Reply<seq<Row<RepurposeResult>>>)
    requires db.Valid()
    ensures reply.status == 200 && reply.body.Payload?
    ensures reply.body.value == FindMany(db.repurposes, HistoryLimit(limitQuery))
    ensures var rows := reply.body.value;
      forall i, j :: 0 <= i < j < |rows| ==> rows[i].stamp > rows[j].stamp
  {
    var rows := RepurposeService.GetHistory(db, HistoryLimit(limitQuery));
    return Reply(200, Payload(rows));
  }
}

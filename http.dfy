// What the three controllers share: reading the `url` field of a JSON
// request body, the `limit` query parameter of the history routes, the
// shape of the replies, and the error mapping the analysis and repurpose
// controllers both apply.

module Http {
  import opened Wrappers
  import opened JsBuiltins
  import opened Errors

  /** The `url` member of the parsed request body: absent (or undefined or
      null), a string, or some other JSON value. */
  datatype UrlField = Missing | Str(s: string) | NonString

  /** `!url || typeof url !== "string"` rejects the request; what passes
      is exactly a non-empty string. */
  function RequestedUrl(field: UrlField): (r: Option<string>)
    ensures r.Some? <==> field.Str? && field.s != []
    ensures r.Some? ==> r.value == field.s
  {
    match field
    case Str(s) => if s == [] then None else Some(s)
    case _ => None
  }

  /** A JSON reply body: the `{ error, message }` object of a failure, the
      one with `statusCode` added for a blocked scrape, or the service's
      result. */
  datatype Body<T> =
    | ErrorBody(error: string, message: string)
    | BlockedBody(error: string, message: string, statusCode: int)
    | Payload(value: T)

  datatype Reply<T> = Reply(status: int, body: Body<T>)

  function BadRequest<T>(): Reply<T> {
    Reply(400, ErrorBody("Bad Request", "Request body must include a 'url' string"))
  }

  const DefaultLimit := 20

  /** `parseInt(req.query.limit as string) || 20`. An absent parameter is
      `undefined`, which parseInt reads as the text "undefined". */
  function LimitText(query: Option<string>): string {
    if query.Some? then query.value else "undefined"
  }

  /** The history size: what parseInt reads from the parameter, except
      that NaN and 0, both falsy, give 20. Negative numbers pass through. */
  function HistoryLimit(query: Option<string>): (r: int)
    ensures r != 0
    ensures ParseInt(LimitText(query)).Some? && ParseInt(LimitText(query)).value != 0 ==>
      r == ParseInt(LimitText(query)).value
    ensures ParseInt(LimitText(query)).None? || ParseInt(LimitText(query)) == Some(0) ==>
      r == DefaultLimit
  {
    match ParseInt(LimitText(query))
    case None => DefaultLimit
    case Some(n) => if n == 0 then DefaultLimit else n
  }

  /** The limit written out as an integer is read back as that integer,
      negative ones included, unless it is 0. */
  lemma HistoryLimitRoundTrip(n: int)
    requires n != 0
    ensures HistoryLimit(Some(IntToString(n))) == n
  {
    assert IntToString(n) + [] == IntToString(n);
    ParseIntRoundTrip(n, []);
  }

  /** An absent parameter, an empty one and "0" all give the default. */
  lemma HistoryLimitDefaults()
    ensures HistoryLimit(None) == DefaultLimit
    ensures HistoryLimit(Some("")) == DefaultLimit
    ensures HistoryLimit(Some("0")) == DefaultLimit
  {
    ParseIntNaN("undefined");
    assert ParseInt("") == None by {
      assert TrimStart("") == "";
      assert DigitRun("", 10) == [];
    }
    assert IntToString(0) + [] == "0";
    ParseIntRoundTrip(0, []);
  }

  /** Any parameter that does not start with whitespace, a sign or a digit
      (so parseInt reads NaN) gives the default. */
  lemma HistoryLimitNaN(s: string)
    requires s != [] && !IsWhitespace(s[0]) && !IsDecimalDigit(s[0]) && s[0] != '-' && s[0] != '+'
    ensures HistoryLimit(Some(s)) == DefaultLimit
  {
    ParseIntNaN(s);
  }

  /** The mapping shared by the analysis and the repurpose controller: an
      InvalidUrlError is 400, any other error of the scraper taxonomy 502,
      anything else 500 under the controller's own label, with the
      error's message, or "Unknown error" for a thrown non-Error. */
  function PipelineErrorReply<T>(e: Thrown, failedLabel: string): (r: Reply<T>)
    ensures r.status == 400 <==> e.Domain? && e.error.InvalidUrlError?
    ensures r.status == 502 <==> e.Domain? && !e.error.InvalidUrlError?
    ensures r.status == 500 <==> e.Foreign?
    ensures r.body.ErrorBody?
    ensures e.Domain? ==> r.body.message == Message(e.error)
    ensures r.status == 400 ==> r.body == ErrorBody("Invalid URL", Message(e.error))
    ensures r.status == 502 ==> r.body == ErrorBody("Scraping Failed", Message(e.error))
    ensures e.Foreign? && e.fault.ErrorObject? ==> r.body == ErrorBody(failedLabel, e.fault.message)
    ensures e.Foreign? && e.fault.NonErrorValue? ==> r.body == ErrorBody(failedLabel, "Unknown error")
  {
    RaisedHierarchy(e);
    if Raised(e, InvalidUrlErrorClass) then
      Reply(400, ErrorBody("Invalid URL", Message(e.error)))
    else if Raised(e, ScraperErrorClass) then
      Reply(502, ErrorBody("Scraping Failed", Message(e.error)))
    else if e.fault.ErrorObject? then
      Reply(500, ErrorBody(failedLabel, e.fault.message))
    else
      Reply(500, ErrorBody(failedLabel, "Unknown error"))
  }
}

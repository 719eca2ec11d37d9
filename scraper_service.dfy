// The scraper service: accept only http(s) URLs, fetch the page and
// classify a refused response, extract title, description and body text
// from the parsed document, and persist one ScrapeResult per success.
// The URL parser, the network and the HTML parser are inputs (`Web`).

module ScraperService {
  import opened Wrappers
  import opened JsBuiltins
  import opened Errors
  import opened Dom
  import opened Store

  datatype PageContent = PageContent(title: string, description: string, bodyText: string)

  datatype HttpResponse = HttpResponse(status: int, statusText: string, body: string)

  /** What `await fetch(url)` does: resolve with a response, or reject
      (DNS failure, refused connection, ...). */
  datatype FetchOutcome = Responded(response: HttpResponse) | Unreachable(fault: Fault)

  /** The foreign collaborators of a scrape: the protocol `new URL(url)`
      reports (None when the constructor throws), the network, and
      cheerio's HTML parser. */
  datatype Web = Web(
    protocolOf: string -> Option<string>,
    fetch: string -> FetchOutcome,
    load: string -> seq<Node>)

  const NoTitle := "No title found"
  const NoDescription := "No description found"
  const BodyTextLimit := 5000
  const RemovedTags: set<string> := {"script", "style", "noscript", "iframe"}

  predicate AllowedProtocol(protocol: Option<string>) {
    protocol == Some("http:") || protocol == Some("https:")
  }

  /** validateUrl: the URL passes exactly when it parses with protocol
      `http:` or `https:`; otherwise the error names the string given. */
  function ValidateUrl(url: string, protocol: Option<string>): (r: Result<string, DomainError>)
    ensures r.Success? <==> AllowedProtocol(protocol)
    ensures r.Success? ==> Some(r.value) == protocol
    ensures r.Failure? ==> r.error == InvalidUrlError(url)
  {
    match protocol
    case None => Failure(InvalidUrlError(url))
    case Some(p) => if p == "http:" || p == "https:" then Success(p) else Failure(InvalidUrlError(url))
  }

  /** `response.ok` */
  predicate IsOk(status: int) {
    200 <= status <= 299
  }

  function HttpErrorMessage(status: int, statusText: string): string {
    "HTTP " + IntToString(status) + ": " + statusText
  }

  /** The status classification of fetchHtml. 403 and 429 are checked
      first and become a blocked error with that status; any other status
      outside 2xx becomes a plain ScraperError; a 2xx response yields its
      body unchanged. */
  function FetchHtml(url: string, response: HttpResponse): (r: Result<string, DomainError>)
    ensures r.Success? <==> IsOk(response.status)
    ensures r.Success? ==> r.value == response.body
    ensures response.status == 403 || response.status == 429 ==>
      r == Failure(ScrapingBlockedError(url, response.status))
    ensures response.status != 403 && response.status != 429 && !IsOk(response.status) ==>
      r == Failure(ScraperError(HttpErrorMessage(response.status, response.statusText)))
  {
    if response.status == 403 || response.status == 429 then
      Failure(ScrapingBlockedError(url, response.status))
    else if !IsOk(response.status) then
      Failure(ScraperError(HttpErrorMessage(response.status, response.statusText)))
    else
      Success(response.body)
  }

  /** The generic fetch failure reports the status in a form parseInt
      reads back, followed by the status text. */
  lemma HttpErrorMessageCarriesStatus(status: int, statusText: string)
    ensures var m := HttpErrorMessage(status, statusText);
      StartsWith(m, "HTTP ") && ParseInt(m[5..]) == Some(status)
  {
    var m := HttpErrorMessage(status, statusText);
    var digits := IntToString(status);
    assert m == "HTTP " + (digits + (": " + statusText));
    assert m[5..] == digits + (": " + statusText);
    assert EndsNumber(status, ": " + statusText);
    ParseIntRoundTrip(status, ": " + statusText);
  }

  /** `$("title").text()` */
  function TitleText(doc: seq<Node>): string {
    TextContent(Select(Tag("title"), doc))
  }

  /** The page title: the trimmed text of the title elements, or the fixed
      placeholder when that is empty. Never empty. */
  function ExtractTitle(doc: seq<Node>): (r: string)
    ensures r != []
    ensures Trim(TitleText(doc)) != [] ==> r == Trim(TitleText(doc))
    ensures Trim(TitleText(doc)) == [] ==> r == NoTitle
  {
    var t := Trim(TitleText(doc));
    if t != [] then t else NoTitle
  }

  /** `sel.attr("content")?.trim()` followed by `||`: a missing attribute
      and one that trims to "" both fall through. */
  function TrimmedContent(selection: seq<Node>): (r: Option<string>)
    ensures r.Some? <==> FirstAttr(selection, "content").Some? && Trim(FirstAttr(selection, "content").value) != []
    ensures r.Some? ==> r.value == Trim(FirstAttr(selection, "content").value)
  {
    match FirstAttr(selection, "content")
    case None => None
    case Some(v) => if Trim(v) == [] then None else Some(Trim(v))
  }

  function MetaDescription(doc: seq<Node>): Option<string> {
    TrimmedContent(Select(TagWithAttr("meta", "name", "description"), doc))
  }

  function OgDescription(doc: seq<Node>): Option<string> {
    TrimmedContent(Select(TagWithAttr("meta", "property", "og:description"), doc))
  }

  /** The description: the first `meta[name="description"]`'s content if it
      trims to something, else the first `meta[property="og:description"]`'s,
      else the fixed placeholder. */
  function ExtractDescription(doc: seq<Node>): (r: string)
    ensures r != []
    ensures MetaDescription(doc).Some? ==> r == MetaDescription(doc).value
    ensures MetaDescription(doc).None? && OgDescription(doc).Some? ==> r == OgDescription(doc).value
    ensures MetaDescription(doc).None? && OgDescription(doc).None? ==> r == NoDescription
  {
    match MetaDescription(doc)
    case Some(d) => d
    case None =>
      match OgDescription(doc)
      case Some(d) => d
      case None => NoDescription
  }

  /** `$("body").text()` after `$("script, style, noscript, iframe").remove()`. */
  function VisibleBodyText(doc: seq<Node>): string {
    TextContent(Select(Tag("body"), Remove(RemovedTags, doc)))
  }

  /** The body text: the visible body text with whitespace runs collapsed
      to one space and trimmed (CollapseAndTrimRun: words stay apart), cut
      to its first 5000 characters. It is at most 5000 long, holds no
      whitespace but single spaces, never starts with one, and is a prefix
      of the full normalised text (so a cut may leave a trailing space). */
  function ExtractBodyText(doc: seq<Node>): (r: string)
    ensures |r| <= BodyTextLimit
    ensures var full := CollapseAndTrim(VisibleBodyText(doc));
      |r| == (if |full| < BodyTextLimit then |full| else BodyTextLimit) && r == full[..|r|]
    ensures NoDoubleWhitespace(r) && OnlySpaces(r) && !StartsWithWhitespace(r)
  {
    var full := CollapseAndTrim(VisibleBodyText(doc));
    CollapseAndTrimSpec(VisibleBodyText(doc));
    var r := SliceTo(full, BodyTextLimit);
    SliceKeepsShape(full, 0, |r|);
    assert full[0..|r|] == r;
    r
  }

  /** parseHtml. */
  function ParseHtml(doc: seq<Node>): PageContent {
    PageContent(ExtractTitle(doc), ExtractDescription(doc), ExtractBodyText(doc))
  }

  /** A typical parsed page: `<html><head>…</head><body …>…</body></html>`. */
  function Page(head: seq<Node>, bodyAttrs: map<string, string>, body: seq<Node>): seq<Node> {
    [Element("html", map[], [Element("head", map[], head), Element("body", bodyAttrs, body)])]
  }

  lemma RemovePage(tags: set<string>, head: seq<Node>, bodyAttrs: map<string, string>, body: seq<Node>)
    requires "html" !in tags && "head" !in tags && "body" !in tags
    ensures Remove(tags, Page(head, bodyAttrs, body))
         == [Element("html", map[], [Element("head", map[], Remove(tags, head)), Element("body", bodyAttrs, Remove(tags, body))])]
  {
    var b := Element("body", bodyAttrs, body);
    assert Remove(tags, [b]) == [Element("body", bodyAttrs, Remove(tags, body))];
    var hd := Element("head", map[], head);
    var kids := [hd, b];
    assert kids[1..] == [b];
    assert Remove(tags, kids) == [Element("head", map[], Remove(tags, head))] + Remove(tags, [b]);
    var html := Element("html", map[], kids);
    assert Page(head, bodyAttrs, body) == [html];
    assert Remove(tags, [html]) == [RemoveIn(tags, html)] + Remove(tags, []);
    assert RemoveIn(tags, html) == Element("html", map[], Remove(tags, kids));
    assert Remove(tags, kids) == [Element("head", map[], Remove(tags, head)), Element("body", bodyAttrs, Remove(tags, body))];
  }

  /** A script, style, noscript or iframe element placed anywhere among the
      body's children, whatever text it holds, changes nothing in the
      extracted body text. */
  lemma RemovedElementInvisible(head: seq<Node>, bodyAttrs: map<string, string>,
                                before: seq<Node>, e: Node, after: seq<Node>)
    requires e.Element? && e.tag in RemovedTags
    ensures ExtractBodyText(Page(head, bodyAttrs, before + [e] + after))
         == ExtractBodyText(Page(head, bodyAttrs, before + after))
  {
    RemoveDropsInserted(RemovedTags, before, e, after);
    RemovePage(RemovedTags, head, bodyAttrs, before + [e] + after);
    RemovePage(RemovedTags, head, bodyAttrs, before + after);
  }

  /** The whole scrape short of persistence: validate, fetch, classify,
      parse. Validation comes first, so an unacceptable URL fails the same
      way whatever the network would have done; a timeout is never raised. */
  function ScrapeSteps(url: string, web: Web): (r: Result<PageContent, Thrown>)
    ensures !AllowedProtocol(web.protocolOf(url)) ==> r == Failure(Domain(InvalidUrlError(url)))
    ensures r.Success? ==>
      (AllowedProtocol(web.protocolOf(url)) && web.fetch(url).Responded?
       && IsOk(web.fetch(url).response.status)
       && r.value == ParseHtml(web.load(web.fetch(url).response.body)))
    ensures r.Failure? && r.error.Domain? ==> !r.error.error.ScrapingTimeoutError?
    ensures AllowedProtocol(web.protocolOf(url)) && web.fetch(url).Unreachable? ==>
      r == Failure(Foreign(web.fetch(url).fault))
    ensures AllowedProtocol(web.protocolOf(url)) && web.fetch(url).Responded? ==>
      var html := FetchHtml(url, web.fetch(url).response);
      (html.Failure? ==> r == Failure(Domain(html.error)))
      && (html.Success? ==> r == Success(ParseHtml(web.load(html.value))))
  {
    match ValidateUrl(url, web.protocolOf(url))
    case Failure(e) => Failure(Domain(e))
    case Success(_) =>
      match web.fetch(url)
      case Unreachable(fault) => Failure(Foreign(fault))
      case Responded(response) =>
        match FetchHtml(url, response)
        case Failure(e) => Failure(Domain(e))
        case Success(html) => Success(ParseHtml(web.load(html)))
  }

  function ToRecord(url: string, page: PageContent): ScrapeResult {
    ScrapeResult(url, page.title, page.description, page.bodyText)
  }

  /** What a pipeline that begins with a scrape (analyze, repurpose)
      writes and answers: the ScrapeResult records it adds, the records it
      adds to its own table, and its outcome. */
  datatype Trace<T> = Trace(scrapes: seq<ScrapeResult>, records: seq<T>, outcome: Result<T, Thrown>)

  /** scrape: on any failure nothing is written; on success exactly one
      ScrapeResult row is added, holding the input url and the extracted
      content, and it is what is returned. */
  method Scrape(db: Database, url: string, web: Web) returns (r: Result<Row<ScrapeResult>, Thrown>)
    requires db.Valid()
    modifies db
    ensures db.Valid()
    ensures db.analyses == old(db.analyses) && db.repurposes == old(db.repurposes)
    ensures ScrapeSteps(url, web).Failure? ==>
      r == Failure(ScrapeSteps(url, web).error) && db.scrapes == old(db.scrapes)
    ensures ScrapeSteps(url, web).Success? ==>
      r.Success? && r.value.data == ToRecord(url, ScrapeSteps(url, web).value)
      && db.scrapes == old(db.scrapes) + [r.value]
  {
    var valid := ValidateUrl(url, web.protocolOf(url));
    if valid.Failure? {
      return Failure(Domain(valid.error));
    }
    var fetched := web.fetch(url);
    if fetched.Unreachable? {
      return Failure(Foreign(fetched.fault));
    }
    var html := FetchHtml(url, fetched.response);
    if html.Failure? {
      return Failure(Domain(html.error));
    }
    var page := ParseHtml(web.load(html.value));
    var row := db.CreateScrape(ToRecord(url, page));
    return Success(row);
  }

  /** getHistory(limit = 20): the newest `limit` scrapes, newest first. */
  method GetHistory(db: Database, limit: int := 20) returns (rows: seq<Row<ScrapeResult>>)
    requires db.Valid()
    ensures rows == FindMany(db.scrapes, limit)
    ensures forall i, j :: 0 <= i < j < |rows| ==> rows[i].stamp > rows[j].stamp
  {
    rows := db.FindScrapes(limit);
  }
}

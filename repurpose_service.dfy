// The content repurposing service: scrape a blog post, ask the language
// model for a Twitter thread, a LinkedIn post and a newsletter snippet,
// and persist one RepurposeResult. The model client and JSON.parse are
// inputs.

module RepurposeService {
  import opened Wrappers
  import opened JsBuiltins
  import opened Errors
  import opened Store
  import opened ModelOutput
  import opened ScraperService

  /** How much of the post the prompt shows the model. */
  const ExcerptLimit := 4000

  const Intro := "You are an expert content repurposing specialist for founders and entrepreneurs.\n\nGiven this blog post, create three different content formats:\n\nBLOG TITLE: "
  const ContentLabel := "\nBLOG CONTENT: "
  const Outro := "\n\nGenerate the following (respond ONLY with valid JSON, no markdown):\n\n{\n  \"twitterThread\": \"A Twitter/X thread of 5-7 tweets. Each tweet should be on its own line, starting with a number (1/, 2/, etc). Keep each tweet under 280 characters. Make it engaging with hooks and insights.\",\n  \n  \"linkedinPost\": \"A professional LinkedIn post (300-500 words). Start with a hook, share key insights, add personal perspective, end with a question or CTA. Use line breaks for readability.\",\n  \n  \"newsletter\": \"A newsletter-style snippet (200-300 words). Conversational tone, highlight the key takeaway, include a brief summary and why readers should care.\"\n}"

  /** The three formats, as the parsed reply holds them. */
  datatype Formats = Formats(twitterThread: string, linkedinPost: string, newsletter: string)

  /** The language model (`model.invoke`, resolving to the reply text) and
      `JSON.parse` on the cleaned reply; either may throw. */
  datatype Writer = Writer(
    invoke: string -> Result<string, Fault>,
    parse: string -> Result<Formats, Fault>)

  function PromptHead(title: string): string {
    Intro + title + ContentLabel
  }

  /** The prompt: the fixed instructions with the title filled in, then the
      first 4000 characters of the content, then the fixed answer format. */
  function RepurposePrompt(title: string, content: string): (r: string)
    ensures var head := PromptHead(title);
      |r| == |head| + |SliceTo(content, ExcerptLimit)| + |Outro|
      && r[..|head|] == head
      && r[|head|..|r| - |Outro|] == content[..|SliceTo(content, ExcerptLimit)|]
      && r[|r| - |Outro|..] == Outro
  {
    var head := PromptHead(title);
    var excerpt := SliceTo(content, ExcerptLimit);
    var r := head + excerpt + Outro;
    assert r[|head|..|r| - |Outro|] == excerpt;
    r
  }

  /** Content past the first 4000 characters never reaches the model. */
  lemma PromptIgnoresTail(title: string, content: string, extra: string)
    requires |content| >= ExcerptLimit
    ensures RepurposePrompt(title, content + extra) == RepurposePrompt(title, content)
  {
    var p1 := RepurposePrompt(title, content + extra);
    var p2 := RepurposePrompt(title, content);
    var head := PromptHead(title);
    assert (content + extra)[..ExcerptLimit] == content[..ExcerptLimit];
    assert p1 == p1[..|head|] + p1[|head|..|p1| - |Outro|] + p1[|p1| - |Outro|..];
    assert p2 == p2[..|head|] + p2[|head|..|p2| - |Outro|] + p2[|p2| - |Outro|..];
  }

  /** generateContent: the reply, cleaned as the analysis service cleans
      it, is parsed and returned as it is, with no check of its fields. A
      failure of the model call or of the parse is passed on as it is. */
  function GenerateContent(title: string, content: string, writer: Writer): (r: Result<Formats, Fault>)
    ensures var reply := writer.invoke(RepurposePrompt(title, content));
      (reply.Failure? ==> r == Failure(reply.error)) &&
      (reply.Success? ==> r == writer.parse(ExtractJson(reply.value)))
    ensures r.Success? ==> writer.invoke(RepurposePrompt(title, content)).Success?
  {
    match writer.invoke(RepurposePrompt(title, content))
    case Failure(f) => Failure(f)
    case Success(reply) => writer.parse(ExtractJson(reply))
  }

  /** The record `repurposeResult.create` receives: the input url, the
      scraped title and the three formats. */
  function ToRepurposeRecord(url: string, title: string, f: Formats): RepurposeResult {
    RepurposeResult(url, title, f.twitterThread, f.linkedinPost, f.newsletter)
  }

  /** repurpose, as the records it writes: the scrape is persisted before
      generation, so a failed generation or parse leaves one ScrapeResult
      and no RepurposeResult; a failed scrape writes nothing; a success
      writes one of each, the repurpose record carrying the input url and
      the title the scrape found. */
  function RepurposeTrace(url: string, web: Web, writer: Writer): (t: Trace<RepurposeResult>)
    ensures |t.scrapes| <= 1 && |t.records| <= 1
    ensures t.scrapes != [] <==> ScrapeSteps(url, web).Success?
    ensures t.scrapes != [] ==> t.scrapes == [ToRecord(url, ScrapeSteps(url, web).value)]
    ensures t.records != [] ==> t.scrapes != []
    ensures t.outcome.Success? <==> t.records != []
    ensures t.outcome.Success? ==>
      (t.records == [t.outcome.value] && t.outcome.value.url == url && t.outcome.value.title == t.scrapes[0].title)
    ensures ScrapeSteps(url, web).Failure? ==> t.outcome == Failure(ScrapeSteps(url, web).error)
    ensures ScrapeSteps(url, web).Success? && t.outcome.Failure? ==> t.outcome.error.Foreign?
    ensures ScrapeSteps(url, web).Success? ==>
      var page := ScrapeSteps(url, web).value;
      var formats := GenerateContent(page.title, page.bodyText, writer);
      (formats.Failure? ==> t.outcome == Failure(Foreign(formats.error)))
      && (formats.Success? ==> t.outcome == Success(ToRepurposeRecord(url, page.title, formats.value)))
  {
    match ScrapeSteps(url, web)
    case Failure(e) => Trace([], [], Failure(e))
    case Success(page) =>
      match GenerateContent(page.title, page.bodyText, writer)
      case Failure(f) => Trace([ToRecord(url, page)], [], Failure(Foreign(f)))
      case Success(formats) =>
        var record := ToRepurposeRecord(url, page.title, formats);
        Trace([ToRecord(url, page)], [record], Success(record))
  }

  /** End to end: once the page is scraped and the model's reply parses,
      the stored result carries the url, the scraped title and the three
      parsed formats unchanged. */
  lemma ParsedFormatsStored(url: string, web: Web, writer: Writer)
    requires ScrapeSteps(url, web).Success?
    requires var page := ScrapeSteps(url, web).value;
      var reply := writer.invoke(RepurposePrompt(page.title, page.bodyText));
      reply.Success? && writer.parse(ExtractJson(reply.value)).Success?
    ensures var page := ScrapeSteps(url, web).value;
      var reply := writer.invoke(RepurposePrompt(page.title, page.bodyText));
      var f := writer.parse(ExtractJson(reply.value)).value;
      var t := RepurposeTrace(url, web, writer);
      t.outcome == Success(RepurposeResult(url, page.title, f.twitterThread, f.linkedinPost, f.newsletter))
      && t.records == [t.outcome.value]
  {
  }

  /** repurpose: scrape (which persists the page), generate, persist the
      result. The database gains exactly the records RepurposeTrace names,
      appended after the existing ones, and nothing else changes. */
  method Repurpose(db: Database, url: string, web: Web, writer: Writer)
    returns (r: Result<Row<RepurposeResult>, Thrown>)
    requires db.Valid()
    modifies db
    ensures db.Valid()
    ensures var t := RepurposeTrace(url, web, writer);
      old(db.scrapes) <= db.scrapes && Data(db.scrapes) == Data(old(db.scrapes)) + t.scrapes
      && old(db.repurposes) <= db.repurposes && Data(db.repurposes) == Data(old(db.repurposes)) + t.records
      && db.analyses == old(db.analyses)
      && (r.Success? <==> t.outcome.Success?)
      && (r.Success? ==> r.value.data == t.outcome.value && db.repurposes == old(db.repurposes) + [r.value])
      && (r.Failure? ==> r.error == t.outcome.error)
  {
    ghost var t := RepurposeTrace(url, web, writer);
    var scraped := Scrape(db, url, web);
    if scraped.Failure? {
      assert t == Trace([], [], Failure(scraped.error));
      return Failure(scraped.error);
    }
    DataAppend(old(db.scrapes), scraped.value);
    var page := scraped.value.data;
    assert t.scrapes == [page];
    var formats := GenerateContent(page.title, page.bodyText, writer);
    if formats.Failure? {
      assert t == Trace([page], [], Failure(Foreign(formats.error)));
      return Failure(Foreign(formats.error));
    }
    var saved := db.CreateRepurpose(ToRepurposeRecord(url, page.title, formats.value));
    DataAppend(old(db.repurposes), saved);
    return Success(saved);
  }

  /** getHistory(limit = 20): the newest `limit` results, newest first. */
  method GetHistory(db: Database, limit: int := 20) returns (rows: seq<Row<RepurposeResult>>)
    requires db.Valid()
    ensures rows == FindMany(db.repurposes, limit)
    ensures forall i, j :: 0 <= i < j < |rows| ==> rows[i].stamp > rows[j].stamp
  {
    rows := db.FindRepurposes(limit);
  }
}

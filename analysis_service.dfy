// The landing-page analysis service: scrape the page, ask the language
// model for four sub-scores and feedback, derive the overall score, and
// persist one AnalysisResult. The model client and JSON.parse are inputs.

module AnalysisService {
  import opened Wrappers
  import opened JsBuiltins
  import opened Errors
  import opened Store
  import opened ModelOutput
  import opened ScraperService

  /** How much of the page body the prompt shows the model. */
  const ExcerptLimit := 3000

  const Intro := "You are an expert landing page analyst. Analyze this landing page and provide scores from 1-10 for each category.\n\nURL: "
  const TitleLabel := "\nTitle: "
  const DescriptionLabel := "\nMeta Description: "
  const ContentLabel := "\nPage Content: "
  const Outro := "\n\nRespond ONLY with valid JSON in this exact format (no markdown, no code blocks):\n{\n  \"headlineScore\": <1-10>,\n  \"valueScore\": <1-10>,\n  \"ctaScore\": <1-10>,\n  \"trustScore\": <1-10>,\n  \"feedback\": \"<2-3 paragraphs of specific, actionable feedback covering: 1) What's working well, 2) What needs improvement, 3) Top 3 specific recommendations>\"\n}\n\nScoring criteria:\n- headlineScore: Is the headline clear, compelling, and communicates value in under 10 words?\n- valueScore: Is the value proposition immediately obvious? Does it solve a clear problem?\n- ctaScore: Are CTAs visible, action-oriented, and well-placed? Is there a clear next step?\n- trustScore: Are there testimonials, social proof, trust badges, or credibility signals?"

  /** The fields read from the parsed reply (integers, as the prompt asks). */
  datatype ParsedScores = ParsedScores(
    headlineScore: int, valueScore: int, ctaScore: int, trustScore: int, feedback: string)

  datatype AnalysisScores = AnalysisScores(
    headlineScore: int, valueScore: int, ctaScore: int, trustScore: int,
    overallScore: int, feedback: string)

  /** The language model (`model.invoke`, resolving to the reply text) and
      `JSON.parse` on the cleaned reply; either may throw. */
  datatype Analyst = Analyst(
    invoke: string -> Result<string, Fault>,
    parse: string -> Result<ParsedScores, Fault>)

  function PromptHead(url: string, title: string, description: string): string {
    Intro + url + TitleLabel + title + DescriptionLabel + description + ContentLabel
  }

  /** The prompt: the fixed instructions with the url, title and
      description filled in, then the first 3000 characters of the body
      text, then the fixed answer format. */
  function AnalysisPrompt(url: string, title: string, description: string, bodyText: string): (r: string)
    ensures var head := PromptHead(url, title, description);
      |r| == |head| + |SliceTo(bodyText, ExcerptLimit)| + |Outro|
      && r[..|head|] == head
      && r[|head|..|r| - |Outro|] == bodyText[..|SliceTo(bodyText, ExcerptLimit)|]
      && r[|r| - |Outro|..] == Outro
  {
    var head := PromptHead(url, title, description);
    var excerpt := SliceTo(bodyText, ExcerptLimit);
    var r := head + excerpt + Outro;
    assert r[|head|..|r| - |Outro|] == excerpt;
    r
  }

  /** Body text past the first 3000 characters never reaches the model. */
  lemma PromptIgnoresTail(url: string, title: string, description: string, bodyText: string, extra: string)
    requires |bodyText| >= ExcerptLimit
    ensures AnalysisPrompt(url, title, description, bodyText + extra)
         == AnalysisPrompt(url, title, description, bodyText)
  {
    var p1 := AnalysisPrompt(url, title, description, bodyText + extra);
    var p2 := AnalysisPrompt(url, title, description, bodyText);
    var head := PromptHead(url, title, description);
    assert (bodyText + extra)[..ExcerptLimit] == bodyText[..ExcerptLimit];
    assert p1 == p1[..|head|] + p1[|head|..|p1| - |Outro|] + p1[|p1| - |Outro|..];
    assert p2 == p2[..|head|] + p2[|head|..|p2| - |Outro|] + p2[|p2| - |Outro|..];
  }

  /** `Math.round((h + v + c + t) / 4)` on integer scores: the integer
      nearest to the mean, halves rounded up. */
  function OverallScore(h: int, v: int, c: int, t: int): (r: int)
    ensures 4 * r - 2 <= h + v + c + t < 4 * r + 2
  {
    (h + v + c + t + 2) / 4
  }

  /** The overall score is the only integer within half a point of the
      mean, counting a mean exactly halfway as belonging to the upper one. */
  lemma {:induction false} OverallScoreUnique(h: int, v: int, c: int, t: int, n: int)
    requires 4 * n - 2 <= h + v + c + t < 4 * n + 2
    ensures OverallScore(h, v, c, t) == n
  {
    var r := OverallScore(h, v, c, t);
    assert 4 * r - 2 <= h + v + c + t < 4 * r + 2;
    assert 4 * n - 4 < 4 * r < 4 * n + 4;
  }

  lemma OverallScoreExample()
    ensures OverallScore(8, 6, 7, 5) == 7
    ensures OverallScore(7, 7, 7, 8) == 7
    ensures OverallScore(7, 7, 8, 8) == 8
  {
    OverallScoreUnique(8, 6, 7, 5, 7);
    OverallScoreUnique(7, 7, 7, 8, 7);
    OverallScoreUnique(7, 7, 8, 8, 8);
  }

  /** With sub-scores in the range the prompt asks for, the overall score
      stays in that range and between the lowest and the highest sub-score. */
  lemma {:induction false} OverallScoreBounds(h: int, v: int, c: int, t: int)
    requires 1 <= h <= 10 && 1 <= v <= 10 && 1 <= c <= 10 && 1 <= t <= 10
    ensures 1 <= OverallScore(h, v, c, t) <= 10
    ensures var lo := Min4(h, v, c, t); var hi := Max4(h, v, c, t);
      lo <= OverallScore(h, v, c, t) <= hi
  {
    var r := OverallScore(h, v, c, t);
    var lo := Min4(h, v, c, t);
    var hi := Max4(h, v, c, t);
    assert 4 * lo <= h + v + c + t <= 4 * hi;
    assert 4 * r - 2 <= 4 * hi && 4 * lo < 4 * r + 2;
  }

  function Min4(a: int, b: int, c: int, d: int): int {
    var ab := if a < b then a else b;
    var cd := if c < d then c else d;
    if ab < cd then ab else cd
  }

  function Max4(a: int, b: int, c: int, d: int): int {
    var ab := if a > b then a else b;
    var cd := if c > d then c else d;
    if ab > cd then ab else cd
  }

  /** analyzeWithAI: the reply is cleaned and parsed; the four sub-scores
      and the feedback are taken over unchanged (no clamping, no range
      check) and the overall score is their rounded mean. A failure of the
      model call or of the parse is passed on as it is. */
  function AnalyzeWithAI(url: string, title: string, description: string, bodyText: string, analyst: Analyst)
    : (r: Result<AnalysisScores, Fault>)
    ensures var reply := analyst.invoke(AnalysisPrompt(url, title, description, bodyText));
      (reply.Failure? ==> r == Failure(reply.error)) &&
      (reply.Success? ==>
        var parsed := analyst.parse(ExtractJson(reply.value));
        (parsed.Failure? ==> r == Failure(parsed.error)) &&
        (parsed.Success? ==>
           (r.Success?
            && r.value.headlineScore == parsed.value.headlineScore
            && r.value.valueScore == parsed.value.valueScore
            && r.value.ctaScore == parsed.value.ctaScore
            && r.value.trustScore == parsed.value.trustScore
            && r.value.feedback == parsed.value.feedback
            && 4 * r.value.overallScore - 2
                 <= r.value.headlineScore + r.value.valueScore + r.value.ctaScore + r.value.trustScore
                 < 4 * r.value.overallScore + 2)))
  {
    match analyst.invoke(AnalysisPrompt(url, title, description, bodyText))
    case Failure(f) => Failure(f)
    case Success(content) =>
      match analyst.parse(ExtractJson(content))
      case Failure(f) => Failure(f)
      case Success(p) =>
        Success(AnalysisScores(p.headlineScore, p.valueScore, p.ctaScore, p.trustScore,
          OverallScore(p.headlineScore, p.valueScore, p.ctaScore, p.trustScore), p.feedback))
  }

  /** The record `analysisResult.create` receives: the url and the scores. */
  function ToAnalysisRecord(url: string, s: AnalysisScores): AnalysisResult {
    AnalysisResult(url, s.headlineScore, s.valueScore, s.ctaScore, s.trustScore, s.overallScore, s.feedback)
  }

  /** analyze, as the records it writes: the scrape comes first and is
      persisted before the model is asked, so a failure of the model or of
      the parse leaves one ScrapeResult and no AnalysisResult; a failed
      scrape writes nothing; a success writes one of each, the analysis
      carrying the input url. */
  function AnalyzeTrace(url: string, web: Web, analyst: Analyst): (t: Trace<AnalysisResult>)
    ensures |t.scrapes| <= 1 && |t.records| <= 1
    ensures t.scrapes != [] <==> ScrapeSteps(url, web).Success?
    ensures t.scrapes != [] ==> t.scrapes == [ToRecord(url, ScrapeSteps(url, web).value)]
    ensures t.records != [] ==> t.scrapes != []
    ensures t.outcome.Success? <==> t.records != []
    ensures t.outcome.Success? ==> t.records == [t.outcome.value] && t.outcome.value.url == url
    ensures ScrapeSteps(url, web).Failure? ==> t.outcome == Failure(ScrapeSteps(url, web).error)
    ensures ScrapeSteps(url, web).Success? && t.outcome.Failure? ==> t.outcome.error.Foreign?
    ensures ScrapeSteps(url, web).Success? ==>
      var page := ScrapeSteps(url, web).value;
      var scores := AnalyzeWithAI(url, page.title, page.description, page.bodyText, analyst);
      (scores.Failure? ==> t.outcome == Failure(Foreign(scores.error)))
      && (scores.Success? ==> t.outcome == Success(ToAnalysisRecord(url, scores.value)))
  {
    match ScrapeSteps(url, web)
    case Failure(e) => Trace([], [], Failure(e))
    case Success(page) =>
      match AnalyzeWithAI(url, page.title, page.description, page.bodyText, analyst)
      case Failure(f) => Trace([ToRecord(url, page)], [], Failure(Foreign(f)))
      case Success(scores) =>
        var record := ToAnalysisRecord(url, scores);
        Trace([ToRecord(url, page)], [record], Success(record))
  }

  /** End to end: once the page is scraped and the model's reply parses,
      the stored analysis carries the url, the parsed sub-scores and
      feedback unchanged, and their rounded mean. */
  lemma ParsedScoresStored(url: string, web: Web, analyst: Analyst)
    requires ScrapeSteps(url, web).Success?
    requires var page := ScrapeSteps(url, web).value;
      var reply := analyst.invoke(AnalysisPrompt(url, page.title, page.description, page.bodyText));
      reply.Success? && analyst.parse(ExtractJson(reply.value)).Success?
    ensures var page := ScrapeSteps(url, web).value;
      var reply := analyst.invoke(AnalysisPrompt(url, page.title, page.description, page.bodyText));
      var p := analyst.parse(ExtractJson(reply.value)).value;
      var t := AnalyzeTrace(url, web, analyst);
      t.outcome.Success? && t.records == [t.outcome.value]
      && t.outcome.value == AnalysisResult(url, p.headlineScore, p.valueScore, p.ctaScore, p.trustScore,
                                           OverallScore(p.headlineScore, p.valueScore, p.ctaScore, p.trustScore), p.feedback)
  {
    var page := ScrapeSteps(url, web).value;
    var reply := analyst.invoke(AnalysisPrompt(url, page.title, page.description, page.bodyText));
    var p := analyst.parse(ExtractJson(reply.value)).value;
    var scores := AnalyzeWithAI(url, page.title, page.description, page.bodyText, analyst);
    assert scores.Success?;
    OverallScoreUnique(p.headlineScore, p.valueScore, p.ctaScore, p.trustScore, scores.value.overallScore);
  }

  /** End to end: when the model call fails after a successful scrape, the
      scrape stays stored, no analysis is stored, and the model's error is
      what the caller sees. */
  lemma ModelFailureKeepsScrape(url: string, web: Web, analyst: Analyst)
    requires ScrapeSteps(url, web).Success?
    requires var page := ScrapeSteps(url, web).value;
      analyst.invoke(AnalysisPrompt(url, page.title, page.description, page.bodyText)).Failure?
    ensures var page := ScrapeSteps(url, web).value;
      var t := AnalyzeTrace(url, web, analyst);
      t.scrapes == [ToRecord(url, page)] && t.records == []
      && t.outcome == Failure(Foreign(analyst.invoke(AnalysisPrompt(url, page.title, page.description, page.bodyText)).error))
  {
  }

  /** analyze: scrape (which persists the page), ask the model, persist the
      analysis. The database gains exactly the records AnalyzeTrace names,
      appended after the existing ones, and nothing else changes. */
  method Analyze(db: Database, url: string, web: Web, analyst: Analyst)
    returns (r: Result<Row<AnalysisResult>, Thrown>)
    requires db.Valid()
    modifies db
    ensures db.Valid()
    ensures var t := AnalyzeTrace(url, web, analyst);
      old(db.scrapes) <= db.scrapes && Data(db.scrapes) == Data(old(db.scrapes)) + t.scrapes
      && old(db.analyses) <= db.analyses && Data(db.analyses) == Data(old(db.analyses)) + t.records
      && db.repurposes == old(db.repurposes)
      && (r.Success? <==> t.outcome.Success?)
      && (r.Success? ==> r.value.data == t.outcome.value && db.analyses == old(db.analyses) + [r.value])
      && (r.Failure? ==> r.error == t.outcome.error)
  {
    ghost var t := AnalyzeTrace(url, web, analyst);
    var scraped := Scrape(db, url, web);
    if scraped.Failure? {
      assert t == Trace([], [], Failure(scraped.error));
      return Failure(scraped.error);
    }
    DataAppend(old(db.scrapes), scraped.value);
    var page := scraped.value.data;
    assert t.scrapes == [page];
    var scores := AnalyzeWithAI(url, page.title, page.description, page.bodyText, analyst);
    if scores.Failure? {
      assert t == Trace([page], [], Failure(Foreign(scores.error)));
      return Failure(Foreign(scores.error));
    }
    var saved := db.CreateAnalysis(ToAnalysisRecord(url, scores.value));
    DataAppend(old(db.analyses), saved);
    return Success(saved);
  }

  /** getHistory(limit = 20): the newest `limit` analyses, newest first. */
  method GetHistory(db: Database, limit: int := 20) returns (rows: seq<Row<AnalysisResult>>)
    requires db.Valid()
    ensures rows == FindMany(db.analyses, limit)
    ensures forall i, j :: 0 <= i < j < |rows| ==> rows[i].stamp > rows[j].stamp
  {
    rows := db.FindAnalyses(limit);
  }
}

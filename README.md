# founder-fuel server core, modelled in Dafny

This project models the server pipeline of founder-fuel. The pipeline turns
a URL into a persisted record:

- **Scraper.** Accepts only `http:`/`https:` URLs, fetches the page and
  classifies a refused response (403/429 as blocked, any other non-2xx as a
  plain scraper error). From the parsed document it extracts the title, the
  description and up to 5000 characters of whitespace-normalised visible
  body text, then stores a `ScrapeResult`.
- **Analysis.** Scrapes the page, asks a language model for four sub-scores
  and feedback, derives the overall score as `Math.round` of their mean, and
  stores an `AnalysisResult`.
- **Repurposing.** Scrapes a blog post, asks the model for a Twitter thread,
  a LinkedIn post and a newsletter snippet, and stores a `RepurposeResult`.
- **Model replies.** Both services clean the reply before `JSON.parse`.
  When it contains three backticks, the `json` markers and fences are removed
  and the result is trimmed.
- **Errors.** The error taxonomy has one base class, `ScraperError`, and
  three subclasses, each with its message format and `name`.
- **Controllers.** Three controllers check the request body, map each error
  to an HTTP status with `instanceof` tests in a fixed order, and read the
  history `limit` parameter as `parseInt(...) || 20`.

Layout, one module per file:

| file | module | what it holds |
|---|---|---|
| `wrappers.dfy` | `Wrappers` | `Option` and `Result` |
| `js_builtins.dfy` | `JsBuiltins` | the ECMAScript pieces the core relies on (see below) |
| `errors.dfy` | `Errors` | the four error classes as a datatype, their messages, names, `statusCode`, and `instanceof` through the `extends` chain |
| `dom.dfy` | `Dom` | the parsed document as a tree of text, comment and element nodes, plus the cheerio operations used (see below) |
| `store.dfy` | `Store` | the three Prisma tables as a `Database` class with `create` and `findMany({ orderBy: desc, take })` |
| `model_output.dfy` | `ModelOutput` | the reply clean-up both services apply before `JSON.parse` |
| `scraper_service.dfy` | `ScraperService` | `validateUrl`, `fetchHtml`, `parseHtml`, `scrape`, `getHistory` |
| `analysis_service.dfy` | `AnalysisService` | the prompt, `analyzeWithAI`, the overall score, `analyze`, `getHistory` |
| `repurpose_service.dfy` | `RepurposeService` | the prompt, `generateContent`, `repurpose`, `getHistory` |
| `http.dfy` | `Http` | what the controllers share: the body check, the `limit` parameter, reply shapes, and the three-way error mapping of the analysis and repurpose controllers |
| `scraper_controller.dfy`, `analysis_controller.dfy`, `repurpose_controller.dfy` | `ScraperController`, `AnalysisController`, `RepurposeController` | the route handlers |

The ECMAScript pieces in `JsBuiltins` are:

- the whitespace class shared by `\s`, `trim` and `parseInt`;
- `trim`;
- `replace(/\s+/g, " ")`;
- `slice(0, n)`;
- `includes`;
- integer rendering in template literals;
- `parseInt` with no radix.

The cheerio operations in `Dom` are `$(selector)`, `.text()`, `.attr()` and
`.remove()`.

Foreign collaborators are inputs of the model:

- `new URL(url)` becomes the protocol it reports, or `None` when it throws.
- `fetch` becomes a response or a rejection.
- `cheerio.load` becomes the parsed tree.
- `model.invoke` and `JSON.parse` become functions that may fail.

`cheerio.load(html).remove()` mutates the loaded document before it is read.
The model states this as `Remove` on the parsed tree, and the title and
description are read from the tree before removal, as in the source.

The services are stateless singletons in the source, with state only in the
database. They are therefore modules whose methods take the `Database`.
`scrape`, `analyze` and `repurpose` are methods that write to it. Each is
tied to a pure function that names the rows it writes and its outcome:
`ScrapeSteps`, `AnalyzeTrace` and `RepurposeTrace`.

The database gives every new row an id and a timestamp from one clock that
moves forward on every write. Rows of a table therefore carry strictly
increasing timestamps in insertion order, and `findMany` ordered by
timestamp descending reads them newest first. Prisma reads a negative `take`
as "that many from the end of the ordered list", so a negative `limit`, which
the controllers pass through, returns the oldest rows.
`Store.FindManyKeepsOldest` states this.

## Model

Some functions are the direct model of a source function but carry no
contract of their own. Their behaviour is stated by the rows of the lemmas
and functions built on them:
- `ScraperService.ParseHtml` (`parseHtml`, server/src/services/scraper.service.ts:87-108) is stated by the rows of `ExtractTitle`, `ExtractDescription`, `ExtractBodyText` and `ScrapeSteps`.
- `JsBuiltins.ParseInt` (the global `parseInt`) is stated by `DigitRun`, `ParseIntRoundTrip` and `ParseIntNaN`.
- `JsBuiltins.CollapseWhitespace` (`.replace(/\s+/g, " ")`) is stated by the `Collapse*` rows.
- `Errors.Message` (each error class's `message`) is stated by `InvalidUrlMessage`, `BlockedMessageCarriesStatus` and `TimeoutMessageCarriesDelay`.
- `ModelOutput.RemoveJsonMarkers` and `ModelOutput.RemoveFences` (the two `.replace` calls that strip code fences) are stated by `RemoveFencesLeavesNone`, `ExtractJson` and the `*Recovered` rows.

| member | source | states |
|---|---|---|
| `JsBuiltins.TrimStart` | server/src/services/scraper.service.ts:92 | the result is a suffix of the input that does not start with whitespace |
| `JsBuiltins.TrimStartDropsWhitespace` | server/src/services/scraper.service.ts:92 | everything `TrimStart` drops is whitespace, so no non-whitespace character is lost |
| `JsBuiltins.TrimEnd` | server/src/services/scraper.service.ts:92 | the result is a prefix of the input that does not end with whitespace |
| `JsBuiltins.TrimEndDropsWhitespace` | server/src/services/scraper.service.ts:92 | everything `TrimEnd` drops is whitespace, so no non-whitespace character is lost |
| `JsBuiltins.TrimStartAppend` | server/src/services/scraper.service.ts:104 | the leading whitespace of a concatenation is that of its first part, running into the second only when the first is all whitespace |
| `JsBuiltins.TrimEndAppend` | server/src/services/scraper.service.ts:104 | the trailing whitespace of a concatenation is that of its last part, running into the first only when the last is all whitespace |
| `JsBuiltins.Trim` | server/src/services/scraper.service.ts:92 | `trim` leaves no whitespace at either end, keeps every non-whitespace character in order, and leaves an already trimmed string unchanged |
| `JsBuiltins.CollapseShape` | server/src/services/scraper.service.ts:103 | after `replace(/\s+/g, " ")` no two whitespace characters are adjacent, the only whitespace left is the plain space, and the text starts with whitespace exactly when the input did |
| `JsBuiltins.CollapseContent` | server/src/services/scraper.service.ts:103 | the collapse keeps every non-whitespace character in order, and the text ends with whitespace exactly when the input did |
| `JsBuiltins.CollapseIdentity` | server/src/services/scraper.service.ts:103 | text whose only whitespace is single plain spaces is left unchanged by the collapse |
| `JsBuiltins.CollapseAppend` | server/src/services/scraper.service.ts:103 | the collapse works run by run: it distributes over a concatenation that does not split a whitespace run |
| `JsBuiltins.CollapseLeadingRun` | server/src/services/scraper.service.ts:103 | a whitespace run of any length in front of a non-whitespace character becomes exactly one space |
| `JsBuiltins.CollapseRun` | server/src/services/scraper.service.ts:103 | each maximal whitespace run between two pieces of text becomes exactly one space in the same place: collapse(a + w + b) = collapse(a) + " " + collapse(b) |
| `JsBuiltins.TrimJoin` | server/src/services/scraper.service.ts:104 | trimming two word-holding pieces joined by one space trims each piece on its outer side only |
| `JsBuiltins.CollapseAndTrimRun` | server/src/services/scraper.service.ts:103-104 | collapse-then-trim keeps words apart: two word-holding pieces joined by a whitespace run come out normalised and joined by exactly one space |
| `JsBuiltins.CollapseAndTrimSpec` | server/src/services/scraper.service.ts:103-104 | collapse-then-trim yields normalised text (single spaces only, none at the ends) with the same non-whitespace characters, and is the identity exactly on normalised text |
| `JsBuiltins.SliceTo` | server/src/services/scraper.service.ts:105 | `slice(0, n)` is the prefix of length min(n, length) |
| `JsBuiltins.NatToString` | server/src/errors/index.ts:42 | the decimal rendering is non-empty, all digits, with no leading zero |
| `JsBuiltins.IntToString` | server/src/errors/index.ts:42 | the rendering of an integer is non-empty and starts with `-` exactly for negative numbers |
| `JsBuiltins.DigitRun` | server/src/controllers/scraper.controller.ts:115 | parseInt reads the longest prefix of digits: every character of it is a digit and the next one is not |
| `JsBuiltins.ParseIntRoundTrip` | server/src/controllers/scraper.controller.ts:115 | parseInt reads back any integer rendered in decimal, whatever follows it that starts with no digit; only after a lone "0" must it also not start with `x`/`X`, which would make "0x" a hexadecimal prefix |
| `JsBuiltins.ParseIntNaN` | server/src/controllers/scraper.controller.ts:115 | text starting with a character that is neither whitespace, a sign nor a digit parses to NaN |
| `Errors.InstanceOfHierarchy` | server/src/errors/index.ts:12-57 | every error of the taxonomy is `instanceof ScraperError`, and passes a subclass test exactly when that subclass built it |
| `Errors.RaisedHierarchy` | server/src/errors/index.ts:12-57 | for any caught value, `instanceof ScraperError` holds exactly for taxonomy errors and each subclass test exactly for that subclass; nothing from outside passes any of them |
| `Errors.Name` | server/src/errors/index.ts:15-55 | each class sets its own name: "ScraperError", "InvalidUrlError", "ScrapingBlockedError", "ScrapingTimeoutError" |
| `Errors.StatusCode` | server/src/errors/index.ts:38-46 | only ScrapingBlockedError has a `statusCode` |
| `Errors.InvalidUrlMessage` | server/src/errors/index.ts:27-31 | the message is "Invalid URL format: " followed by the URL verbatim |
| `Errors.BlockedMessageCarriesStatus` | server/src/errors/index.ts:38-46 | the message is "Blocked by <url> with status " followed by the status, which parseInt reads back |
| `Errors.TimeoutMessageCarriesDelay` | server/src/errors/index.ts:52-56 | the message is "Request to <url> timed out after " followed by the delay and "ms", and parseInt reads the delay back |
| `Dom.TextContentAppend` | server/src/services/scraper.service.ts:101-102 | `.text()` of a concatenated selection is the concatenation of the texts |
| `Dom.Select` | server/src/services/scraper.service.ts:92-102 | `$(selector)` returns only matching elements |
| `Dom.FilterAppend` | server/src/services/scraper.service.ts:92-102 | keeping the matching nodes of a concatenation keeps those of each part, in order |
| `Dom.SelectInDocumentOrder` | server/src/services/scraper.service.ts:92-102 | `$(selector)` is exactly the matching nodes of the document in document order (preorder), nested matches included: none is missed and the order is kept |
| `Dom.FirstAttr` | server/src/services/scraper.service.ts:95-96 | `.attr(name)` is the first selected element's attribute, undefined exactly when the selection is empty or that element lacks it |
| `Dom.Remove` | server/src/services/scraper.service.ts:100 | after `.remove()` no element with a removed tag is left anywhere in the tree |
| `Dom.RemoveNothing` | server/src/services/scraper.service.ts:100 | removal leaves a tree without such elements unchanged |
| `Dom.RemoveAppend` | server/src/services/scraper.service.ts:100 | removal works sibling by sibling: it distributes over concatenation |
| `Dom.RemoveDropsInserted` | server/src/services/scraper.service.ts:100 | an element with a removed tag, inserted anywhere among siblings, leaves no trace |
| `Dom.RemoveKeeps` | server/src/services/scraper.service.ts:100 | every other node stays: text and comments as they are, an element with its tag and attributes and its own contents cleaned in turn |
| `Dom.RemovedText` | server/src/services/scraper.service.ts:100-102 | after removal `.text()` reads exactly the text outside the removed elements, at any depth, in document order |
| `Store.FindMany` | server/src/services/scraper.service.ts:142-147 | `findMany` with `take` returns min(abs(take), table size) stored rows |
| `Store.FindManyNewestFirst` | server/src/services/scraper.service.ts:142-147 | for any `take`, the rows come out with strictly decreasing timestamps |
| `Store.FindManyKeepsNewest` | server/src/services/analysis.service.ts:130-135 | with a non-negative `take` the answer is exactly the newest rows: every row left out is older than every row returned |
| `Store.FindManyKeepsOldest` | server/src/services/repurpose.service.ts:105-110 | with a negative `take` the answer is exactly the oldest rows |
| `Store.DataAppend` | server/src/services/scraper.service.ts:126-133 | a `create` adds its data after the data already stored |
| `Store.AppendKeepsChronological` | server/src/services/scraper.service.ts:126-133 | a new row stamped by the clock keeps timestamps increasing and ids distinct |
| `Store.Database.constructor` | server/src/services/scraper.service.ts:126 | the database starts with three empty tables |
| `Store.Database.CreateScrape` | server/src/services/scraper.service.ts:126-133 | `scrapeResult.create` appends one row with the given data, a fresh id and a later timestamp, and changes no other table |
| `Store.Database.CreateAnalysis` | server/src/services/analysis.service.ts:117-122 | `analysisResult.create` appends one row with the given data, a fresh id and a later timestamp, and changes no other table |
| `Store.Database.CreateRepurpose` | server/src/services/repurpose.service.ts:89-97 | `repurposeResult.create` appends one row with the given data, a fresh id and a later timestamp, and changes no other table |
| `Store.Database.FindScrapes` | server/src/services/scraper.service.ts:143-146 | returns `findMany` over the scrapes, newest first |
| `Store.Database.FindAnalyses` | server/src/services/analysis.service.ts:131-134 | returns `findMany` over the analyses, newest first |
| `Store.Database.FindRepurposes` | server/src/services/repurpose.service.ts:106-109 | returns `findMany` over the repurpose results, newest first |
| `ModelOutput.RemoveFencesLeavesNone` | server/src/services/analysis.service.ts:81 | after `replace(/```/g, "")` the text contains no three backticks in a row, even where dropped runs met |
| `ModelOutput.ExtractJson` | server/src/services/analysis.service.ts:79-82 | a reply without three backticks reaches `JSON.parse` untouched, not even trimmed; otherwise the cleaned text has no three backticks and no whitespace at either end |
| `ModelOutput.FencedPayloadRecovered` | server/src/services/repurpose.service.ts:67-70 | a payload without backticks or surrounding whitespace comes out unchanged whether sent bare, fenced with "```json", or fenced with bare "```" |
| `ModelOutput.JsonFencedRecovered` | server/src/services/analysis.service.ts:81 | a "```json" fence with a newline after it is removed completely |
| `ModelOutput.BareFencedRecovered` | server/src/services/analysis.service.ts:81 | a bare "```" fence is left by the marker pass and removed by the fence pass |
| `ScraperService.ValidateUrl` | server/src/services/scraper.service.ts:40-54 | a URL passes exactly when it parses with protocol `http:` or `https:`; otherwise the error is InvalidUrlError with the original string |
| `ScraperService.FetchHtml` | server/src/services/scraper.service.ts:71-80 | 403 and 429 become ScrapingBlockedError with that status, checked before the non-ok test; any other non-2xx becomes ScraperError("HTTP <status>: <statusText>"); a 2xx yields the body unchanged |
| `ScraperService.HttpErrorMessageCarriesStatus` | server/src/services/scraper.service.ts:76-78 | the generic fetch error starts with "HTTP " and parseInt reads the status back from what follows |
| `ScraperService.ExtractTitle` | server/src/services/scraper.service.ts:92 | the title is the trimmed text of the title elements, or exactly "No title found" when that is empty |
| `ScraperService.TrimmedContent` | server/src/services/scraper.service.ts:95-96 | a missing `content` attribute and one that trims to "" both fall through the `\|\|` chain |
| `ScraperService.ExtractDescription` | server/src/services/scraper.service.ts:95-97 | the trimmed `meta[name=description]` content if non-empty, else the trimmed `og:description` content if non-empty, else "No description found" |
| `ScraperService.ExtractBodyText` | server/src/services/scraper.service.ts:100-105 | body text is at most 5000 long and is a prefix of the collapsed-and-trimmed visible text, of length min(5000, its length); it has no two adjacent whitespace characters, only plain spaces, and no leading whitespace |
| `ScraperService.RemovePage` | server/src/services/scraper.service.ts:100 | removal inside a page touches only the contents of head and body |
| `ScraperService.RemovedElementInvisible` | server/src/services/scraper.service.ts:100-101 | a script, style, noscript or iframe element anywhere among the body's children, whatever it contains, leaves the body text unchanged |
| `ScraperService.ScrapeSteps` | server/src/services/scraper.service.ts:115-123 | validation comes first, so a bad URL gives InvalidUrlError whatever the network does; with an allowed protocol, a rejected fetch passes its error on, a refused response gives FetchHtml's error, and a 2xx response gives the content parsed from its body; no timeout error ever arises |
| `ScraperService.Scrape` | server/src/services/scraper.service.ts:115-137 | on failure nothing is written and the error is passed on; on success exactly one ScrapeResult is appended, holding the input url and the extracted content, and returned |
| `ScraperService.GetHistory` | server/src/services/scraper.service.ts:142-147 | `findMany` over the scrapes with `take = limit` (default 20), newest first |
| `AnalysisService.AnalysisPrompt` | server/src/services/analysis.service.ts:53-73 | the prompt holds the url, title and description in their places, then exactly the first 3000 characters of the body text, then the fixed answer format |
| `AnalysisService.PromptIgnoresTail` | server/src/services/analysis.service.ts:58 | body text beyond 3000 characters does not change the prompt |
| `AnalysisService.OverallScore` | server/src/services/analysis.service.ts:87-89 | the result r satisfies 4r - 2 <= h+v+c+t < 4r + 2: the mean rounded to nearest, halves up, as `Math.round` does |
| `AnalysisService.OverallScoreUnique` | server/src/services/analysis.service.ts:87-89 | that rounding condition determines the overall score uniquely |
| `AnalysisService.OverallScoreExample` | server/src/services/analysis.service.ts:87-89 | 8,6,7,5 gives 7; a mean of 7.25 gives 7; a mean of 7.5 gives 8 |
| `AnalysisService.OverallScoreBounds` | server/src/services/analysis.service.ts:62-65 | with sub-scores in [1,10] the overall score is in [1,10] and between the lowest and the highest sub-score |
| `AnalysisService.AnalyzeWithAI` | server/src/services/analysis.service.ts:75-98 | a failure of the model or of the parse is passed on; otherwise the four sub-scores and the feedback are copied unchanged, with no clamping, and the overall score is their rounded mean |
| `AnalysisService.AnalyzeTrace` | server/src/services/analysis.service.ts:104-125 | a failed scrape writes nothing; after a successful one the outcome is AnalyzeWithAI's: its failure leaves one ScrapeResult and no AnalysisResult, its scores are stored with the input url; a success writes one of each |
| `AnalysisService.ParsedScoresStored` | server/src/services/analysis.service.ts:84-122 | once the page is scraped and the reply parses, the stored analysis holds the url, the parsed sub-scores and feedback unchanged, and their rounded mean |
| `AnalysisService.ModelFailureKeepsScrape` | server/src/services/analysis.service.ts:104-114 | a failed model call after a successful scrape keeps the ScrapeResult, stores no analysis, and passes the model's error on |
| `AnalysisService.Analyze` | server/src/services/analysis.service.ts:104-125 | the tables gain exactly the rows AnalyzeTrace names, appended after the existing ones; the repurpose table is unchanged |
| `AnalysisService.GetHistory` | server/src/services/analysis.service.ts:130-135 | `findMany` over the analyses with `take = limit` (default 20), newest first |
| `RepurposeService.RepurposePrompt` | server/src/services/repurpose.service.ts:46-61 | the prompt holds the title in its place, then exactly the first 4000 characters of the content, then the fixed answer format |
| `RepurposeService.PromptIgnoresTail` | server/src/services/repurpose.service.ts:51 | content beyond 4000 characters does not change the prompt |
| `RepurposeService.GenerateContent` | server/src/services/repurpose.service.ts:63-72 | a model failure is passed on; otherwise the cleaned reply's parse is returned as it is, with no check of its fields |
| `RepurposeService.RepurposeTrace` | server/src/services/repurpose.service.ts:78-100 | a failed scrape writes nothing; after a successful one the outcome is GenerateContent's: its failure leaves one ScrapeResult and no RepurposeResult, its formats are stored with the input url and the scraped title; a success writes one of each |
| `RepurposeService.ParsedFormatsStored` | server/src/services/repurpose.service.ts:72-99 | once the page is scraped and the reply parses, the stored result holds the url, the scraped title and the three parsed formats unchanged |
| `RepurposeService.Repurpose` | server/src/services/repurpose.service.ts:78-100 | the tables gain exactly the rows RepurposeTrace names, appended after the existing ones; the analysis table is unchanged |
| `RepurposeService.GetHistory` | server/src/services/repurpose.service.ts:105-110 | `findMany` over the repurpose results with `take = limit` (default 20), newest first |
| `Http.RequestedUrl` | server/src/controllers/scraper.controller.ts:42-48 | the body check passes exactly a non-empty string url |
| `Http.HistoryLimit` | server/src/controllers/analysis.controller.ts:66 | the limit is what parseInt reads, or 20 when that is NaN or 0; it is never 0 |
| `Http.HistoryLimitRoundTrip` | server/src/controllers/repurpose.controller.ts:66 | any non-zero integer, negative ones included, passes through as the limit |
| `Http.HistoryLimitDefaults` | server/src/controllers/scraper.controller.ts:115 | an absent parameter, an empty one and "0" all give 20 |
| `Http.HistoryLimitNaN` | server/src/controllers/scraper.controller.ts:115 | any parameter starting with a character that is not whitespace, a sign or a digit gives 20 |
| `Http.PipelineErrorReply` | server/src/controllers/analysis.controller.ts:35-56 | InvalidUrlError gives 400 "Invalid URL" with its message; every other taxonomy error gives 502 "Scraping Failed" with its message; anything else gives 500 under the controller's label, with the error's message or "Unknown error" |
| `ScraperController.ScrapeErrorReply` | server/src/controllers/scraper.controller.ts:62-104 | a taxonomy error is answered with its message under its label: 400 "Invalid URL", 403 "Scraping Blocked" (exactly for a blocked error, echoing its statusCode), 504 "Timeout", 502 "Scraping Failed"; anything else gives a fixed 500 "An unexpected error occurred" |
| `ScraperController.ScrapeStatusIsMostSpecific` | server/src/controllers/scraper.controller.ts:62-97 | testing subclasses before the base class gives each error the status of its most specific class: 400, 403, 504, 502, and 500 for non-taxonomy errors |
| `ScraperController.PipelineStatusCoarsens` | server/src/controllers/repurpose.controller.ts:36-56 | the analysis and repurpose statuses equal the scraper controller's, except that 403 and 504 become 502 |
| `ScraperController.RejectedUrlReply` | server/src/controllers/scraper.controller.ts:62-68 | a URL without an http(s) protocol is answered 400 "Invalid URL" with "Invalid URL format: <url>" |
| `ScraperController.BlockedOriginReply` | server/src/controllers/scraper.controller.ts:71-78 | an origin answering 403 or 429 is answered 403 with the origin's status echoed |
| `ScraperController.HandleScrape` | server/src/controllers/scraper.controller.ts:37-105 | a bad body gives 400 "Bad Request" and no write; a scrape success gives 200 with the new row; a failure gives the mapped reply and no write |
| `ScraperController.HandleHistory` | server/src/controllers/scraper.controller.ts:113-117 | 200 with `findMany` over the scrapes for the parsed limit, newest first |
| `AnalysisController.BlockedOriginReply` | server/src/controllers/analysis.controller.ts:44-50 | an origin answering 403 or 429 is answered 502 "Scraping Failed" with the blocked error's message, with no 403 path |
| `AnalysisController.HandleAnalyze` | server/src/controllers/analysis.controller.ts:20-58 | a bad body gives 400 and no write; otherwise the tables gain AnalyzeTrace's rows, a success is 200 with the new row, and a failure gets the three-way mapping labelled "Analysis Failed" |
| `AnalysisController.HandleHistory` | server/src/controllers/analysis.controller.ts:64-68 | 200 with `findMany` over the analyses for the parsed limit, newest first |
| `RepurposeController.HandleRepurpose` | server/src/controllers/repurpose.controller.ts:20-58 | a bad body gives 400 and no write; otherwise the tables gain RepurposeTrace's rows, a success is 200 with the new row, and a failure gets the three-way mapping labelled "Repurpose Failed" |
| `RepurposeController.HandleHistory` | server/src/controllers/repurpose.controller.ts:64-68 | 200 with `findMany` over the repurpose results for the parsed limit, newest first |

## Left out

- HTML tokenising (`cheerio.load`) and URL parsing (`new URL`) are foreign libraries. The model takes the parsed tree and the protocol the parser reports.
- Selection is modelled for the two selector shapes the scraper uses, `tag` and `tag[attr="value"]`. The comma-separated `script, style, noscript, iframe` is the set of removed tags.
- `fetch` itself, its request headers, and a failure while reading the response body (`response.text()`) are left out. A response is an input triple of status, statusText and body, or a rejection.
- No code path raises ScrapingTimeoutError, because `fetch` is called without a timeout. The 504 arm of the scraper controller is modelled but unreachable from `ScrapeSteps`, and its contract says so.
- The model client's configuration (model name, temperature) has no observable effect in the model. `response.content` is taken to be a string.
- `JSON.parse` is an oracle returning the fields with their intended types. Missing fields, non-integer scores and the resulting `NaN` overall score are out of scope.
- `Math.round` on floating point is out of scope. With integer sub-scores it equals the integer formula the model uses.
- Database failures and the 500 replies of the history routes ("Failed to fetch ... history") are left out. The model's store cannot fail.
- Timestamps written within the same clock tick are left out. Rows get strictly increasing timestamps, so ties in `orderBy` do not arise.
- Lengths are counted in Unicode characters, whereas `slice` counts UTF-16 code units. The two differ only for characters outside the Basic Multilingual Plane.
- parseInt's loss of precision above 2^53 and its reading of an array-valued query parameter (`?limit=1&limit=2`) are left out.
- An absent request body is not modelled, because destructuring it throws before the body check. The `url` field is absent, a string, or another JSON value.
- Console logging in the catch clauses is left out.
- The Express bootstrap and route files are wiring, and are not part of this model. In that wiring the repurpose routes are never mounted.
- The React pages and the Next.js demo routes are not part of this model.
- Concurrency between requests is left out. Each handler runs to completion against the database.

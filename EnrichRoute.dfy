/** The enrichment endpoint, src/app/api/enrich/route.ts: `POST` checks the request and
    the configuration, scrapes the website through a reader service, asks a language model
    for structured data and answers with the data, a canned fallback, or an error. The
    reader's and the model's answers, the API key and the two timestamps are inputs; the
    network calls themselves are not part of this model. */
module EnrichRoute {
  import opened Types
  import opened Strings

  // ---- inputs ------------------------------------------------------------------------

  /** The request body. `Unparsable` stands for any body whose read or destructuring at
      route.ts:8 throws: one that is not JSON, and also the JSON `null`. `Json` is a body
      that destructures, with the two optional fields; another JSON value, such as a number,
      is `Json(None, None)`. */
  datatype Request = Unparsable | Json(companyId: Option<string>, websiteUrl: Option<string>)

  /** What the reader service did: answered with a 2xx status and a text, answered with an
      error status, or failed to answer (the fetch or the body read threw). */
  datatype ScrapeOutcome = Fetched(text: string) | HttpError(statusText: string) | FetchThrew

  /** A value caught by `catch (llmError)`: an `Error` object (its `message` and what
      `String(e)` gives), `null`/`undefined`, or another primitive with its truthiness and
      what `String(e)` gives. The type leaves the two primitive fields independent; the
      strings a falsy primitive can really give are `FalsyString`. */
  datatype Thrown =
    | ErrorObject(message: string, asString: string)
    | Nullish
    | Primitive(truthy: bool, asString: string)

  /** The four fields the response schema asks the model for. */
  datatype Extracted = Extracted(summary: string, whatTheyDo: seq<string>, keywords: seq<string>,
                                 signals: seq<Signal>)

  datatype ParseOutcome = Parsed(data: Extracted) | ParseFailed(message: string)

  /** What the model call did: threw, or returned a reply whose `text` may be missing. */
  datatype LlmOutcome = CallThrew(thrown: Thrown) | Replied(text: Option<string>, parse: ParseOutcome)

  // ---- outputs -----------------------------------------------------------------------

  datatype Body = ErrorBody(error: string) | Enriched(result: EnrichmentResult)

  datatype Response = Response(status: int, body: Body)

  const UnexpectedMessage: string := "An unexpected error occurred during enrichment."

  const MisconfigMessage: string :=
    "Server misconfiguration: GEMINI_API_KEY is not set in environment variables"

  const TooShortMessage: string :=
    "Scraped content too short to analyze. The site might block crawlers or rely heavily on client-side rendering."

  /** Any exception that reaches the outer `catch`. */
  const Unexpected: Response := Response(500, ErrorBody(UnexpectedMessage))

  /** A missing or empty string is falsy. */
  predicate Blank(o: Option<string>) {
    o.None? || o.value == ""
  }

  // ---- the scrape stage --------------------------------------------------------------

  const MinTextLength := 100

  const MaxPromptText := 15000

  function Indent(): string {
    "                "
  }

  const FallbackWelcome: string :=
    "Welcome to our company. We specialize in innovating SaaS solutions and AI tools.\n"

  const FallbackLaunch: string :=
    "We recently launched v2.0 of our platform and we are actively hiring for new roles on our careers page.\n"

  const FallbackFunding: string :=
    "Our latest Series A funding round will help us expand our team and build more products.\n"

  /** The canned page used for `example.com` sites the reader cannot fetch. */
  function FallbackText(url: string): (r: string)
    ensures |r| >= MinTextLength
  {
    "\n" + Indent() + "# " + url + "\n"
    + Indent() + FallbackWelcome
    + Indent() + FallbackLaunch
    + Indent() + FallbackFunding
    + Indent()
  }

  /** `scrapedText.substring(0, 15000)`. */
  function Truncate(t: string): (r: string)
    ensures r <= t
    ensures |r| == if |t| < MaxPromptText then |t| else MaxPromptText
  {
    if |t| < MaxPromptText then t else t[..MaxPromptText]
  }

  const PromptHeader: string :=
    "You are a VC analyst extracting structured data from a company's public website content.\n\n"
    + "Given the scraped text below, return ONLY valid JSON matching the schema.\n"
    + "Extract 3-6 items for whatTheyDo, 5-10 items for keywords, and 2-4 items for signals.\n\n"
    + "Scraped content:\n"

  /** The instructions, then the truncated text. */
  function PromptFor(truncated: string): (r: string)
    ensures |r| == |PromptHeader| + |truncated| && r[|PromptHeader|..] == truncated
  {
    PromptHeader + truncated
  }

  /** The model sees at most 15000 characters of the page, and they are its first ones. */
  lemma PromptHoldsPagePrefix(t: string)
    ensures var p := PromptFor(Truncate(t));
      p[|PromptHeader|..] <= t && |p| - |PromptHeader| <= MaxPromptText
      && (|t| <= MaxPromptText ==> p[|PromptHeader|..] == t)
  {
  }

  // ---- the model stage ---------------------------------------------------------------

  /** `String(e)` for an `Error` named `name`. */
  function ErrorString(name: string, message: string): string {
    if message == "" then name else name + ": " + message
  }

  /** The value the inner `catch` receives, or `None` when the reply parsed. An empty reply
      throws `new Error("Empty response from Gemini")`; a reply that is not JSON makes
      `JSON.parse` throw a `SyntaxError`. */
  function Caught(llm: LlmOutcome): (r: Option<Thrown>)
    ensures r.None? <==> llm.Replied? && !Blank(llm.text) && llm.parse.Parsed?
    ensures llm.Replied? && r.Some? ==> r.value.ErrorObject?
    ensures llm.CallThrew? ==> r == Some(llm.thrown)
  {
    match llm
    case CallThrew(t) => Some(t)
    case Replied(text, parse) =>
      if Blank(text) then
        Some(ErrorObject("Empty response from Gemini", ErrorString("Error", "Empty response from Gemini")))
      else if parse.ParseFailed? then
        Some(ErrorObject(parse.message, ErrorString("SyntaxError", parse.message)))
      else None
  }

  /** `llmError.message || String(llmError)`; reading `.message` of `null` or `undefined`
      throws, so there is no message for those. */
  function ErrorMessage(t: Thrown): (r: string)
    requires !t.Nullish?
    ensures t.ErrorObject? && t.message != "" ==> r == t.message
    ensures !(t.ErrorObject? && t.message != "") ==> r == t.asString
  {
    if t.ErrorObject? && t.message != "" then t.message else t.asString
  }

  predicate IsApiError(message: string) {
    Includes(message, "429") || Includes(message, "quota") || Includes(message, "403")
    || Includes(message, "400")
  }

  predicate Truthy(t: Thrown) {
    match t
    case ErrorObject(_, _) => true
    case Nullish => false
    case Primitive(truthy, _) => truthy
  }

  const MockSummaryStart: string := "(Mock Data - Gemini API Error) Based on the website "

  const MockSummaryEnd: string :=
    ", this company appears to be an innovative player in their respective industry, focusing on modern solutions and growth."

  const MockWhatTheyDo: seq<string> :=
    ["Provides innovative industry solutions", "Focuses on scalable architecture", "Actively hiring for expansion"]

  const MockKeywords: seq<string> := ["Innovation", "Technology", "Growth", "SaaS"]

  const MockSignals: seq<Signal> :=
    [Signal("api_limit", "API Error Fallback", "Using mock data due to a Gemini API error or quota limit."),
     Signal("hiring", "Active Hiring", "Careers page indicates they are expanding their engineering team.")]

  /** The canned payload returned when the model stage fails: fixed texts, with the
      website named in the summary, and the request's sources and timestamp. */
  function MockResult(url: string, sources: seq<Source>, enrichedAt: string): (r: EnrichmentResult)
    ensures r.sources == sources && r.enrichedAt == enrichedAt
    ensures Includes(r.summary, url)
  {
    var summary := MockSummaryStart + url + MockSummaryEnd;
    assert summary[|MockSummaryStart|..|MockSummaryStart| + |url|] == url;
    IncludesAt(summary, url, |MockSummaryStart|);
    EnrichmentResult(summary, MockWhatTheyDo, MockKeywords, MockSignals, sources, enrichedAt)
  }

  /** The inner `catch`: the mock payload whenever the message looks like an API error or
      the caught value is truthy, the 502 otherwise; `null`/`undefined` make the handler
      itself throw, which ends in the outer `catch`. */
  function ModelFailure(t: Thrown, url: string, sources: seq<Source>, enrichedAt: string): (r: Response)
    ensures t.Nullish? ==> r == Unexpected
    ensures Truthy(t) ==> r == Response(200, Enriched(MockResult(url, sources, enrichedAt)))
    ensures r.status == 502 <==> t.Primitive? && !t.truthy && !IsApiError(t.asString)
    ensures r.status == 502 ==> r.body == ErrorBody("Failed to extract data via Gemini: " + t.asString)
  {
    if t.Nullish? then Unexpected
    else
      var message := ErrorMessage(t);
      if IsApiError(message) || Truthy(t) then Response(200, Enriched(MockResult(url, sources, enrichedAt)))
      else Response(502, ErrorBody("Failed to extract data via Gemini: " + message))
  }

  /** What `String(e)` gives for a falsy primitive other than `null`/`undefined`: `false`
      gives `false`, `0`, `-0` and `0n` give `0`, `NaN` gives `NaN`, and the empty string
      gives itself. */
  predicate FalsyString(s: string) {
    s == "" || s == "0" || s == "NaN" || s == "false"
  }

  /** None of those strings looks like an API error, so every real falsy primitive thrown
      by the model stage is answered with the 502. */
  lemma FalsyPrimitiveGives502(t: Thrown, url: string, sources: seq<Source>, enrichedAt: string)
    requires t.Primitive? && !t.truthy && FalsyString(t.asString)
    ensures ModelFailure(t, url, sources, enrichedAt).status == 502
    ensures ModelFailure(t, url, sources, enrichedAt).body
         == ErrorBody("Failed to extract data via Gemini: " + t.asString)
  {
    var m := t.asString;
    forall sub | sub in ["429", "quota", "403", "400"] ensures !Includes(m, sub) {
      if Includes(m, sub) {
        IncludesFirstChar(m, sub);
      }
    }
  }

  /** Every failure of the model stage that produces an `Error` (a thrown error, an empty
      reply, a reply that is not JSON) is answered with the mock payload and status 200. */
  lemma ModelErrorsFallBack(llm: LlmOutcome, url: string, sources: seq<Source>, enrichedAt: string)
    requires Caught(llm).Some? && Caught(llm).value.ErrorObject?
    ensures ModelFailure(Caught(llm).value, url, sources, enrichedAt)
         == Response(200, Enriched(MockResult(url, sources, enrichedAt)))
  {
  }

  // ---- the handler -------------------------------------------------------------------

  /** The request names a website and the key is configured: the scrape is attempted. */
  predicate Admitted(req: Request, apiKey: Option<string>) {
    req.Json? && !Blank(req.websiteUrl) && !Blank(apiKey)
  }

  /** The site is one of the `example.com` demo sites. */
  predicate ExampleSite(url: string) {
    Includes(url, "example.com")
  }

  /** The text the scrape stage ends with, or `None` when it ends the request. */
  function ScrapedText(url: string, scrape: ScrapeOutcome): (r: Option<string>)
    ensures scrape.Fetched? ==> r == Some(scrape.text)
    ensures scrape.HttpError? ==> (r.Some? <==> ExampleSite(url))
    ensures scrape.HttpError? && r.Some? ==> r.value == FallbackText(url) && |r.value| >= MinTextLength
    ensures scrape.FetchThrew? ==> r.None?
  {
    match scrape
    case Fetched(text) => Some(text)
    case HttpError(_) => if ExampleSite(url) then Some(FallbackText(url)) else None
    case FetchThrew => None
  }

  /** The model stage once the prompt is sent: the parsed reply merged with the sources and
      the timestamp, or the inner `catch`. */
  function ModelStage(llm: LlmOutcome, url: string, sources: seq<Source>, enrichedAt: string): (r: Response)
    ensures Caught(llm).None? ==>
      r == Response(200, Enriched(EnrichmentResult(llm.parse.data.summary, llm.parse.data.whatTheyDo,
                                                   llm.parse.data.keywords, llm.parse.data.signals,
                                                   sources, enrichedAt)))
    ensures Caught(llm).Some? ==> r == ModelFailure(Caught(llm).value, url, sources, enrichedAt)
    ensures r.status == 200 <==> r.body.Enriched?
    ensures r.body.Enriched? ==> r.body.result.sources == sources && r.body.result.enrichedAt == enrichedAt
  {
    var caught := Caught(llm);
    if caught.None? then
      var data := llm.parse.data;
      Response(200, Enriched(EnrichmentResult(data.summary, data.whatTheyDo, data.keywords,
                                              data.signals, sources, enrichedAt)))
    else ModelFailure(caught.value, url, sources, enrichedAt)
  }

  /** The scrape stage: `scrapedText` and `sources` start empty and are set from the
      reader's answer, or from the canned page for an `example.com` site; `failure` is the
      response that ends the request instead. */
  method Scrape(url: string, scrape: ScrapeOutcome, scrapedAt: string)
      returns (scrapedText: string, sources: seq<Source>, failure: Option<Response>)
    ensures failure.None? <==> ScrapedText(url, scrape).Some?
    ensures failure.None? ==> scrapedText == ScrapedText(url, scrape).value
    ensures failure.None? ==> sources == [Source(url, scrapedAt)]
    ensures scrape.FetchThrew? ==> failure == Some(Unexpected)
    ensures scrape.HttpError? && !ExampleSite(url) ==>
      failure == Some(Response(502, ErrorBody("Failed to scrape website: " + scrape.statusText)))
  {
    scrapedText := "";
    sources := [];
    failure := None;
    match scrape {
      case FetchThrew =>
        failure := Some(Unexpected);
      case Fetched(text) =>
        scrapedText := text;
        sources := sources + [Source(url, scrapedAt)];
      case HttpError(statusText) =>
        if ExampleSite(url) {
          scrapedText := FallbackText(url);
          sources := sources + [Source(url, scrapedAt)];
        } else {
          failure := Some(Response(502, ErrorBody("Failed to scrape website: " + statusText)));
        }
    }
  }

  /** `POST(req)`. `prompt` is what is sent to the model, when the request gets that far. */
  method Post(req: Request, apiKey: Option<string>, scrape: ScrapeOutcome, llm: LlmOutcome,
              scrapedAt: string, enrichedAt: string)
      returns (r: Response, prompt: Option<string>)
    ensures req.Unparsable? ==> r == Unexpected && prompt.None?
    ensures req.Json? && Blank(req.websiteUrl) ==>
      r == Response(400, ErrorBody("Missing websiteUrl")) && prompt.None?
    ensures req.Json? && !Blank(req.websiteUrl) && Blank(apiKey) ==>
      r == Response(500, ErrorBody(MisconfigMessage)) && prompt.None?
    ensures Admitted(req, apiKey) && scrape.FetchThrew? ==> r == Unexpected && prompt.None?
    ensures Admitted(req, apiKey) && scrape.HttpError? && !ExampleSite(req.websiteUrl.value) ==>
      r == Response(502, ErrorBody("Failed to scrape website: " + scrape.statusText)) && prompt.None?
    ensures Admitted(req, apiKey) && scrape.Fetched? && |scrape.text| < MinTextLength ==>
      r == Response(422, ErrorBody(TooShortMessage)) && prompt.None?
    ensures prompt.Some? <==>
      Admitted(req, apiKey) && ScrapedText(req.websiteUrl.value, scrape).Some?
      && |ScrapedText(req.websiteUrl.value, scrape).value| >= MinTextLength
    ensures prompt.Some? ==> prompt.value == PromptFor(Truncate(ScrapedText(req.websiteUrl.value, scrape).value))
    ensures prompt.Some? ==>
      r == ModelStage(llm, req.websiteUrl.value, [Source(req.websiteUrl.value, scrapedAt)], enrichedAt)
    ensures r.body.Enriched? ==> prompt.Some?
    ensures r.status == 200 <==> r.body.Enriched?
  {
    prompt := None;
    if req.Unparsable? {
      return Unexpected, None;
    }
    if Blank(req.websiteUrl) {
      return Response(400, ErrorBody("Missing websiteUrl")), None;
    }
    if Blank(apiKey) {
      return Response(500, ErrorBody(MisconfigMessage)), None;
    }
    var url := req.websiteUrl.value;

    var scrapedText, sources, failure := Scrape(url, scrape, scrapedAt);
    if failure.Some? {
      return failure.value, None;
    }
    if |scrapedText| < MinTextLength {
      return Response(422, ErrorBody(TooShortMessage)), None;
    }
    var truncatedText := Truncate(scrapedText);
    prompt := Some(PromptFor(truncatedText));
    r := ModelStage(llm, url, sources, enrichedAt);
  }
}

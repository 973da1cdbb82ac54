/**
 * The generative-AI client: the two prompt templates, the request payload, and
 * `generateContent`, a loop of at most three POST attempts with exponential
 * backoff followed by extraction of the first text part of the first candidate.
 *
 * The HTTP client and the clock are inputs: `outcomes[k]` is what the client
 * answers to attempt k, and each sleep is recorded (in seconds) instead of
 * being taken. JSON encoding and decoding are given: a response body carries
 * the text `io.ReadAll` returned and what `json.Unmarshal` made of it.
 */
module GeminiService {
  import opened Wrappers
  import Strings
  import HttpStatus

  // ---- Request and response payloads ----

  datatype Part = Part(text: string)
  datatype Content = Content(parts: seq<Part>)
  datatype Candidate = Candidate(content: Content, finishReason: string)
  /** The temperature (a float32 0.2) is not carried. */
  datatype GenerationConfig = GenerationConfig(maxOutputTokens: nat)
  datatype SafetySetting = SafetySetting(category: string, threshold: string)
  datatype GeminiRequest = GeminiRequest(
    contents: seq<Content>,
    generationConfig: GenerationConfig,
    safetySettings: seq<SafetySetting>)
  datatype GeminiResponse = GeminiResponse(candidates: seq<Candidate>)

  const MaxOutputTokens: nat := 2048
  const BlockNone: string := "BLOCK_NONE"
  const HarmCategories: seq<string> := [
    "HARM_CATEGORY_HARASSMENT",
    "HARM_CATEGORY_HATE_SPEECH",
    "HARM_CATEGORY_SEXUALLY_EXPLICIT",
    "HARM_CATEGORY_DANGEROUS_CONTENT"
  ]

  /**
   * The payload of every attempt: one content holding one part, the prompt;
   * at most 2048 output tokens; the four harm categories, each set to block nothing.
   */
  function BuildRequest(prompt: string): (req: GeminiRequest)
    ensures |req.contents| == 1 && req.contents[0].parts == [Part(prompt)]
    ensures req.generationConfig.maxOutputTokens == MaxOutputTokens
    ensures |req.safetySettings| == |HarmCategories| == 4
    ensures forall i :: 0 <= i < |req.safetySettings| ==>
      req.safetySettings[i] == SafetySetting(HarmCategories[i], BlockNone)
  {
    GeminiRequest(
      [Content([Part(prompt)])],
      GenerationConfig(MaxOutputTokens),
      seq(|HarmCategories|, i requires 0 <= i < |HarmCategories| => SafetySetting(HarmCategories[i], BlockNone)))
  }

  /** The prompt carried by a payload, when it holds exactly one content of one part. */
  function PromptOf(req: GeminiRequest): Option<string> {
    if |req.contents| == 1 && |req.contents[0].parts| == 1 then Some(req.contents[0].parts[0].text) else None
  }

  /** The payload carries the prompt unchanged. */
  lemma PromptOfBuildRequest(prompt: string)
    ensures PromptOf(BuildRequest(prompt)) == Some(prompt)
  {
  }

  // ---- Prompt templates ----

  const RegexInstructions: string :=
    "You are a regular expression expert. Based on the following description, generate a valid PCRE-compatible regex pattern. "
    + "Then, on a new line, provide a brief, step-by-step explanation of how the regex works. "
    + "Use '|||' as a separator between the regex and the explanation. "
    + "Respond with ONLY the regex, the separator, and the explanation. Example: `^[a-zA-Z0-9]+$|||Asserts position at the start of the string. Matches one or more alphanumeric characters. Asserts position at the end.` "
  const DescriptionLabel: string := "Description: \""

  const SqlInstructions: string :=
    "You are an expert SQL developer. Based on the provided database schema and the user's request, generate a single, valid SQL query. "
    + "The query should be formatted for PostgreSQL. "
    + "Do not add any explanation or markdown formatting like ```sql. Respond with ONLY the raw SQL query. "
  const SchemaLabel: string := "Schema:\n"
  const RequestLabel: string := "\n\nUser Request: \""

  /** The regex prompt: the fixed instructions, then `Description: "<description>"`. */
  function RegexPrompt(description: string): (p: string)
  {
    RegexInstructions + DescriptionLabel + description + "\""
  }

  /** The regex prompt starts with the instructions and ends with the quoted description. */
  lemma RegexPromptShape(description: string)
    ensures var p := RegexPrompt(description);
      var tail := DescriptionLabel + description + "\"";
      |p| == |RegexInstructions| + |tail|
      && p[..|RegexInstructions|] == RegexInstructions
      && p[|p| - |tail|..] == tail
  {
  }

  /** The description can be read back out of the regex prompt. */
  lemma RegexPromptDescription(description: string)
    ensures var p := RegexPrompt(description);
      var start := |RegexInstructions| + |DescriptionLabel|;
      start < |p| && p[start..|p| - 1] == description
  {
    var p := RegexPrompt(description);
    var start := |RegexInstructions| + |DescriptionLabel|;
    assert p == (RegexInstructions + DescriptionLabel) + description + "\"";
    assert p[start..|p| - 1] == description;
  }

  /** Different descriptions give different regex prompts. */
  lemma RegexPromptInjective(d1: string, d2: string)
    requires RegexPrompt(d1) == RegexPrompt(d2)
    ensures d1 == d2
  {
    RegexPromptDescription(d1);
    RegexPromptDescription(d2);
  }

  /** The SQL prompt: the fixed instructions, then `Schema:\n<schema>\n\nUser Request: "<description>"`. */
  function SqlPrompt(schema: string, description: string): (p: string)
  {
    SqlInstructions + SchemaLabel + schema + RequestLabel + description + "\""
  }

  /** The SQL prompt starts with the instructions and ends with the schema and the quoted request. */
  lemma SqlPromptShape(schema: string, description: string)
    ensures var p := SqlPrompt(schema, description);
      var tail := SchemaLabel + schema + RequestLabel + description + "\"";
      |p| == |SqlInstructions| + |tail|
      && p[..|SqlInstructions|] == SqlInstructions
      && p[|p| - |tail|..] == tail
  {
    var p := SqlPrompt(schema, description);
    var tail := SchemaLabel + schema + RequestLabel + description + "\"";
    assert p == SqlInstructions + tail;
  }

  /**
   * The schema is not delimited: a schema that itself contains the request
   * label gives the same prompt as a shorter schema with a longer description.
   */
  lemma SqlPromptAmbiguous()
    ensures SqlPrompt("t\n\nUser Request: \"x", "y") == SqlPrompt("t", "x\n\nUser Request: \"y")
  {
  }

  // ---- Attempt outcomes and errors ----

  /** A response body: what `io.ReadAll` returned, its error, and what `json.Unmarshal` made of the text. */
  datatype Payload = Payload(text: string, readError: Option<string>, decoded: Result<GeminiResponse, string>)

  /** What the HTTP client answers to one attempt. */
  datatype Outcome = TransportError(cause: string) | Responded(status: nat, body: Payload)

  /** The response kept after the loop; `closed` when the loop already closed its body. */
  datatype HttpResponse = HttpResponse(status: nat, body: Payload, closed: bool)

  /** The errors `generateContent` returns. */
  datatype GenError =
    | RequestError(cause: string)
    | NoResponse(retries: nat)
    | ApiError(status: nat, body: string)
    | ReadError(cause: string)
    | ParseError(cause: string)
    | NoContent

  /**
   * Characters 0, 4 and 6 of each error's text, fixed by its kind: "error c…",
   * "API did…", "API err…", "error r…", "error p…", "no cont…".
   */
  function KindMark(e: GenError): string {
    match e
    case RequestError(_) => "erc"
    case NoResponse(_) => "Add"
    case ApiError(_, _) => "Aer"
    case ReadError(_) => "err"
    case ParseError(_) => "erp"
    case NoContent => "not"
  }

  /** The two errors are of the same kind, whatever they carry. */
  predicate SameKind(e1: GenError, e2: GenError) {
    e1.RequestError? == e2.RequestError? && e1.NoResponse? == e2.NoResponse?
    && e1.ApiError? == e2.ApiError? && e1.ReadError? == e2.ReadError?
    && e1.ParseError? == e2.ParseError? && e1.NoContent? == e2.NoContent?
  }

  /** Characters 0, 4 and 6 of a text are those of any prefix that has them. */
  lemma MarkOfPrefix(prefix: string, rest: string, mark: string)
    requires |prefix| > 6 && mark == [prefix[0], prefix[4], prefix[6]]
    ensures var m := prefix + rest; |m| > 6 && [m[0], m[4], m[6]] == mark
  {
  }

  /**
   * The text of each error, as `fmt.Errorf` formats it. Its characters 0, 4
   * and 6 tell the kind of error apart, whatever it wraps.
   */
  function Message(e: GenError): (m: string)
    ensures |m| > 6 && [m[0], m[4], m[6]] == KindMark(e)
  {
    match e
    case RequestError(cause) =>
      var prefix := "error creating http request: ";
      MarkOfPrefix(prefix, cause, "erc");
      prefix + cause
    case NoResponse(retries) =>
      var prefix, rest := "API did not respond after ", Strings.Decimal(retries) + " retries";
      MarkOfPrefix(prefix, rest, "Add");
      prefix + rest
    case ApiError(status, body) =>
      var prefix, rest := "API error (status ", Strings.Decimal(status) + "): " + body;
      MarkOfPrefix(prefix, rest, "Aer");
      prefix + rest
    case ReadError(cause) =>
      var prefix := "error reading successful response body: ";
      MarkOfPrefix(prefix, cause, "err");
      prefix + cause
    case ParseError(cause) =>
      var prefix := "error parsing successful Gemini response: ";
      MarkOfPrefix(prefix, cause, "erp");
      prefix + cause
    case NoContent =>
      var text := "no content found in Gemini response";
      MarkOfPrefix(text, "", "not");
      text
  }

  lemma NoResponseMessage()
    ensures Message(NoResponse(MaxRetries)) == "API did not respond after 3 retries"
  {
  }

  /**
   * Errors of different kinds never share a text, so a client that sees only
   * the message can still tell, say, "no response" from "no content".
   */
  lemma MessageTellsKind(e1: GenError, e2: GenError)
    ensures Message(e1) == Message(e2) ==> SameKind(e1, e2)
  {
  }

  const MaxRetries: nat := 3
  const StatusOK: nat := HttpStatus.OK
  const StatusServiceUnavailable: nat := HttpStatus.ServiceUnavailable

  /** An attempt that leads to another: a transport error or a 503 (section 15.6.4 of RFC 9110). */
  predicate Retryable(o: Outcome) {
    o.TransportError? || o.status == StatusServiceUnavailable
  }

  // ---- Specification of the loop ----

  /** The number of attempts made, counting from attempt `i` on. */
  function AttemptsFrom(outcomes: seq<Outcome>, i: nat): (n: nat)
    requires |outcomes| >= MaxRetries && i <= MaxRetries
    decreases MaxRetries - i
    ensures i < MaxRetries ==> i < n <= MaxRetries
    ensures i == MaxRetries ==> n == MaxRetries
  {
    if i == MaxRetries then MaxRetries
    else if !Retryable(outcomes[i]) then i + 1
    else AttemptsFrom(outcomes, i + 1)
  }

  /** The number of attempts the loop makes: between one and three. */
  function Attempts(outcomes: seq<Outcome>): (n: nat)
    requires |outcomes| >= MaxRetries
    ensures 1 <= n <= MaxRetries
  {
    AttemptsFrom(outcomes, 0)
  }

  /** The number of attempts among the first `n` that were a transport error or a 503. */
  function RetryableAmong(outcomes: seq<Outcome>, n: nat): nat
    requires n <= |outcomes|
  {
    if n == 0 then 0 else RetryableAmong(outcomes, n - 1) + (if Retryable(outcomes[n - 1]) then 1 else 0)
  }

  lemma {:induction false} RetryableAmongAll(outcomes: seq<Outcome>, n: nat)
    requires n <= |outcomes|
    requires forall k :: 0 <= k < n ==> Retryable(outcomes[k])
    ensures RetryableAmong(outcomes, n) == n
  {
    if n > 0 {
      RetryableAmongAll(outcomes, n - 1);
    }
  }

  /** The number of attempts that were followed by a sleep. */
  function FailedAttempts(outcomes: seq<Outcome>): nat
    requires |outcomes| >= MaxRetries
  {
    var n := Attempts(outcomes);
    if Retryable(outcomes[n - 1]) then n else n - 1
  }

  function Pow2(k: nat): (p: nat)
    ensures p >= 1
  {
    if k == 0 then 1 else 2 * Pow2(k - 1)
  }

  /** The sleeps after `n` failed attempts, in seconds: 1, 2, 4, ... */
  function Backoffs(n: nat): (s: seq<nat>)
    ensures |s| == n
  {
    if n == 0 then [] else Backoffs(n - 1) + [Pow2(n - 1)]
  }

  /** The k-th sleep is 2^k seconds: the backoff starts at one second and doubles. */
  lemma {:induction false} BackoffAt(n: nat, k: nat)
    requires k < n
    ensures Backoffs(n)[k] == Pow2(k)
    ensures k + 1 < n ==> Backoffs(n)[k + 1] == 2 * Backoffs(n)[k]
  {
    if k < n - 1 {
      BackoffAt(n - 1, k);
      if k + 1 < n - 1 {
        BackoffAt(n - 1, k + 1);
      }
    }
  }

  function Sum(s: seq<nat>): nat {
    if s == [] then 0 else Sum(s[..|s| - 1]) + s[|s| - 1]
  }

  /** The response the loop leaves behind after an attempt: none after a transport error; a 503's body is closed. */
  function ResponseAfter(o: Outcome): Option<HttpResponse> {
    match o
    case TransportError(_) => None
    case Responded(status, body) => Some(HttpResponse(status, body, status == StatusServiceUnavailable))
  }

  /** The first part's text of the first candidate, or `NoContent`. */
  function FirstText(g: GeminiResponse): (r: Result<string, GenError>)
    ensures r.Success? <==> |g.candidates| > 0 && |g.candidates[0].content.parts| > 0
    ensures r.Success? ==> r.value == g.candidates[0].content.parts[0].text
    ensures r.Failure? ==> r.error == NoContent
  {
    if |g.candidates| > 0 && |g.candidates[0].content.parts| > 0 then
      Success(g.candidates[0].content.parts[0].text)
    else Failure(NoContent)
  }

  /** Only the first candidate is consulted. */
  lemma FirstTextIgnoresLaterCandidates(g: GeminiResponse, later: seq<Candidate>)
    requires |g.candidates| > 0
    ensures FirstText(GeminiResponse([g.candidates[0]] + later)) == FirstText(g)
  {
  }

  /** What the code after the loop makes of the last response. */
  function Conclude(resp: Option<HttpResponse>): Result<string, GenError> {
    match resp
    case None => Failure(NoResponse(MaxRetries))
    case Some(r) =>
      if r.status != StatusOK then Failure(ApiError(r.status, if r.closed then "" else r.body.text))
      else if r.body.readError.Some? then Failure(ReadError(r.body.readError.value))
      else match r.body.decoded
        case Failure(cause) => Failure(ParseError(cause))
        case Success(g) => FirstText(g)
  }

  /** The result of `generateContent` for the given request-construction error and attempt outcomes. */
  function ContentResult(requestError: Option<string>, outcomes: seq<Outcome>): Result<string, GenError>
    requires |outcomes| >= MaxRetries
  {
    if requestError.Some? then Failure(RequestError(requestError.value))
    else Conclude(ResponseAfter(outcomes[Attempts(outcomes) - 1]))
  }

  // ---- Properties of the loop ----

  lemma {:induction false} AttemptsFromStops(outcomes: seq<Outcome>, i: nat)
    requires |outcomes| >= MaxRetries && i < MaxRetries
    decreases MaxRetries - i
    ensures var n := AttemptsFrom(outcomes, i);
      (forall k :: i <= k < n - 1 ==> Retryable(outcomes[k]))
      && (n < MaxRetries ==> !Retryable(outcomes[n - 1]))
  {
    if Retryable(outcomes[i]) && i + 1 < MaxRetries {
      AttemptsFromStops(outcomes, i + 1);
    }
  }

  /**
   * Every attempt but the last made was a transport error or a 503, and when
   * fewer than three attempts were made the last one was neither.
   */
  lemma RetriesOnlyOnFailure(outcomes: seq<Outcome>)
    requires |outcomes| >= MaxRetries
    ensures forall k :: 0 <= k < Attempts(outcomes) - 1 ==> Retryable(outcomes[k])
    ensures Attempts(outcomes) < MaxRetries ==> !Retryable(outcomes[Attempts(outcomes) - 1])
  {
    AttemptsFromStops(outcomes, 0);
  }

  /** The loop stops right after the first attempt that is neither a transport error nor a 503. */
  lemma StopsAtFirstDecisive(outcomes: seq<Outcome>, j: nat)
    requires |outcomes| >= MaxRetries && j < MaxRetries
    requires !Retryable(outcomes[j])
    requires forall k :: 0 <= k < j ==> Retryable(outcomes[k])
    ensures Attempts(outcomes) == j + 1
  {
    RetriesOnlyOnFailure(outcomes);
  }

  /** Only transport errors and 503s: exactly three attempts. */
  lemma ThreeAttemptsWhenAllFail(outcomes: seq<Outcome>)
    requires |outcomes| >= MaxRetries
    requires forall k :: 0 <= k < MaxRetries ==> Retryable(outcomes[k])
    ensures Attempts(outcomes) == MaxRetries == FailedAttempts(outcomes)
  {
    RetriesOnlyOnFailure(outcomes);
  }

  /** `n` failed attempts sleep 2^n - 1 seconds in all. */
  lemma {:induction false} BackoffTotal(n: nat)
    ensures Sum(Backoffs(n)) == Pow2(n) - 1
  {
    if n > 0 {
      var prev := Backoffs(n - 1);
      var s := prev + [Pow2(n - 1)];
      assert Backoffs(n) == s;
      assert s[..|s| - 1] == prev;
      BackoffTotal(n - 1);
    }
  }

  /**
   * The number of sleeps is the number of attempts made that were a transport
   * error or a 503, the last attempt included; the sleeps add up to
   * 2^n - 1 seconds, at most 1 + 2 + 4 = 7.
   */
  lemma SleepBound(outcomes: seq<Outcome>)
    requires |outcomes| >= MaxRetries
    ensures var f := FailedAttempts(outcomes);
      f == RetryableAmong(outcomes, Attempts(outcomes))
      && f <= MaxRetries
      && Sum(Backoffs(f)) == Pow2(f) - 1 <= 7
  {
    var f := FailedAttempts(outcomes);
    RetriesOnlyOnFailure(outcomes);
    RetryableAmongAll(outcomes, Attempts(outcomes) - 1);
    BackoffTotal(f);
    assert Pow2(3) == 8;
    assert f <= 3 ==> Pow2(f) <= 8;
  }

  /**
   * "API did not respond" exactly when the last attempt made was a transport
   * error, and then all three attempts were made.
   */
  lemma NoResponseIff(outcomes: seq<Outcome>)
    requires |outcomes| >= MaxRetries
    ensures var last := outcomes[Attempts(outcomes) - 1];
      ContentResult(None, outcomes) == Failure(NoResponse(MaxRetries)) <==> last.TransportError?
    ensures outcomes[Attempts(outcomes) - 1].TransportError? ==> Attempts(outcomes) == MaxRetries
  {
    RetriesOnlyOnFailure(outcomes);
  }

  /**
   * An "API error" happens exactly when the last attempt made got a status
   * other than 200, and it carries that status. For any status but 503 it also
   * carries the body text read; a final 503 gives an empty body, because the
   * loop closed that body before it was read.
   */
  lemma ApiErrorIff(outcomes: seq<Outcome>)
    requires |outcomes| >= MaxRetries
    ensures var last, r := outcomes[Attempts(outcomes) - 1], ContentResult(None, outcomes);
      (r.Failure? && r.error.ApiError?) <==> (last.Responded? && last.status != StatusOK)
    ensures var last, r := outcomes[Attempts(outcomes) - 1], ContentResult(None, outcomes);
      r.Failure? && r.error.ApiError? ==> r.error.status == last.status != StatusOK
    ensures var last := outcomes[Attempts(outcomes) - 1];
      last.Responded? && last.status == StatusServiceUnavailable ==>
        ContentResult(None, outcomes) == Failure(ApiError(StatusServiceUnavailable, ""))
    ensures var last := outcomes[Attempts(outcomes) - 1];
      last.Responded? && last.status != StatusOK && last.status != StatusServiceUnavailable ==>
        ContentResult(None, outcomes) == Failure(ApiError(last.status, last.body.text))
  {
  }

  /**
   * Success exactly when the last attempt made got a 200 whose body was read
   * and decoded and whose first candidate has a part; the text is that part's.
   */
  lemma SuccessIff(outcomes: seq<Outcome>)
    requires |outcomes| >= MaxRetries
    ensures var last, r := outcomes[Attempts(outcomes) - 1], ContentResult(None, outcomes);
      r.Success? <==>
        && last.Responded? && last.status == StatusOK
        && last.body.readError.None? && last.body.decoded.Success?
        && |last.body.decoded.value.candidates| > 0
        && |last.body.decoded.value.candidates[0].content.parts| > 0
    ensures var last, r := outcomes[Attempts(outcomes) - 1], ContentResult(None, outcomes);
      r.Success? ==> r.value == last.body.decoded.value.candidates[0].content.parts[0].text
  {
  }

  /**
   * "No content found" exactly when a decoded 200 has no candidate, or its
   * first candidate has no part.
   */
  lemma NoContentIff(outcomes: seq<Outcome>)
    requires |outcomes| >= MaxRetries
    ensures var last := outcomes[Attempts(outcomes) - 1];
      ContentResult(None, outcomes) == Failure(NoContent) <==>
        && last.Responded? && last.status == StatusOK
        && last.body.readError.None? && last.body.decoded.Success?
        && (|last.body.decoded.value.candidates| == 0
            || |last.body.decoded.value.candidates[0].content.parts| == 0)
  {
  }

  /**
   * Three 503s in a row: three attempts, sleeps of 1, 2 and 4 seconds, and an
   * API error with status 503; a fourth answer is never asked for.
   */
  lemma ThreeUnavailable(body: Payload, fourth: Outcome)
    ensures var unavailable := Responded(StatusServiceUnavailable, body);
      var outcomes := [unavailable, unavailable, unavailable, fourth];
      Attempts(outcomes) == 3
      && Backoffs(FailedAttempts(outcomes)) == [1, 2, 4]
      && ContentResult(None, outcomes) == Failure(ApiError(StatusServiceUnavailable, ""))
  {
    var unavailable := Responded(StatusServiceUnavailable, body);
    var outcomes := [unavailable, unavailable, unavailable, fourth];
    ThreeAttemptsWhenAllFail(outcomes);
  }

  // ---- The loop ----

  /**
   * `generateContent`. Returns the result, the requests posted (one per
   * attempt) and the sleeps taken. A failure to build the HTTP request ends
   * the call before any attempt.
   */
  method GenerateContent(prompt: string, requestError: Option<string>, outcomes: seq<Outcome>)
    returns (result: Result<string, GenError>, sent: seq<GeminiRequest>, sleeps: seq<nat>)
    requires |outcomes| >= MaxRetries
    ensures result == ContentResult(requestError, outcomes)
    ensures requestError.Some? ==> sent == [] && sleeps == []
    ensures requestError.None? ==> |sent| == Attempts(outcomes) && sleeps == Backoffs(FailedAttempts(outcomes))
    ensures forall k :: 0 <= k < |sent| ==> sent[k] == BuildRequest(prompt)
  {
    var request := BuildRequest(prompt);
    var resp: Option<HttpResponse> := None;
    var backoff: nat := 1;
    sent, sleeps := [], [];
    var i := 0;
    while i < MaxRetries
      invariant 0 <= i <= MaxRetries
      invariant requestError.Some? ==> i == 0
      invariant |sent| == i && forall k :: 0 <= k < i ==> sent[k] == request
      invariant forall k :: 0 <= k < i ==> Retryable(outcomes[k])
      invariant AttemptsFrom(outcomes, i) == Attempts(outcomes)
      invariant sleeps == Backoffs(i) && backoff == Pow2(i)
      invariant i > 0 ==> resp == ResponseAfter(outcomes[i - 1])
    {
      if requestError.Some? {
        result := Failure(RequestError(requestError.value));
        return;
      }
      var outcome := outcomes[i];
      sent := sent + [request];
      match outcome {
        case TransportError(_) =>
          resp := None;
        case Responded(status, body) =>
          resp := Some(HttpResponse(status, body, false));
      }
      if outcome.TransportError? || outcome.status == StatusServiceUnavailable {
        if outcome.Responded? {
          resp := Some(resp.value.(closed := true));
        }
        sleeps := sleeps + [backoff];
        backoff := backoff * 2;
        i := i + 1;
        continue;
      }
      break;
    }
    if resp.None? {
      result := Failure(NoResponse(MaxRetries));
      return;
    }
    var r := resp.value;
    if r.status != StatusOK {
      var text := if r.closed then "" else r.body.text;
      result := Failure(ApiError(r.status, text));
      return;
    }
    if r.body.readError.Some? {
      result := Failure(ReadError(r.body.readError.value));
      return;
    }
    match r.body.decoded {
      case Failure(cause) =>
        result := Failure(ParseError(cause));
      case Success(g) =>
        if |g.candidates| > 0 && |g.candidates[0].content.parts| > 0 {
          result := Success(g.candidates[0].content.parts[0].text);
        } else {
          result := Failure(NoContent);
        }
    }
  }

  /** `GenerateRegex`: `generateContent` on the regex prompt. */
  method GenerateRegex(description: string, requestError: Option<string>, outcomes: seq<Outcome>)
    returns (result: Result<string, GenError>, sent: seq<GeminiRequest>, sleeps: seq<nat>)
    requires |outcomes| >= MaxRetries
    ensures result == ContentResult(requestError, outcomes)
    ensures requestError.Some? ==> sent == [] && sleeps == []
    ensures requestError.None? ==> |sent| == Attempts(outcomes) && sleeps == Backoffs(FailedAttempts(outcomes))
    ensures forall k :: 0 <= k < |sent| ==> PromptOf(sent[k]) == Some(RegexPrompt(description))
  {
    result, sent, sleeps := GenerateContent(RegexPrompt(description), requestError, outcomes);
  }

  /** `GenerateSQL`: `generateContent` on the SQL prompt. */
  method GenerateSQL(schema: string, description: string, requestError: Option<string>, outcomes: seq<Outcome>)
    returns (result: Result<string, GenError>, sent: seq<GeminiRequest>, sleeps: seq<nat>)
    requires |outcomes| >= MaxRetries
    ensures result == ContentResult(requestError, outcomes)
    ensures requestError.Some? ==> sent == [] && sleeps == []
    ensures requestError.None? ==> |sent| == Attempts(outcomes) && sleeps == Backoffs(FailedAttempts(outcomes))
    ensures forall k :: 0 <= k < |sent| ==> PromptOf(sent[k]) == Some(SqlPrompt(schema, description))
  {
    result, sent, sleeps := GenerateContent(SqlPrompt(schema, description), requestError, outcomes);
  }
}

/**
 * The HTTP handlers as decisions: each takes the decoded request fields (or
 * `None` when JSON decoding failed) and what the service returned, and gives
 * the status and the JSON object written back. The two mock handlers work on
 * the shared store.
 */
module Handlers {
  import opened Wrappers
  import Strings
  import HttpStatus
  import GeminiService
  import MockService

  const StatusOK: nat := HttpStatus.OK
  const StatusCreated: nat := HttpStatus.Created
  const StatusBadRequest: nat := HttpStatus.BadRequest
  const StatusNotFound: nat := HttpStatus.NotFound
  const StatusInternalServerError: nat := HttpStatus.InternalServerError

  /** A response body: a JSON object of strings, or text written as it is. */
  datatype Body = Fields(fields: map<string, string>) | Verbatim(text: string)

  datatype Reply = Reply(status: nat, body: Body)

  /** The error envelope: a JSON object whose only key is "error". */
  predicate IsErrorEnvelope(r: Reply) {
    r.body.Fields? && r.body.fields.Keys == {"error"}
  }

  /** `writeError`: the status and `{"error": message}`. */
  function ErrorReply(status: nat, message: string): (r: Reply)
    ensures r.status == status && IsErrorEnvelope(r) && r.body.fields["error"] == message
  {
    Reply(status, Fields(map["error" := message]))
  }

  // ---- Regex generation ----

  const Separator: string := "|||"
  const NoExplanation: string := "AI did not provide an explanation."
  const InvalidRequestBody: string := "Invalid request body"

  datatype RegexRequest = RegexRequest(description: string)
  datatype RegexAnswer = RegexAnswer(regex: string, explanation: string)

  /**
   * Splits the model's answer at the first "|||" and trims both halves; any
   * later "|||" stays in the explanation. Without a separator the whole answer,
   * untrimmed, is the regex and the explanation is a fixed notice.
   */
  function SplitRegexAnswer(answer: string): (r: RegexAnswer)
    ensures forall i :: Strings.IsFirstOccurrence(answer, Separator, i) ==>
      r == RegexAnswer(Strings.TrimSpace(answer[..i]), Strings.TrimSpace(answer[i + |Separator|..]))
    ensures !Strings.Contains(answer, Separator) ==> r == RegexAnswer(answer, NoExplanation)
  {
    var parts := Strings.SplitOnce(answer, Separator);
    if |parts| != 2 then RegexAnswer(answer, NoExplanation)
    else
      Strings.FirstOccurrenceUnique(answer, Separator, |parts[0]|);
      assert parts[0] == answer[..|parts[0]|] && parts[1] == answer[|parts[0]| + |Separator|..] by {
        assert answer == parts[0] + Separator + parts[1];
      }
      RegexAnswer(Strings.TrimSpace(parts[0]), Strings.TrimSpace(parts[1]))
  }

  /**
   * With a separator, the answer is the regex and the explanation, each padded
   * with white space only, joined by the first "|||"; the regex holds no "|||".
   */
  lemma RegexAnswerReassembles(answer: string)
    requires Strings.Contains(answer, Separator)
    ensures var r := SplitRegexAnswer(answer);
      exists before, after ::
        answer == before + Separator + after
        && !Strings.Contains(before, Separator)
        && Strings.PaddedBy(before, r.regex) && Strings.PaddedBy(after, r.explanation)
    ensures !Strings.Contains(SplitRegexAnswer(answer).regex, Separator)
  {
    var first := Strings.Index(answer, Separator).value;
    var before, after := answer[..first], answer[first + |Separator|..];
    assert answer == before + Separator + after by {
      assert answer == answer[..first] + answer[first..first + |Separator|] + answer[first + |Separator|..];
    }
    Strings.BeforeFirstOccurrence(answer, Separator, first);
    var r := SplitRegexAnswer(answer);
    assert r.regex == Strings.TrimSpace(before) && r.explanation == Strings.TrimSpace(after);
    Strings.TrimSpacePadded(before);
    Strings.TrimSpacePadded(after);
    Strings.TrimKeepsAbsence(before, Separator);
    assert answer == before + Separator + after
      && !Strings.Contains(before, Separator)
      && Strings.PaddedBy(before, r.regex) && Strings.PaddedBy(after, r.explanation);
  }

  /**
   * `HandleGenerateRegex`: 400 exactly when the body did not decode or the
   * description is empty, and then the service's answer plays no part; 500 with
   * the service's message when it failed; otherwise 200 with the split answer.
   */
  function HandleGenerateRegex(request: Option<RegexRequest>, generated: Result<string, GeminiService.GenError>): (reply: Reply)
    ensures reply.status in {StatusOK, StatusBadRequest, StatusInternalServerError}
    ensures reply.status == StatusBadRequest <==> request.None? || request.value.description == ""
    ensures reply.status == StatusBadRequest ==> reply == ErrorReply(StatusBadRequest, InvalidRequestBody)
    ensures reply.status == StatusInternalServerError <==> reply.status != StatusBadRequest && generated.Failure?
    ensures reply.status == StatusInternalServerError ==>
      reply == ErrorReply(StatusInternalServerError, GeminiService.Message(generated.error))
    ensures reply.status == StatusOK ==>
      var a := SplitRegexAnswer(generated.value);
      reply.body == Fields(map["regex" := a.regex, "explanation" := a.explanation])
    ensures IsErrorEnvelope(reply) <==> reply.status != StatusOK
  {
    if request.None? || request.value.description == "" then
      ErrorReply(StatusBadRequest, InvalidRequestBody)
    else if generated.Failure? then
      ErrorReply(StatusInternalServerError, GeminiService.Message(generated.error))
    else
      var a := SplitRegexAnswer(generated.value);
      var fields := map["regex" := a.regex, "explanation" := a.explanation];
      assert "regex" in fields.Keys && "regex" != "error";
      Reply(StatusOK, Fields(fields))
  }

  /** An answer without "|||" is returned whole, with the fixed explanation, and status 200. */
  lemma RegexWithoutSeparator(description: string, answer: string)
    requires description != "" && !Strings.Contains(answer, Separator)
    ensures HandleGenerateRegex(Some(RegexRequest(description)), Success(answer))
      == Reply(StatusOK, Fields(map["regex" := answer, "explanation" := NoExplanation]))
  {
  }

  /** The example answer "^[0-9]+$|||digits only" splits into the regex and its explanation. */
  lemma RegexExampleSplit()
    ensures SplitRegexAnswer("^[0-9]+$|||digits only") == RegexAnswer("^[0-9]+$", "digits only")
  {
    var regex, explanation := "^[0-9]+$", "digits only";
    var answer := regex + Separator + explanation;
    assert answer == "^[0-9]+$|||digits only";
    assert answer[..8] == regex && answer[11..] == explanation;
    assert Strings.IsFirstOccurrence(answer, Separator, 8) by {
      assert answer[8..11] == Separator;
      assert '|' !in regex;
      forall j | 0 <= j < 8 ensures !Strings.OccursAt(answer, Separator, j) {
        assert answer[j] == regex[j] && regex[j] in regex;
        assert answer[j..j + 3][0] == answer[j];
      }
    }
    Strings.TrimSpaceNoop(regex);
    Strings.TrimSpaceNoop(explanation);
  }

  // ---- Config conversion ----

  datatype ConvertRequest = ConvertRequest(input: string, from: string, to: string)

  /**
   * `HandleConvertConfig`: 400 for an undecodable body or an empty input, and
   * 400 again, with the converter's message, when conversion fails; never 500.
   */
  function HandleConvertConfig(request: Option<ConvertRequest>, converted: Result<string, string>): (reply: Reply)
    ensures reply.status in {StatusOK, StatusBadRequest}
    ensures reply.status == StatusOK <==> request.Some? && request.value.input != "" && converted.Success?
    ensures reply.status == StatusOK ==> reply.body == Fields(map["output" := converted.value])
    ensures request.None? || request.value.input == "" ==> reply == ErrorReply(StatusBadRequest, InvalidRequestBody)
    ensures request.Some? && request.value.input != "" && converted.Failure? ==>
      reply == ErrorReply(StatusBadRequest, converted.error)
    ensures IsErrorEnvelope(reply) <==> reply.status != StatusOK
  {
    if request.None? || request.value.input == "" then
      ErrorReply(StatusBadRequest, InvalidRequestBody)
    else if converted.Failure? then
      ErrorReply(StatusBadRequest, converted.error)
    else
      var fields := map["output" := converted.value];
      assert "output" in fields.Keys;
      Reply(StatusOK, Fields(fields))
  }

  // ---- SQL generation ----

  datatype SqlRequest = SqlRequest(schema: string, description: string)

  /**
   * `HandleGenerateSQL`: only an empty description is rejected (an empty schema
   * is accepted); a service error gives 500 with its message; otherwise 200
   * with the query trimmed of surrounding white space.
   */
  function HandleGenerateSQL(request: Option<SqlRequest>, generated: Result<string, GeminiService.GenError>): (reply: Reply)
    ensures reply.status in {StatusOK, StatusBadRequest, StatusInternalServerError}
    ensures reply.status == StatusBadRequest <==> request.None? || request.value.description == ""
    ensures reply.status == StatusBadRequest ==> reply == ErrorReply(StatusBadRequest, InvalidRequestBody)
    ensures reply.status == StatusInternalServerError <==> reply.status != StatusBadRequest && generated.Failure?
    ensures reply.status == StatusInternalServerError ==>
      reply == ErrorReply(StatusInternalServerError, GeminiService.Message(generated.error))
    ensures reply.status == StatusOK ==>
      reply.body.Fields? && reply.body.fields.Keys == {"query"}
      && Strings.PaddedBy(generated.value, reply.body.fields["query"])
      && reply.body.fields["query"] == Strings.TrimSpace(generated.value)
    ensures IsErrorEnvelope(reply) <==> reply.status != StatusOK
  {
    if request.None? || request.value.description == "" then
      ErrorReply(StatusBadRequest, InvalidRequestBody)
    else if generated.Failure? then
      ErrorReply(StatusInternalServerError, GeminiService.Message(generated.error))
    else
      Strings.TrimSpacePadded(generated.value);
      var fields := map["query" := Strings.TrimSpace(generated.value)];
      assert fields.Keys == {"query"};
      Reply(StatusOK, Fields(fields))
  }

  /** The service's result has no say in a rejected request: it is not called. */
  lemma RejectionIgnoresService(
    regex: Option<RegexRequest>, sql: Option<SqlRequest>,
    g1: Result<string, GeminiService.GenError>, g2: Result<string, GeminiService.GenError>)
    ensures regex.None? || regex.value.description == "" ==>
      HandleGenerateRegex(regex, g1) == HandleGenerateRegex(regex, g2)
    ensures sql.None? || sql.value.description == "" ==>
      HandleGenerateSQL(sql, g1) == HandleGenerateSQL(sql, g2)
  {
  }

  // ---- Mock URLs and the mock handlers ----

  /** The scheme of the request: "https" when it came over TLS, else "http". */
  function Scheme(tls: bool): string {
    if tls then "https" else "http"
  }

  /** The URL under which a mock is served. */
  function MockUrl(tls: bool, host: string, id: string): (url: string)
  {
    Scheme(tls) + "://" + host + "/mock/" + id
  }

  /**
   * A mock URL starts with "https://" exactly for a TLS request (else with
   * "http://"), is followed by the host, and ends with "/mock/" and the id.
   */
  lemma MockUrlShape(tls: bool, host: string, id: string)
    ensures var url, prefix := MockUrl(tls, host, id), Scheme(tls) + "://";
      var tail := "/mock/" + id;
      |url| == |prefix| + |host| + |tail|
      && url[..|prefix|] == prefix
      && url[|prefix|..|prefix| + |host|] == host
      && url[|url| - |tail|..] == tail
    ensures MockUrl(tls, host, id)[..8] == "https://" <==> tls
  {
    var url := MockUrl(tls, host, id);
    var prefix := Scheme(tls) + "://";
    assert url == prefix + host + ("/mock/" + id);
    if !tls {
      assert url[..8][4] == ':';
    }
  }

  const InvalidJsonBody: string := "Invalid JSON body"
  const CreateFailed: string := "Failed to create mock"
  const MockNotFound: string := "Mock not found"

  class ApiHandlers {
    const mockStore: MockService.MockStore

    /** `NewAPIHandlers`: handlers over the given store. */
    constructor (ms: MockService.MockStore)
      ensures mockStore == ms
    {
      mockStore := ms;
    }

    /**
     * `HandleCreateMock`. `body` is the re-encoded JSON object, or `None` when
     * the request body did not decode; `tls` and `host` come from the request;
     * `entropy` is the random source's answer. Stores the body and answers 201
     * with exactly the keys "url" and "id", 400 for a bad body, 500 when the
     * store fails; the store changes only on 201.
     */
    method HandleCreateMock(body: Option<string>, tls: bool, host: string, entropy: MockService.Entropy)
      returns (reply: Reply)
      requires mockStore.Valid()
      modifies mockStore
      ensures mockStore.Valid()
      ensures body.None? ==> reply == ErrorReply(StatusBadRequest, InvalidJsonBody)
      ensures body.Some? && entropy.RandomError? ==> reply == ErrorReply(StatusInternalServerError, CreateFailed)
      ensures reply.status != StatusCreated ==> mockStore.mocks == old(mockStore.mocks)
      ensures body.Some? && entropy.Filled? ==>
        var id := MockService.IdOf(entropy.bytes);
        && reply == Reply(StatusCreated, Fields(map["url" := MockUrl(tls, host, id), "id" := id]))
        && mockStore.mocks == old(mockStore.mocks)[id := body.value]
    {
      if body.None? {
        return ErrorReply(StatusBadRequest, InvalidJsonBody);
      }
      var created := mockStore.CreateMock(body.value, entropy);
      if created.Failure? {
        return ErrorReply(StatusInternalServerError, CreateFailed);
      }
      var id := created.value;
      var url := MockUrl(tls, host, id);
      reply := Reply(StatusCreated, Fields(map["url" := url, "id" := id]));
    }

    /**
     * `HandleGetMock`: 404 with the error envelope when the id is unknown,
     * otherwise 200 with the stored body written verbatim.
     */
    method HandleGetMock(id: string) returns (reply: Reply)
      ensures reply.status in {StatusOK, StatusNotFound}
      ensures reply.status == StatusNotFound <==> id !in mockStore.mocks
      ensures id in mockStore.mocks ==> reply == Reply(StatusOK, Verbatim(mockStore.mocks[id]))
      ensures id !in mockStore.mocks ==> reply == ErrorReply(StatusNotFound, MockNotFound)
    {
      var mockData, found := mockStore.GetMock(id);
      if !found {
        return ErrorReply(StatusNotFound, MockNotFound);
      }
      reply := Reply(StatusOK, Verbatim(mockData));
    }
  }

  /** Creating a mock and then fetching it by the returned id gives the stored body back. */
  method CreateThenFetch(handlers: ApiHandlers, body: string, host: string, bytes: MockService.RandomBytes)
    returns (created: Reply, fetched: Reply)
    requires handlers.mockStore.Valid()
    modifies handlers.mockStore
    ensures created.status == StatusCreated && created.body.Fields? && "id" in created.body.fields
    ensures fetched == Reply(StatusOK, Verbatim(body))
  {
    created := handlers.HandleCreateMock(Some(body), false, host, MockService.Filled(bytes));
    fetched := handlers.HandleGetMock(created.body.fields["id"]);
  }
}

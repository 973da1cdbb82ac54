# Devkit HTTP toolkit: a Dafny model of its core

Devkit is a small HTTP backend with a handful of developer utilities. This project models the three pieces with behaviour that can be stated precisely:

- **The mock store** (`MockService`). `MockStore` is a class whose `mocks` field is a `map<string, string>` from a generated id to a stored JSON text. `CreateMock` hex-encodes six random bytes into a 12-character lower-case id and writes the body under it, overwriting any entry already there. `GetMock` looks an id up. The random source's answer is a parameter (`Entropy`): either the six bytes or an error.
- **The generative-AI client** (`GeminiService`). This covers the two prompt templates and the request payload. `GenerateContent` is a method whose `while` loop makes at most three attempts. It retries only after a transport error or an HTTP 503 (section 15.6.4 of RFC 9110), and it sleeps 1, 2, then 4 seconds after each failed attempt, the last one included. After the loop, the last attempt's response decides the result. The HTTP client is a sequence `outcomes` of what it answers to each attempt. Sleeps are recorded as a list of seconds instead of being taken. The method is proved against the specification function `ContentResult`, and the lemmas about that function state the retry and error properties.
- **The request handlers** (`Handlers`). Each handler is a function from the decoded request fields (`None` when JSON decoding failed) and the service's result to a `Reply`: a status and a body. The body is either a JSON object of strings or, for get-mock, text written verbatim. The create-mock and get-mock handlers are methods of the class `ApiHandlers`, which holds the shared store.

Helper modules: `Wrappers` (`Option`, `Result`); `Strings` (Go's `strings.TrimSpace`, `strings.Index`, `strings.SplitN(s, sep, 2)` and the `%d` verb); `Hex` (Go's `hex.EncodeToString` and its inverse); `HttpStatus` (the status codes used, declared once).

Two consequences of the retry loop as written, which the model keeps:

- Three 503 responses in a row end the call. The third 503 is the last attempt: the call fails with "API error (status 503)" after sleeping 1 + 2 + 4 seconds, and a fourth request is never sent (`GeminiService.ThreeUnavailable`).
- A final 503 response's body has already been closed inside the loop (internal/services/gemini_service.go:76). The API error it produces therefore carries an empty body text. This is what Go's `io.ReadAll` gives for a closed response body.

## Model

| member | source | states |
|---|---|---|
| `MockService.MockStore.constructor` | internal/services/mock_service.go:14-18 | A new store is valid and has no entries. |
| `MockService.MockStore.CreateMock` | internal/services/mock_service.go:20-33 | A random-source error is returned and leaves the table unchanged. Otherwise the id is the hex encoding of the random bytes, has the id shape, and maps to the body. No other key changes. A collision overwrites the old entry and the size does not grow. The invariant that every key is an id is kept. |
| `MockService.MockStore.GetMock` | internal/services/mock_service.go:35-41 | `found` iff the id is present. The body is the stored one, or `""` when the id is absent. The store is not changed. |
| `MockService.IdOf` | internal/services/mock_service.go:25-29 | The id has 12 characters from `0-9a-f` and decodes back to the six random bytes. |
| `MockService.UpdateCardinality` | internal/services/mock_service.go:31 | Writing a present key keeps the number of entries. Writing a new key adds exactly one. |
| `MockService.LookupMalformedId` | internal/services/mock_service.go:20-41 | In a store whose keys are all generated ids, looking up a text that is not a 12-character lower-case hex id reports not-found with `""`. |
| `MockService.CreateThenGet` | internal/services/mock_service.go:20-41 | After `CreateMock(body)` returns an id, `GetMock(id)` returns `(body, true)`. |
| `MockService.LookupInNewStore` | internal/services/mock_service.go:14-41 | A freshly constructed store reports not-found for every id. |
| `Hex.Encode` | internal/services/mock_service.go:29 | The encoding is twice as long as the input and uses only `0-9a-f`. Each byte gives two digits, high nibble first. |
| `Hex.DecodeEncode` | internal/services/mock_service.go:29 | Decoding an encoding gives the original bytes back. |
| `Hex.EncodeInjective` | internal/services/mock_service.go:29 | Different random bytes give different ids. |
| `GeminiService.BuildRequest` | internal/services/gemini_service.go:56-63 | The payload has exactly one content with one part equal to the prompt, and `maxOutputTokens` 2048. It has the four harm categories in order, each with threshold `BLOCK_NONE`. |
| `GeminiService.PromptOfBuildRequest` | internal/services/gemini_service.go:63 | The prompt can be read back unchanged from the payload. |
| `GeminiService.RegexPromptShape` | internal/services/gemini_service.go:31-38 | The regex prompt starts with the fixed instructions and ends with `Description: "` + description + `"`. |
| `GeminiService.RegexPromptDescription` | internal/services/gemini_service.go:31-38 | The description sits verbatim between the label and the closing quote. |
| `GeminiService.RegexPromptInjective` | internal/services/gemini_service.go:31-38 | Different descriptions give different regex prompts. |
| `GeminiService.SqlPromptShape` | internal/services/gemini_service.go:44-50 | The SQL prompt starts with the fixed instructions and ends with `Schema:\n` + schema + `\n\nUser Request: "` + description + `"`. |
| `GeminiService.SqlPromptAmbiguous` | internal/services/gemini_service.go:44-50 | The schema is not delimited, so two different schema/description pairs can give the same SQL prompt. |
| `GeminiService.AttemptsFrom` | internal/services/gemini_service.go:70-83 | Counting from an attempt index before the limit, the loop makes more attempts than that index and at most three. |
| `GeminiService.Attempts` | internal/services/gemini_service.go:68-70 | The loop makes between one and three attempts, whatever the outcomes. |
| `GeminiService.RetriesOnlyOnFailure` | internal/services/gemini_service.go:75-82 | Every attempt before the last one made was a transport error or a 503. If fewer than three were made, the last was neither. |
| `GeminiService.StopsAtFirstDecisive` | internal/services/gemini_service.go:75-82 | The loop stops right after the first attempt that is neither a transport error nor a 503. |
| `GeminiService.ThreeAttemptsWhenAllFail` | internal/services/gemini_service.go:68-80 | If the first three outcomes are all transport errors or 503s, exactly three attempts are made and each is followed by a sleep. |
| `GeminiService.BackoffAt` | internal/services/gemini_service.go:69-79 | The k-th sleep is 2^k seconds, and each sleep is twice the one before. |
| `GeminiService.BackoffTotal` | internal/services/gemini_service.go:69-79 | n sleeps add up to 2^n - 1 seconds. |
| `GeminiService.SleepBound` | internal/services/gemini_service.go:75-80 | The number of sleeps equals the number of attempts made that were a transport error or a 503, the last attempt included. There are at most three, and they total 2^n - 1 seconds, at most 7. |
| `GeminiService.NoResponseIff` | internal/services/gemini_service.go:74-84 | The "API did not respond" error occurs iff the last attempt made was a transport error. In that case all three attempts were made. |
| `GeminiService.Message` | internal/services/gemini_service.go:72-99 | Each of the six error texts (`fmt.Errorf` at lines 72, 84, 88, 91, 94 and 99) has characters 0, 4 and 6 fixed by its kind, whatever the cause, count, status or body inside it. |
| `GeminiService.MessageTellsKind` | internal/services/gemini_service.go:72-99 | Two errors with the same text are of the same kind: no-response, API-error, no-content and the three wrapped errors can be told apart by their text alone, which is all a 500 reply passes on. |
| `GeminiService.NoResponseMessage` | internal/services/gemini_service.go:84 | That error reads "API did not respond after 3 retries". |
| `GeminiService.ApiErrorIff` | internal/services/gemini_service.go:75-88 | An API error occurs iff the last response has a status other than 200, and the error carries that status. For any such status but 503 the error also carries the response body's text; a final 503 gives status 503 and an empty body. |
| `GeminiService.SuccessIff` | internal/services/gemini_service.go:86-98 | The call succeeds iff the last attempt got a 200 that was read and decoded and whose first candidate has a part. The text returned is that part's text. |
| `GeminiService.NoContentIff` | internal/services/gemini_service.go:90-99 | "No content found" occurs iff a decoded 200 has no candidates, or its first candidate has no parts. |
| `GeminiService.FirstText` | internal/services/gemini_service.go:96-99 | The result is a text iff there is a first candidate with a first part, and that text is the first part's text. Otherwise the error is "no content". |
| `GeminiService.FirstTextIgnoresLaterCandidates` | internal/services/gemini_service.go:96-97 | Candidates after the first are never consulted. |
| `GeminiService.ThreeUnavailable` | internal/services/gemini_service.go:68-88 | Three 503s in a row give three attempts, sleeps of 1, 2 and 4 seconds, and an API error with status 503. A fourth answer is never asked for. |
| `GeminiService.GenerateContent` | internal/services/gemini_service.go:55-100 | The loop's result equals `ContentResult`. It posts the same payload once per attempt, `Attempts` times in all, and sleeps `Backoffs` of the failed-attempt count. A request-construction error ends the call before any attempt. |
| `GeminiService.GenerateRegex` | internal/services/gemini_service.go:30-40 | Runs `generateContent` on the regex prompt: every request posted carries that prompt. A request-building error posts nothing and sleeps not at all. |
| `GeminiService.GenerateSQL` | internal/services/gemini_service.go:43-52 | Runs `generateContent` on the SQL prompt: every request posted carries that prompt. A request-building error posts nothing and sleeps not at all. |
| `Strings.TrimSpace` | internal/handlers/api_handlers.go:93 | The result is a slice of the input. Only white space was removed on either side, and the result neither starts nor ends with white space. |
| `Strings.TrimSpaceIdempotent` | internal/handlers/api_handlers.go:93 | Trimming an already trimmed text changes nothing, so the regex and explanation a reply carries are fixed points of trimming. |
| `Strings.SplitOnce` | internal/handlers/api_handlers.go:87 | One piece iff the separator does not occur, and then the piece is the input. Two pieces iff it occurs, and then they join back to the input around the leftmost occurrence. |
| `Strings.DecimalRoundTrip` | internal/services/gemini_service.go:84-88 | The `%d` rendering of a status code reads back as that number. |
| `Handlers.ErrorReply` | internal/handlers/api_handlers.go:31-33 | Every error response is a JSON object whose single key is `"error"`, holding the message. |
| `Handlers.SplitRegexAnswer` | internal/handlers/api_handlers.go:87-93 | With a separator, the regex is the trimmed text before the first `"\|\|\|"` and the explanation is the trimmed text after it. Without one, the regex is the whole answer, untrimmed, and the explanation is the fixed notice. |
| `Handlers.RegexAnswerReassembles` | internal/handlers/api_handlers.go:87-93 | The answer is the regex and the explanation, each padded only with white space, joined by the first separator. The regex contains no separator, so any later one stays in the explanation. |
| `Handlers.RegexExampleSplit` | internal/handlers/api_handlers.go:87-93 | `"^[0-9]+$\|\|\|digits only"` splits into `"^[0-9]+$"` and `"digits only"`. |
| `Handlers.RegexWithoutSeparator` | internal/handlers/api_handlers.go:88-90 | An answer without a separator gives 200 with the whole answer as the regex and the fixed explanation. |
| `Handlers.HandleGenerateRegex` | internal/handlers/api_handlers.go:74-94 | 400 "Invalid request body" iff decoding failed or the description is empty. 500 with the service's message iff the service then failed. Otherwise 200 with exactly the keys `regex` and `explanation`. Error envelopes appear exactly on non-200 replies. |
| `Handlers.HandleConvertConfig` | internal/handlers/api_handlers.go:97-111 | Only 200 or 400 are given, never 500. Empty input is rejected with 400, and a conversion failure gives 400 with the converter's message. 200 carries exactly `output`. |
| `Handlers.HandleGenerateSQL` | internal/handlers/api_handlers.go:114-128 | 400 iff decoding failed or the description is empty; an empty schema is accepted. A service error gives 500 with its message. Otherwise 200 with exactly the key `query`, holding the answer trimmed only of surrounding white space. |
| `Handlers.RejectionIgnoresService` | internal/handlers/api_handlers.go:74-81 | A rejected regex or SQL request gives the same reply whatever the service would have returned. |
| `Handlers.MockUrlShape` | internal/handlers/api_handlers.go:51-53 | The URL is scheme + `"://"` + host + `"/mock/"` + id. It starts with `https://` exactly for a TLS request. |
| `Handlers.ApiHandlers.constructor` | internal/handlers/api_handlers.go:18-23 | The handlers work on the store they are given. |
| `Handlers.ApiHandlers.HandleCreateMock` | internal/handlers/api_handlers.go:36-56 | An undecodable body gives 400 "Invalid JSON body" and a random-source failure gives 500 "Failed to create mock"; in both cases the store is unchanged. Otherwise the body is stored under the new id and the reply is 201 with exactly `url` and `id`. |
| `Handlers.ApiHandlers.HandleGetMock` | internal/handlers/api_handlers.go:58-71 | 404 with `{"error": "Mock not found"}` iff the id is absent. Otherwise 200 with the stored body verbatim. |
| `Handlers.CreateThenFetch` | internal/handlers/api_handlers.go:36-71 | Fetching the id returned by create-mock gives 200 with the stored body. |

## Left out

- The config converter (internal/services/converter_service.go) and the body of `HandleFormatJSON`: all of their work is done by the JSON, YAML and TOML libraries. The convert handler takes the converter's result as a parameter.
- JSON decoding of request bodies, `json.Marshal` of the create-mock body, and `json.Unmarshal` of the AI response are given as inputs: a decoded value, or `None` for a decode failure.
- The Content-Type header and the trailing newline that `json.Encoder` writes are not modelled. A reply carries its status and its map or text.
- `sync.RWMutex` in the store: the store is modelled sequentially.
- `crypto/rand`, `http.Client.Do` and `io.ReadAll` are replaced by parameters: the random bytes, the attempt outcomes, and the body text read. `time.Sleep` is replaced by the returned list `sleeps`.
- `log.Printf` in the retry loop is not modelled: it writes only to the server log.
- GeminiService.GenerateContent: requires at least three outcomes, because the client answers every attempt it is asked; outcomes past the last attempt are never read.
- GeminiService.GenerateContent: does not model the case where `Do` returns both a response and an error (a failed redirect policy). Every transport error is modelled as leaving no response.
- The "error creating request body" path is not modelled: `json.Marshal` cannot fail on this payload of strings, an integer and a finite float.
- The request URL, the API key in its query string, and the temperature 0.2 (a float32) are not carried in the payload model.
- Strings are modelled as sequences of Unicode code points. Go's byte strings and invalid UTF-8 are not modelled. `IsSpace` is the White_Space table that Go's `unicode.IsSpace` uses.
- Router wiring, environment loading and the listener (cmd/server/main.go), and the browser script (web/script.js), are not part of this model.

# usai-api client core, modelled in Dafny

This project models the core of the TypeScript client for the USAi chat
API. It covers three parts:

- **The request engine** (`HTTPClient`). This covers the configuration
  defaults, one physical attempt, the mapping of a non-2xx response to a
  typed error, the `catch` block that decides whether to sleep, retry or
  throw, the bounded retry loop, and the rate-limit header reader.
- **The error taxonomy** (`errors.ts`). It is one tagged datatype with a
  view of the fields every class carries.
- **The public client** (`USAiAPI`). This covers the constructor checks,
  the streaming guard of `createChatCompletion`, `createChatCompletionStream`,
  the Server-Sent-Events line decoder behind `processStreamResponse` (with
  its reader lifecycle), the content filter of `completeStream`, and the
  MIME lookups by file extension.

The project is split into these modules:

| module | file | contents |
|---|---|---|
| `Wrappers` | `wrappers.dfy` | `Option`, `Result` |
| `Text` | `text.dfy` | JavaScript's `split`, `trim` and ASCII `toLowerCase` on `seq<char>`, with their laws |
| `Errors` | `errors.dfy` | the error classes |
| `HttpClient` | `http_client.dfy` | the engine: the error handler as written and corrected, `Exchange`, `Decide`, the functional loop `Run`, the loop method `Request`, the response headers and `GetRateLimitInfo` |
| `RetryProperties` | `retry_properties.dfy` | where the loop stops, how many attempts it makes, which sleeps it requests, which error surfaces |
| `StreamDecoder` | `stream_decoder.dfy` | the line decoder and the generator method `ProcessStream` |
| `StreamProperties` | `stream_properties.dfy` | chunk-boundary independence, the `[DONE]` cut-off, a reference definition of the frames |
| `Client` | `client.dfy` | constructor, chat-completion entry points, `completeStream`, MIME lookups |

Everything outside the process becomes a parameter:

- **The network** is a script `net: nat -> Attempt<T>`. `net(i)` is what
  physical attempt `i` produces: a response, or a thrown error such as the
  `AbortError` raised when the per-attempt timer fires.
- **Sleeps** are recorded in order, not performed.
- **`JSON.parse` and `parseInt`** are oracle functions. A parse failure is
  `None`.
- **A response body** is the sequence of text chunks its reader delivers,
  and, when the stream breaks, the error that the next `reader.read()`
  rejects with. The `TextDecoder` step is the identity.

The error handler is a parameter too, `Handler = AsWritten | Corrected`.
`handleErrorResponse` destructures `errorData.error` without checking that
the parsed body has an `error` member (see "## Findings").

- `AsWritten` is the code. For such a body it throws a `TypeError`, and the
  loop retries that like any other failure, even for a 401.
- `Corrected` falls back to `HTTP <status>: <statusText>`, as the code
  already does for an unparsable body, and throws the class the status
  selects.

`Exchange`, `TurnAt`, `Run`, `Request` and the client's entry points take
the handler as an argument, and every general property of the loop is
proved for both. The lemmas about 401/403/404 and 429 state which bodies
they cover under `AsWritten`. `MissingErrorMemberRetriedAsWritten` gives the
loop's behaviour for the remaining bodies.

Apart from that handler, where the code differs from the behaviour the library describes for itself, the model follows the code:

- No code path constructs a connection error. A network failure from
  `fetch` is a `TypeError`, so the engine retries it at once. It gets none
  of the exponential backoff that the comment at
  `src/http-client.ts:86` promises for connection errors. `Decide` keeps the
  connection-error branch, and `ClassificationByStatus` shows that no
  response ever produces one.
- A zero `maxRetries` or `retryDelay` is replaced by its default, because
  the code writes `|| 3` and `|| 1000`.
- A negative `maxRetries` makes no attempt at all and throws `undefined`
  (`Raised.Undefined`).
- A 2xx body that does not parse throws a `SyntaxError` in non-streaming
  mode. The engine retries it like any other failure.
- An error body whose `error` member lacks a message yields the message
  `""`.

## Model

| member | source | states |
|---|---|---|
| Errors.NewApiError | src/errors.ts:11-24 | the base error keeps message, code, param and status and defaults its type to `api_error` |
| Errors.Fields | src/errors.ts:5-70 | every class keeps its message; only the base class carries code and param; only rate-limit errors carry a retry-after; connection and timeout errors carry no status; the name is the base name exactly for the base class |
| Errors.ClassNamesDistinct | src/errors.ts:19-68 | the seven class names are pairwise distinct |
| Errors.FieldsRoundTrip | src/errors.ts:5-70 | an error can be rebuilt from its observable fields |
| Errors.FieldsInjective | src/errors.ts:5-70 | two errors with the same observable fields are the same error |
| Errors.SpecialisedTypesAndStatuses | src/errors.ts:11-70 | every class's `name` is its class name, and each subclass fixes its type string and, for 429/401/403/404, its status code |
| HttpClient.Configure | src/http-client.ts:18-25 | caller fields override the defaults 30000 / 3 / 1000, and omitted fields take them |
| HttpClient.HandleErrorResponse | src/http-client.ts:117-147 | the corrected handler: the error it throws reports the response's status and the message taken from the body, or `HTTP <status>: <statusText>` when the body is unparsable or has no `error` member |
| HttpClient.HandlerThrows | src/http-client.ts:117-147 | the chosen handler throws the typed error the status selects, except that the handler as written throws a TypeError exactly when the body parses without an `error` member |
| HttpClient.ErrorReportsStatusAndMessage | src/http-client.ts:117-147 | for either handler, a typed error reports the response's status and the body's message; the corrected handler always throws one; the handler as written throws a status-less TypeError exactly for a body that parses without `error` |
| HttpClient.HandleErrorResponseAsWritten | src/http-client.ts:119-132 | as written, the handler throws a TypeError exactly when the body parses without an `error` member, and otherwise agrees with the corrected handler |
| HttpClient.Exchange | src/http-client.ts:52-73 | an attempt returns exactly on a 2xx (with a parsable body unless streaming), returning the raw response when streaming and the parsed body otherwise; a non-2xx throws what the chosen handler throws, and a thrown error passes through |
| HttpClient.Decide | src/http-client.ts:74-107 | only a rate-limit or connection error before the last attempt sleeps: `Retry-After`×1000 ms when that is non-zero, else `delay·2^attempt`, and `delay·2^attempt` for a connection error; the last attempt always throws; 401/403/404 are thrown at once; an abort becomes the timeout error; every other error away from the last attempt is retried at once |
| HttpClient.AbortNamedOnlyByRuntime | src/http-client.ts:101 | an error is named `AbortError` exactly when it is a built-in error of that name, since no class of the client is so named |
| HttpClient.TurnAt | src/http-client.ts:52-108 | one pass through the loop body requests at most one sleep, and on the last attempt of the budget it always ends the request |
| HttpClient.Run | src/http-client.ts:51-111 | the loop from a given attempt as a function: ends, or sleeps as decided and goes on with the caught error as the last error; its contract is stated by `RunBounds` and `RetryProperties.RunEndsAtFirstStop` |
| HttpClient.RunBounds | src/http-client.ts:51-111 | the loop makes between 1 and budget+1 attempts, or none (throwing the last error) past the budget, and sleeps only between attempts |
| HttpClient.Request | src/http-client.ts:30-112 | the loop method computes the functional loop's trace, makes no attempt exactly when the budget is negative, and makes at most budget+1 attempts |
| HttpClient.HeaderValues | src/http-client.ts:153-155 | the values of the headers answering to a name, case-insensitively, are at most as many as the headers |
| HttpClient.CombineValues | src/http-client.ts:153-155 | several values of one header combine to the empty string only when there is one, empty, value |
| HttpClient.GetRateLimitInfo | src/http-client.ts:152-166 | there is no info unless all three `X-RateLimit-*` headers were received, and there is info whenever each was received with a non-empty value |
| HttpClient.SentValuesTruthy | src/http-client.ts:153-157 | `headers.get` gives a true value only for a received header, and always for one received with a non-empty value |
| HttpClient.HeaderValuesOrigin | src/http-client.ts:153-155 | a value is read for a name exactly when some header answering to that name carries it |
| HttpClient.HeaderValuesAppend | src/http-client.ts:153-155 | header values keep the order in which the headers were received |
| HttpClient.InsertedHeaderIgnored | src/http-client.ts:153-155 | a header that does not answer to a name adds nothing to its values |
| HttpClient.OtherHeadersIgnored | src/http-client.ts:152-166 | the info depends only on the three `X-RateLimit-*` headers: inserting any other header anywhere changes nothing |
| HttpClient.OneOfEachHeader | src/http-client.ts:152-166 | with each of the three headers received once, the info is their `parseInt` values when all three are non-empty, and absent otherwise |
| RetryProperties.EffectiveRetrySettings | src/http-client.ts:51-79 | the loop's budget and delay are the caller's values, or 3 and 1000 when omitted or zero, and never zero |
| RetryProperties.ClassificationByStatus | src/http-client.ts:134-146 | the error class is decided by the status alone, in both directions; rate-limit errors carry `Retry-After`, generic errors carry the body's type (default `api_error`), code and param; no response yields a connection or timeout error |
| RetryProperties.UnparsableBodyFallback | src/http-client.ts:120-130 | an unparsable error body yields the message `HTTP <status>: <statusText>` and type `api_error` |
| RetryProperties.LastAttemptStops | src/http-client.ts:105-107 | on the last attempt of the budget the loop never goes on |
| RetryProperties.RunEndsAtFirstStop | src/http-client.ts:51-111 | the loop runs to the first attempt that does not go on, making exactly that many attempts and the sleeps decided on the way, and ends as that attempt ends |
| RetryProperties.FirstStopIsFirst | src/http-client.ts:51-108 | every budget has a first attempt that does not go on, within the budget |
| RetryProperties.FinalAttemptDecides | src/http-client.ts:51-111 | with a non-negative budget every request ends as its last attempt ends, so the fallback `throw lastError!` is never reached |
| RetryProperties.NegativeBudgetThrowsUndefined | src/http-client.ts:51-111 | a negative budget makes no attempt and throws `undefined` |
| RetryProperties.ReturnedReplyFollowsMode | src/http-client.ts:65-70 | a request that returns, returns its last attempt's raw 2xx response when streaming and its parsed 2xx body otherwise |
| RetryProperties.SuccessEndsTheLoop | src/http-client.ts:65-70 | the first 2xx ends the loop with its reply |
| RetryProperties.StructuralErrorNotRetried | src/http-client.ts:92-99 | a 401, 403 or 404 whose handler throws the typed error (always with the corrected handler) is thrown on its first occurrence |
| RetryProperties.AbortBecomesTimeout | src/http-client.ts:101-103 | an abort ends the loop with the timeout error `Request timed out` |
| RetryProperties.UnauthorizedMakesOneAttempt | src/http-client.ts:134-136 | a first answer of 401 whose handler throws the authentication error is the only attempt, with no sleep |
| RetryProperties.WaitAfterAmount | src/http-client.ts:77-90 | for every script, the sleep an attempt requests is `Retry-After`×1000 for a rate-limit error with a non-zero `Retry-After`, `delay·2^i` for other rate-limit errors and for connection errors, before the last attempt only, and none otherwise |
| RetryProperties.WaitsOfEveryAttempt | src/http-client.ts:77-90 | the sleeps of a run are those its attempts request, in order |
| RetryProperties.RateLimitedUntilExhausted | src/http-client.ts:77-83 | repeated 429s with a non-zero `Retry-After`, whose handler throws the rate-limit error, make budget+1 attempts with `Retry-After`×1000 ms between them, and then surface the rate-limit error |
| RetryProperties.RateLimitBacksOff | src/http-client.ts:77-83 | repeated 429s without a usable `Retry-After`, whose handler throws the rate-limit error, sleep `delay·2^i` before attempt i+1 |
| RetryProperties.OtherFailuresRetriedWithoutWaiting | src/http-client.ts:74-108 | any other repeated failure is retried at once until the budget is spent, and the last one is thrown |
| RetryProperties.NoWaitsBetween | src/http-client.ts:74-108 | attempts that request no sleep add none |
| RetryProperties.MissingErrorMemberRetriedAsWritten | src/http-client.ts:51-132 | as written, a server that keeps answering an error status (401 included) with a body that parses without `error` gets budget+1 attempts and no sleep, and the caller gets a TypeError |
| RetryProperties.StructuralStatusNeverRetried | src/http-client.ts:92-136 | with the corrected handler, a server answering 401/403/404 is asked once whatever the body, and the caller gets the typed error, with the status-line message when `error` is missing |
| StreamDecoder.ClassifyLine | src/client.ts:213-232 | the meaning of one complete line after trimming; its contract is stated by `StreamProperties.LineClassification` |
| StreamDecoder.ProcessLines | src/client.ts:213-233 | the inner loop over complete lines, returning at `[DONE]`; its contract is stated by `StreamProperties.ProcessLinesIsFramesBeforeDone` |
| StreamDecoder.FeedChunk | src/client.ts:207-211 | after a chunk the buffer holds no line break: every complete line has been handed on |
| StreamDecoder.Decode | src/client.ts:197-234 | the whole read loop from an empty buffer; its contract is stated by `StreamProperties.DecodeIsDecodeText` and `StreamProperties.DecodeMatchesReference` |
| StreamDecoder.ProcessStream | src/client.ts:188-238 | a consumer that wants no frame never touches the body; otherwise a missing body is an error; the consumer receives the decoded frames cut to its limit; the generator ends with the error of a failed read exactly when that read is reached, that is, before any `[DONE]` line and while the consumer still wants frames; the reader is taken first and released last on every way out, with only reads between; reading to the end costs one read per chunk plus the final one |
| StreamDecoder.HandleLines | src/client.ts:213-233 | the inner loop extends the frames so far with the frames of the lines up to `[DONE]` or the consumer's limit |
| StreamProperties.ProcessLinesIsFramesBeforeDone | src/client.ts:213-233 | the line loop yields exactly the frames of the lines before the first `[DONE]` and reports `[DONE]` exactly when there is one |
| StreamProperties.FirstDone | src/client.ts:220-222 | the index found is a `[DONE]` line and no earlier line is one |
| StreamProperties.FramesOfAppend | src/client.ts:213-233 | frames keep line order |
| StreamProperties.FrameOrigin | src/client.ts:224-231 | a frame is produced exactly when some line is a data line whose payload parses to it |
| StreamProperties.LineClassification | src/client.ts:213-232 | a line is blank exactly when it trims to nothing, `[DONE]` exactly when it trims to `data: [DONE]`, a data line exactly when its trimmed form is otherwise `data: `-prefixed, and a data line is a frame exactly when its payload parses |
| StreamProperties.SurroundingWhitespaceIgnored | src/client.ts:214 | a line means what its trimmed form means |
| StreamProperties.DataLineClassification | src/client.ts:224-231 | `data: <payload>` yields the parsed payload, or is skipped when it does not parse |
| StreamProperties.ProcessLinesAppend | src/client.ts:213-233 | two runs of lines: the second is reached only when the first holds no `[DONE]` |
| StreamProperties.SkippedLineChangesNothing | src/client.ts:216-232 | removing a blank, unparsable or unknown line changes nothing |
| StreamProperties.DecodeFromIsDecodeText | src/client.ts:200-234 | decoding chunks from a buffer is decoding the buffer and the chunks as one text |
| StreamProperties.DecodeIsDecodeText | src/client.ts:200-234 | decoding chunks is decoding their concatenation |
| StreamProperties.ChunkBoundaryIndependence | src/client.ts:207-211 | the same text cut into chunks differently decodes to the same frames and ending |
| StreamProperties.SameAsOneChunk | src/client.ts:207-211 | any chunking decodes as the single concatenated chunk |
| StreamProperties.DecodeMatchesReference | src/client.ts:188-238 | the decoded frames are those of the complete lines before the first `[DONE]`, and the stream ends on `[DONE]` exactly when a complete line is `[DONE]` |
| StreamProperties.DoneCutsOff | src/client.ts:220-222 | once `[DONE]` is seen, nothing arriving afterwards changes the result |
| StreamProperties.TrailingFragmentNeverYielded | src/client.ts:203-211 | an unterminated last line is never yielded |
| Client.NewClient | src/client.ts:20-29 | an empty API key is refused first, then an empty base URL; otherwise the client is built with a non-zero budget and delay |
| Client.CreateChatCompletion | src/client.ts:41-50 | a streaming request is refused with no attempt; otherwise the caller gets the parsed 2xx body that ended the engine's attempts, or the engine's error, for either handler |
| Client.CreateChatCompletionStream | src/client.ts:55-67 | the request is sent with `stream: true`; the caller gets the last attempt's raw 2xx response, or the engine's error, for either handler |
| Client.DeltaContent | src/client.ts:178 | `choices[0]?.delta?.content` is present exactly when the frame has a first choice with a delta that has content, and is then that content |
| Client.DeltaTexts | src/client.ts:177-182 | the content stream yields at most one non-empty text per frame |
| Client.DeltaTextsAppend | src/client.ts:177-182 | the content stream keeps frame order |
| Client.DeltaTextsOrigin | src/client.ts:177-182 | a text is yielded exactly when it is the non-empty first-choice delta content of some frame |
| Client.CompleteStream | src/client.ts:134-183 | read to the end, the content stream gives the request's error, or the missing-body error; otherwise it yields the non-empty delta contents of the decoded frames and then ends, with the error of a failed read when one comes before the `[DONE]` line; for either handler |
| Client.CompletedTextsIgnoreChunking | src/client.ts:177-182 | the texts do not depend on how the body was cut into chunks |
| Client.Extension | src/client.ts:285 | the extension holds no dot |
| Client.ExtensionAfterLastDot | src/client.ts:285 | the extension of `stem.ext` is `ext` lower-cased, whatever the stem |
| Client.ExtensionWithoutDot | src/client.ts:285 | a path with no dot is its own extension, lower-cased |
| Client.DetectImageMimeType | src/client.ts:284-299 | the image lookup always gives one of the table's types, and a type other than JPEG only for an extension in the table |
| Client.DetectFileMimeType | src/client.ts:304-322 | the document lookup gives a table type or `application/octet-stream`, the latter exactly for an extension not in the table |
| Client.ImageMimeTypeFollowsTable | src/client.ts:284-299 | the image lookup agrees with the extension table, with JPEG as the fallback, and always gives one of the table's types |
| Client.FileMimeTypeFollowsTable | src/client.ts:304-322 | the document lookup agrees with the extension table, with `application/octet-stream` as the fallback |
| Client.MimeTypeByExtensionOnly | src/client.ts:284-322 | both lookups give the same type for `stem.ext` as for `ext` alone: nothing before the last dot matters |
| Client.MimeTypeIgnoresCase | src/client.ts:284-322 | both lookups give the same type for a path and its lower-cased form |
| Text.LowerIdempotent | src/client.ts:285 | lower-casing yields an all-lower-case string, so lower-casing twice equals lower-casing once |

## Left out

- `fetch`, `AbortController` and `setTimeout`. Each attempt is a scripted `Attempt`. The `timeout` setting is only carried, because the timer's only effect is the `AbortError` the script can produce.
- `sleep`. Sleeps are recorded in `Trace.sleeps` and never performed.
- `JSON.parse`, `response.json()`, `parseInt` and `TextDecoder`. They are oracles or the identity, because their algorithms are not part of this client.
- `console.warn` on an unparsable stream line. It is output only, and the line is skipped.
- Request URL, headers and body serialisation. These are string assembly that the retry behaviour does not depend on.
- `getModels`, `createEmbedding`, `complete`, `analyzeDocument` and `analyzeImage`. They are request assembly over the same engine.
- `encodeImageAsDataUri`, `encodePdfAsDataUri` and `encodeFileAsDataUri`. They read files and base64-encode them; only the MIME lookups they call are modelled.
- `src/types.ts`, `src/index.ts` and the examples. These are type declarations and re-exports with no behaviour of their own.
- Lower-casing covers only the ASCII letters. Non-ASCII case mappings of `toLowerCase` are not modelled, because no extension in the tables contains them.
- `Retry-After` that does not parse (`NaN`) is read as absent. Both are falsy where the loop chooses its sleep, so the sleeps are the same. They differ in one place: a rate-limit error that surfaces after the retries run out carries `retryAfter: NaN` in the source and `None` in the model.
- Configuration fields given explicitly as `undefined` are not modelled. They would override the defaults in the spread.
- Non-integer or non-finite `maxRetries` and `retryDelay` are not modelled; the settings are integers.
- Client.CompleteStream: only a consumer that reads to the end is modelled. A consumer that stops early is modelled for `processStreamResponse` alone, by `ProcessStream`'s limit.
- Client.DeltaContent: a frame whose `choices` member is missing or `null` makes `chunk.choices[0]` throw in the source. A `choices` value that is some other non-array is indexed like an object and usually gives `undefined`. The model assumes every frame has a `choices` array.
- Client.CreateChatCompletionStream: the `stream: true` flag is not connected to the network script, which does not look at the request.
- Concurrency between the consumer and the reader is not modelled. Reads happen in order.
- RetryProperties.StructuralErrorNotRetried: under the handler as written, it covers only bodies that are unparsable or carry an `error` member. For a body that parses without `error`, the code throws a TypeError and retries; `RetryProperties.MissingErrorMemberRetriedAsWritten` states that case.
- RetryProperties.UnauthorizedMakesOneAttempt: under the handler as written, it covers only bodies that are unparsable or carry an `error` member. A 401 with a body such as `{}` makes budget+1 attempts and throws a TypeError; `RetryProperties.MissingErrorMemberRetriedAsWritten` states that case.
- RetryProperties.RateLimitedUntilExhausted: under the handler as written, it covers only bodies that are unparsable or carry an `error` member. For a 429 whose body parses without `error`, the code never sleeps and throws a TypeError; `RetryProperties.MissingErrorMemberRetriedAsWritten` states that case.
- RetryProperties.RateLimitBacksOff: under the handler as written, it covers only bodies that are unparsable or carry an `error` member. A 429 whose body parses without `error` is retried at once without backoff; `RetryProperties.MissingErrorMemberRetriedAsWritten` states that case.
- HttpClient.GetRateLimitInfo: header values are taken as the `Headers` object holds them, already stripped of leading and trailing HTTP whitespace (tab, line feed, carriage return, space). The stripping itself is not modelled. A value of only whitespace is therefore the empty value here, and a whitespace-only `X-RateLimit-*` header gives no info, as in the source. A header list holding an unstripped value such as `" "` is outside what `Headers` can hold.
- `Retry-After` is carried on the response already parsed, as `handleErrorResponse` reads it (`parseInt` of the header, absent when the header is absent or empty). It is not looked up in the header list.

## Findings

| source | as written | input that shows it | evidently intended | confidence | as-written member | corrected member |
|---|---|---|---|---|---|---|
| src/http-client.ts:119-132 | `const { message, type, code, param } = errorData.error;` runs after a successful `response.json()` without checking that `error` exists | a 401 whose body is `{}` (or `null`): destructuring throws a TypeError, so the caller never sees an authentication error, and the loop retries the request at once | fall back to `HTTP <status>: <statusText>` as for an unparsable body, and throw the class the status selects (401 is never retried) | not executed | RetryProperties.MissingErrorMemberRetriedAsWritten | RetryProperties.StructuralStatusNeverRetried |

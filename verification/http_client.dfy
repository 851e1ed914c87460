/**
 * The request engine: configuration defaults, one physical HTTP attempt,
 * the error-response classifier, the retry decision taken in the `catch`
 * block, and the bounded attempt loop.
 *
 * The network is a script: `net(i)` is what the i-th physical attempt
 * produces (a response, or a thrown error such as the `AbortError` raised
 * when the per-attempt timer fires).  Sleeps are recorded, not performed.
 */
module HttpClient {
  import opened Wrappers
  import opened Text
  import opened Errors
  import StreamDecoder

  const DefaultTimeout := 30000
  const DefaultMaxRetries := 3
  const DefaultRetryDelay := 1000

  // ---------------------------------------------------------------------------
  // Configuration
  // ---------------------------------------------------------------------------

  /** What a caller passes to the client; `None` is an omitted optional field. */
  datatype ClientConfig = ClientConfig(
    apiKey: string,
    baseUrl: string,
    timeout: Option<int>,
    maxRetries: Option<int>,
    retryDelay: Option<int>)

  /** The configuration object the HTTP client keeps after merging in the defaults. */
  datatype Settings = Settings(
    apiKey: string,
    baseUrl: string,
    timeout: int,
    maxRetries: int,
    retryDelay: int)

  /** The HTTP client's constructor: defaults first, then the caller's fields on top. */
  function Configure(c: ClientConfig): (s: Settings)
    ensures s.apiKey == c.apiKey && s.baseUrl == c.baseUrl
    ensures s.timeout == (if c.timeout.Some? then c.timeout.value else 30000)
    ensures s.maxRetries == (if c.maxRetries.Some? then c.maxRetries.value else 3)
    ensures s.retryDelay == (if c.retryDelay.Some? then c.retryDelay.value else 1000)
  {
    Settings(c.apiKey, c.baseUrl,
             c.timeout.GetOr(DefaultTimeout),
             c.maxRetries.GetOr(DefaultMaxRetries),
             c.retryDelay.GetOr(DefaultRetryDelay))
  }

  /** `this.config.maxRetries || 3`: a zero budget is read as the default. */
  function RetryBudget(s: Settings): int {
    if s.maxRetries == 0 then DefaultMaxRetries else s.maxRetries
  }

  /** `this.config.retryDelay || 1000`: a zero delay is read as the default. */
  function BaseDelay(s: Settings): int {
    if s.retryDelay == 0 then DefaultRetryDelay else s.retryDelay
  }

  function Pow2(n: nat): (p: nat)
    ensures p >= 1
  {
    if n == 0 then 1 else 2 * Pow2(n - 1)
  }

  /** Exponential backoff before attempt `attempt + 1`: `delay * 2^attempt`. */
  function Backoff(delay: int, attempt: nat): int {
    delay * Pow2(attempt)
  }

  // ---------------------------------------------------------------------------
  // Responses and attempts
  // ---------------------------------------------------------------------------

  /** The `error` member of a parsed body, as the error handler destructures it. */
  datatype ErrorMember =
    | Missing
    | ErrorObject(message: Option<string>, errorType: Option<string>,
                  code: Option<string>, param: Option<string>)

  /**
   * What `response.json()` produces: a parse failure with its reason, or the
   * parsed value, seen both as the caller's success type and through its
   * `error` member.
   */
  datatype JsonBody<T> = Unparsable(reason: string) | Parsed(value: T, error: ErrorMember)

  /**
   * A response: status line, the JSON reading of the body, the `Retry-After`
   * header after `parseInt` (`None` when the header is absent, empty or not
   * a number), and the body as its reader delivers it: decoded text chunks,
   * possibly ending in a failed read (`None` when the response has no body).
   */
  datatype Response<T> = Response(
    status: nat,
    statusText: string,
    json: JsonBody<T>,
    retryAfter: Option<int>,
    body: Option<StreamDecoder.Body>)
  {
    /** `response.ok`. */
    predicate Ok() {
      200 <= status <= 299
    }
  }

  /** What one physical attempt yields: a response, or an error thrown by `fetch`. */
  datatype Attempt<T> = Received(response: Response<T>) | Thrown(name: string, message: string)

  /** A successful request's value: the unread response when streaming, else the parsed body. */
  datatype Reply<T> = Raw(response: Response<T>) | Json(value: T)

  // ---------------------------------------------------------------------------
  // Error responses
  // ---------------------------------------------------------------------------

  /** The message, type, code and param the handler takes from an error body. */
  datatype ErrorDetails = ErrorDetails(message: string, errorType: Option<string>,
                                       code: Option<string>, param: Option<string>)

  /** The details synthesised when the body cannot be used: `HTTP <status>: <statusText>`. */
  function FallbackDetails<T>(r: Response<T>): ErrorDetails {
    ErrorDetails("HTTP " + NatToString(r.status) + ": " + r.statusText, Some(DefaultType), None, None)
  }

  /**
   * The details of an error response.  A body with an `error` member
   * supplies them (a missing message reads as the empty string, as
   * `Error(undefined)` does); any other body falls back to the status line.
   */
  function ErrorDetailsOf<T>(r: Response<T>): ErrorDetails {
    match r.json
    case Parsed(_, ErrorObject(m, t, c, p)) => ErrorDetails(m.GetOr(""), t, c, p)
    case _ => FallbackDetails(r)
  }

  /**
   * `handleErrorResponse`, corrected: maps a non-2xx response to the error
   * it throws, its class chosen by the status code alone.  Unlike the code
   * as written (`HandleErrorResponseAsWritten`), a body that parses without
   * an `error` member falls back to the status line, as an unparsable body
   * does.
   */
  function HandleErrorResponse<T>(r: Response<T>): (e: ApiError)
    ensures Fields(e).statusCode == Some(r.status as int)
    ensures Fields(e).message == ErrorDetailsOf(r).message
  {
    var d := ErrorDetailsOf(r);
    if r.status == 401 then Authentication(d.message)
    else if r.status == 403 then Permission(d.message)
    else if r.status == 404 then NotFound(d.message)
    else if r.status == 429 then RateLimit(d.message, r.retryAfter)
    else NewApiError(d.message, d.errorType, d.code, d.param, Some(r.status))
  }

  /**
   * Whatever the class, a typed error thrown for a response reports the
   * response's status and the body's message.  The corrected handler always
   * throws one; the handler as written throws one unless the body parses
   * without an `error` member, in which case it throws a TypeError that
   * carries no status.
   */
  lemma ErrorReportsStatusAndMessage<T>(h: Handler, r: Response<T>)
    ensures var e := HandlerThrows(h, r);
            && (e.Api? ==> Fields(e.error).statusCode == Some(r.status as int))
            && (e.Api? ==> Fields(e.error).message == ErrorDetailsOf(r).message)
            && (h.Corrected? ==> e.Api?)
            && (!e.Api? <==> h.AsWritten? && r.json.Parsed? && r.json.error.Missing?)
            && (!e.Api? ==> e.Name() == Some("TypeError"))
  {
  }

  /**
   * `handleErrorResponse` exactly as written: destructuring
   * `errorData.error` throws a TypeError when the body parses but has no
   * `error` member, before the status code is looked at.
   */
  function HandleErrorResponseAsWritten<T>(r: Response<T>): (out: Result<ApiError, Raised>)
    ensures out.Failure? <==> r.json.Parsed? && r.json.error.Missing?
    ensures out.Success? ==> out.value == HandleErrorResponse(r)
  {
    match r.json
    case Parsed(_, Missing) =>
      Failure(Native("TypeError", "Cannot destructure property 'message' of 'errorData.error' as it is undefined."))
    case _ => Success(HandleErrorResponse(r))
  }

  /**
   * Which error handler the engine runs on a non-2xx response: the code as
   * written, or the corrected one that falls back to the status line when
   * the body parses without an `error` member.
   */
  datatype Handler = AsWritten | Corrected

  /**
   * What the chosen handler throws for a non-2xx response: the typed error
   * the status selects, except that the handler as written throws a
   * TypeError for a body that parses without an `error` member.
   */
  function HandlerThrows<T>(h: Handler, r: Response<T>): (e: Raised)
    ensures e.Api? <==> h.Corrected? || !(r.json.Parsed? && r.json.error.Missing?)
    ensures e.Api? ==> e.error == HandleErrorResponse(r)
    ensures !e.Api? ==> e.Native? && e.Name() == Some("TypeError")
  {
    match h
    case Corrected => Api(HandleErrorResponse(r))
    case AsWritten =>
      match HandleErrorResponseAsWritten(r)
      case Success(err) => Api(err)
      case Failure(te) => te
  }

  /**
   * The `try` block of one attempt: a 2xx returns (the raw response when
   * streaming, else the parsed body, whose parse failure throws a
   * SyntaxError); anything else ends in the `catch` block with the error
   * thrown.
   */
  function Exchange<T>(a: Attempt<T>, stream: bool, h: Handler): (r: Result<Reply<T>, Raised>)
    ensures r.Success? <==> a.Received? && a.response.Ok() && (stream || a.response.json.Parsed?)
    ensures r.Success? && stream ==> r.value == Raw(a.response)
    ensures r.Success? && !stream ==> r.value == Json(a.response.json.value)
    ensures a.Received? && !a.response.Ok() ==> r == Failure(HandlerThrows(h, a.response))
    ensures a.Thrown? ==> r == Failure(Native(a.name, a.message))
  {
    match a
    case Thrown(name, message) => Failure(Native(name, message))
    case Received(resp) =>
      if resp.Ok() then
        if stream then Success(Raw(resp))
        else
          match resp.json
          case Parsed(v, _) => Success(Json(v))
          case Unparsable(reason) => Failure(Native("SyntaxError", reason))
      else Failure(HandlerThrows(h, resp))
  }

  // ---------------------------------------------------------------------------
  // The catch block
  // ---------------------------------------------------------------------------

  /** What the `catch` block does with an error: sleep and retry, retry at once, or throw. */
  datatype Decision = Wait(ms: int) | RetryNow | Throw(error: Raised)

  /** Errors that are thrown on first occurrence: they would fail again. */
  predicate IsStructural(e: Raised) {
    e.Api? && (e.error.Authentication? || e.error.Permission? || e.error.NotFound?)
  }

  /**
   * `error?.name === 'AbortError'`.  Only a built-in error can carry that
   * name, since no error class of this client is called so
   * (`AbortNamedOnlyByRuntime`).
   */
  predicate IsAbort(e: Raised) {
    e.Native? && e.name == "AbortError"
  }

  lemma AbortNamedOnlyByRuntime(e: Raised)
    ensures e.Name() == Some("AbortError") <==> IsAbort(e)
  {
    if e.Api? {
      assert Fields(e.error).name != "AbortError";
    }
  }

  /** The error that replaces a transport abort. */
  const TimeoutError := Api(Timeout("Request timed out"))

  /**
   * The `catch` block of attempt `attempt` with retry budget `budget`.
   * Only a rate-limit or connection error before the last attempt waits;
   * the rate-limit wait is the server's `Retry-After` (seconds) when that is
   * a non-zero number, otherwise exponential backoff.  On the last attempt
   * every path throws, and what is thrown is the error itself, or the
   * timeout error when the error was an abort.
   */
  function Decide(e: Raised, attempt: nat, budget: int, delay: int): (d: Decision)
    ensures d.Wait? ==> attempt < budget
    ensures attempt == budget ==> d.Throw?
    ensures d.Throw? ==> d.error == e || (IsAbort(e) && d.error == TimeoutError)
    ensures IsStructural(e) ==> d == Throw(e)
    ensures IsAbort(e) ==> d == Throw(TimeoutError)
    ensures d.Wait? ==> e.Api? && (e.error.RateLimit? || e.error.Connection?)
    ensures e.Api? && e.error.RateLimit? && attempt < budget ==>
              d == Wait(if e.error.retryAfter.Some? && e.error.retryAfter.value != 0
                        then e.error.retryAfter.value * 1000 else Backoff(delay, attempt))
    ensures e.Api? && e.error.Connection? && attempt < budget ==> d == Wait(Backoff(delay, attempt))
    ensures d == RetryNow <==> attempt != budget && !IsStructural(e) && !IsAbort(e)
                               && !(attempt < budget && e.Api? && (e.error.RateLimit? || e.error.Connection?))
  {
    if e.Api? && e.error.RateLimit? && attempt < budget then
      var backoff := Backoff(delay, attempt);
      var ra := e.error.retryAfter;
      Wait(if ra.Some? && ra.value != 0 then ra.value * 1000 else backoff)
    else if e.Api? && e.error.Connection? && attempt < budget then
      Wait(Backoff(delay, attempt))
    else if IsStructural(e) then
      Throw(e)
    else if IsAbort(e) then
      Throw(TimeoutError)
    else if attempt == budget then
      Throw(e)
    else
      RetryNow
  }

  // ---------------------------------------------------------------------------
  // The attempt loop
  // ---------------------------------------------------------------------------

  /** How a request ends for its caller. */
  datatype Outcome<T> = Returned(reply: Reply<T>) | Threw(error: Raised)

  /** A request's outcome with the physical attempts it made and the sleeps it requested, in order. */
  datatype Trace<T> = Trace(outcome: Outcome<T>, attempts: nat, sleeps: seq<int>)

  /** What one pass through the loop body leads to: the request ends, or the loop goes on. */
  datatype Turn<T> = Ends(outcome: Outcome<T>) | GoesOn(wait: seq<int>, error: Raised)

  /**
   * One pass through the loop body, the `try` block and then the `catch`
   * block: it ends the request with a reply or a thrown error, or goes on
   * after the sleep `wait` (empty for an immediate retry) with the caught
   * error as the last error.
   */
  function TurnAt<T>(s: Settings, h: Handler, stream: bool, net: nat -> Attempt<T>, attempt: nat): (t: Turn<T>)
    ensures t.GoesOn? ==> |t.wait| <= 1
    ensures attempt == RetryBudget(s) ==> t.Ends?
  {
    match Exchange(net(attempt), stream, h)
    case Success(reply) => Ends(Returned(reply))
    case Failure(e) =>
      match Decide(e, attempt, RetryBudget(s), BaseDelay(s))
      case Throw(x) => Ends(Threw(x))
      case RetryNow => GoesOn([], e)
      case Wait(ms) => GoesOn([ms], e)
  }

  /**
   * The loop from attempt `attempt` on, `lastError` being the error the
   * previous attempt caught.  Past the budget it throws `lastError`, which
   * is `undefined` when no attempt ran.
   */
  function Run<T>(s: Settings, h: Handler, stream: bool, net: nat -> Attempt<T>,
                  attempt: nat, lastError: Option<Raised>): Trace<T>
    decreases if attempt <= RetryBudget(s) then RetryBudget(s) + 1 - attempt else 0
  {
    if attempt > RetryBudget(s) then Trace(Threw(lastError.GetOr(Undefined)), 0, [])
    else
      match TurnAt(s, h, stream, net, attempt)
      case Ends(o) => Trace(o, 1, [])
      case GoesOn(w, e) => Prefixed(1, w, Run(s, h, stream, net, attempt + 1, Some(e)))
  }

  /**
   * The loop's bounds: from an attempt within the budget it makes at least
   * one and at most the remaining attempts, and sleeps only between two of
   * them; past the budget it makes none and throws the last error.
   */
  lemma {:induction false} RunBounds<T>(s: Settings, h: Handler, stream: bool, net: nat -> Attempt<T>,
                                        attempt: nat, lastError: Option<Raised>)
    ensures var t := Run(s, h, stream, net, attempt, lastError);
            && (attempt <= RetryBudget(s) ==> 1 <= t.attempts <= RetryBudget(s) + 1 - attempt)
            && (attempt > RetryBudget(s) ==> t == Trace(Threw(lastError.GetOr(Undefined)), 0, []))
            && (t.attempts == 0 || |t.sleeps| < t.attempts)
    decreases if attempt <= RetryBudget(s) then RetryBudget(s) + 1 - attempt else 0
  {
    if attempt <= RetryBudget(s) {
      var turn := TurnAt(s, h, stream, net, attempt);
      if turn.GoesOn? {
        RunBounds(s, h, stream, net, attempt + 1, Some(turn.error));
      }
    }
  }

  /**
   * `HTTPClient.request`: the attempt loop, returning the outcome, the
   * number of physical attempts and the sleeps requested between them.
   */
  method Request<T>(s: Settings, h: Handler, stream: bool, net: nat -> Attempt<T>)
    returns (outcome: Outcome<T>, attempts: nat, sleeps: seq<int>)
    ensures Trace(outcome, attempts, sleeps) == Run(s, h, stream, net, 0, None)
    ensures attempts <= (if RetryBudget(s) >= 0 then RetryBudget(s) + 1 else 0)
    ensures attempts == 0 <==> RetryBudget(s) < 0
    ensures attempts == 0 || |sleeps| < attempts
  {
    var budget := RetryBudget(s);
    var lastError: Option<Raised> := None;
    attempts := 0;
    sleeps := [];
    var attempt: nat := 0;
    ghost var whole := Run(s, h, stream, net, attempt, lastError);
    while attempt <= budget
      invariant attempts == attempt && |sleeps| <= attempt
      invariant budget >= 0 ==> attempt <= budget
      invariant budget < 0 ==> attempt == 0
      invariant whole == Prefixed(attempts, sleeps, Run(s, h, stream, net, attempt, lastError))
      decreases budget + 1 - attempt
    {
      var turn := TurnAt(s, h, stream, net, attempt);
      if turn.Ends? {
        outcome := turn.outcome;
        assert sleeps + [] == sleeps;
        attempts := attempts + 1;
        return;
      }
      var e := turn.error;
      PrefixedTwice(attempts, sleeps, 1, turn.wait, Run(s, h, stream, net, attempt + 1, Some(e)));
      sleeps := sleeps + turn.wait;
      lastError := Some(e);
      attempts := attempts + 1;
      attempt := attempt + 1;
    }
    assert sleeps + [] == sleeps;
    outcome := Threw(lastError.GetOr(Undefined));
  }

  /** A trace preceded by `n` earlier attempts that requested `sleeps`. */
  function Prefixed<T>(n: nat, sleeps: seq<int>, t: Trace<T>): Trace<T> {
    Trace(t.outcome, n + t.attempts, sleeps + t.sleeps)
  }

  lemma PrefixedTwice<T>(n1: nat, s1: seq<int>, n2: nat, s2: seq<int>, t: Trace<T>)
    ensures Prefixed(n1, s1, Prefixed(n2, s2, t)) == Prefixed(n1 + n2, s1 + s2, t)
  {
    assert s1 + (s2 + t.sleeps) == (s1 + s2) + t.sleeps;
  }

  // ---------------------------------------------------------------------------
  // Rate-limit headers
  // ---------------------------------------------------------------------------

  /**
   * One entry of a response's `Headers`: the name as sent, and the value as
   * `Headers` stores it, with surrounding HTTP whitespace already stripped.
   */
  datatype Header = Header(name: string, value: string)

  const RemainingHeader := "X-RateLimit-Remaining"
  const ResetHeader := "X-RateLimit-Reset"
  const LimitHeader := "X-RateLimit-Limit"

  /** Header `h` answers to `name`: header names compare without regard to ASCII case. */
  predicate Names(h: Header, name: string) {
    Lower(h.name) == Lower(name)
  }

  /** The values of the headers that answer to `name`, in the order received. */
  function HeaderValues(hs: seq<Header>, name: string): (vs: seq<string>)
    ensures |vs| <= |hs|
    decreases |hs|
  {
    if |hs| == 0 then []
    else (if Names(hs[0], name) then [hs[0].value] else []) + HeaderValues(hs[1..], name)
  }

  /** Several values of one header, combined as `Headers.get` does: joined by `", "`. */
  function CombineValues(vs: seq<string>): (v: string)
    requires |vs| > 0
    ensures v == "" <==> vs == [""]
    decreases |vs|
  {
    if |vs| == 1 then vs[0] else vs[0] + ", " + CombineValues(vs[1..])
  }

  /**
   * `response.headers.get(name)`: `null` when no header answers to
   * `name`, otherwise the combination of all their values.
   */
  function GetHeader(hs: seq<Header>, name: string): Option<string> {
    var vs := HeaderValues(hs, name);
    if |vs| == 0 then None else Some(CombineValues(vs))
  }

  /** The numbers read from the three `X-RateLimit-*` headers; `None` is a value `parseInt` cannot read. */
  datatype RateLimitInfo = RateLimitInfo(remaining: Option<int>, reset: Option<int>, limit: Option<int>)

  /** A header value JavaScript treats as true: present and non-empty. */
  predicate Truthy(h: Option<string>) {
    h.Some? && h.value != ""
  }

  /** Some header answering to `name` was received. */
  predicate Sent(hs: seq<Header>, name: string) {
    exists i :: 0 <= i < |hs| && Names(hs[i], name)
  }

  /** Some header answering to `name` was received with a non-empty value. */
  predicate SentNonEmpty(hs: seq<Header>, name: string) {
    exists i :: 0 <= i < |hs| && Names(hs[i], name) && hs[i].value != ""
  }

  /**
   * `getRateLimitInfo`: the three headers read with `parseInt` when all
   * three are present and non-empty, `null` otherwise.  `parseInt` is a
   * parameter.  There is no info unless all three headers were received,
   * and there is info whenever each was received with a non-empty value.
   */
  function GetRateLimitInfo(hs: seq<Header>, parseInt: string -> Option<int>): (info: Option<RateLimitInfo>)
    ensures info.Some? ==> Sent(hs, RemainingHeader) && Sent(hs, ResetHeader) && Sent(hs, LimitHeader)
    ensures SentNonEmpty(hs, RemainingHeader) && SentNonEmpty(hs, ResetHeader) && SentNonEmpty(hs, LimitHeader)
            ==> info.Some?
  {
    var remaining := GetHeader(hs, RemainingHeader);
    var reset := GetHeader(hs, ResetHeader);
    var limit := GetHeader(hs, LimitHeader);
    SentValuesTruthy(hs, RemainingHeader);
    SentValuesTruthy(hs, ResetHeader);
    SentValuesTruthy(hs, LimitHeader);
    if Truthy(remaining) && Truthy(reset) && Truthy(limit) then
      Some(RateLimitInfo(parseInt(remaining.value), parseInt(reset.value), parseInt(limit.value)))
    else
      None
  }

  /** A received header makes `get` answer, and a non-empty one makes the answer true. */
  lemma SentValuesTruthy(hs: seq<Header>, name: string)
    ensures Truthy(GetHeader(hs, name)) ==> Sent(hs, name)
    ensures SentNonEmpty(hs, name) ==> Truthy(GetHeader(hs, name))
  {
    var vs := HeaderValues(hs, name);
    if |vs| > 0 {
      HeaderValuesOrigin(hs, name, vs[0]);
    }
    if SentNonEmpty(hs, name) {
      var i :| 0 <= i < |hs| && Names(hs[i], name) && hs[i].value != "";
      HeaderValuesOrigin(hs, name, hs[i].value);
    }
  }

  /** A value is among those of `name` exactly when some header answering to `name` carries it. */
  lemma {:induction false} HeaderValuesOrigin(hs: seq<Header>, name: string, v: string)
    ensures v in HeaderValues(hs, name) <==> exists i :: 0 <= i < |hs| && Names(hs[i], name) && hs[i].value == v
    decreases |hs|
  {
    if |hs| > 0 {
      HeaderValuesOrigin(hs[1..], name, v);
      if v in HeaderValues(hs[1..], name) {
        var i :| 0 <= i < |hs[1..]| && Names(hs[1..][i], name) && hs[1..][i].value == v;
        assert hs[i + 1] == hs[1..][i];
      }
      if exists i :: 0 <= i < |hs| && Names(hs[i], name) && hs[i].value == v {
        var i :| 0 <= i < |hs| && Names(hs[i], name) && hs[i].value == v;
        if i > 0 {
          assert hs[1..][i - 1] == hs[i];
        }
      }
    }
  }

  /** The values of two runs of headers are those of the first, then the second. */
  lemma {:induction false} HeaderValuesAppend(a: seq<Header>, b: seq<Header>, name: string)
    ensures HeaderValues(a + b, name) == HeaderValues(a, name) + HeaderValues(b, name)
    decreases |a|
  {
    if |a| == 0 {
      assert a + b == b;
    } else {
      var head := if Names(a[0], name) then [a[0].value] else [];
      assert (a + b)[0] == a[0];
      assert (a + b)[1..] == a[1..] + b;
      HeaderValuesAppend(a[1..], b, name);
      assert head + (HeaderValues(a[1..], name) + HeaderValues(b, name))
          == (head + HeaderValues(a[1..], name)) + HeaderValues(b, name);
    }
  }

  /**
   * The info depends only on the three `X-RateLimit-*` headers: inserting
   * any other header anywhere changes nothing, whatever its value.
   */
  lemma OtherHeadersIgnored(a: seq<Header>, b: seq<Header>, x: Header, parseInt: string -> Option<int>)
    requires !Names(x, RemainingHeader) && !Names(x, ResetHeader) && !Names(x, LimitHeader)
    ensures GetRateLimitInfo(a + [x] + b, parseInt) == GetRateLimitInfo(a + b, parseInt)
  {
    InsertedHeaderIgnored(a, b, x, RemainingHeader);
    InsertedHeaderIgnored(a, b, x, ResetHeader);
    InsertedHeaderIgnored(a, b, x, LimitHeader);
  }

  /** A header that does not answer to `name` adds nothing to its values. */
  lemma InsertedHeaderIgnored(a: seq<Header>, b: seq<Header>, x: Header, name: string)
    requires !Names(x, name)
    ensures HeaderValues(a + [x] + b, name) == HeaderValues(a + b, name)
  {
    HeaderValuesAppend(a + [x], b, name);
    HeaderValuesAppend(a, [x], name);
    HeaderValuesAppend(a, b, name);
    assert HeaderValues([x], name) == [];
  }

  /**
   * When each of the three headers was received once, the info holds their
   * values read with `parseInt`, provided all three are non-empty; one
   * empty value means no info.
   */
  lemma OneOfEachHeader(hs: seq<Header>, remaining: string, reset: string, limit: string,
                        parseInt: string -> Option<int>)
    requires HeaderValues(hs, RemainingHeader) == [remaining]
    requires HeaderValues(hs, ResetHeader) == [reset]
    requires HeaderValues(hs, LimitHeader) == [limit]
    ensures GetRateLimitInfo(hs, parseInt)
         == if remaining != "" && reset != "" && limit != ""
            then Some(RateLimitInfo(parseInt(remaining), parseInt(reset), parseInt(limit)))
            else None
  {
  }
}

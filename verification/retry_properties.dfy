/**
 * Properties of the request engine's attempt loop: where it stops, how many
 * physical attempts it makes, which sleeps it requests, and which error it
 * surfaces.  The central fact is `RunEndsAtFirstStop`: the loop runs until
 * the first attempt whose `catch` block does not go on, and every other
 * property is a consequence of it.
 */
module RetryProperties {
  import opened Wrappers
  import opened Text
  import opened Errors
  import opened HttpClient

  // ---------------------------------------------------------------------------
  // Configuration
  // ---------------------------------------------------------------------------

  /**
   * The budget and delay the loop uses: the caller's value, or the default
   * when the caller left it out or gave zero.  The budget is never zero.
   */
  lemma EffectiveRetrySettings(c: ClientConfig)
    ensures RetryBudget(Configure(c))
         == if c.maxRetries.None? || c.maxRetries.value == 0 then 3 else c.maxRetries.value
    ensures BaseDelay(Configure(c))
         == if c.retryDelay.None? || c.retryDelay.value == 0 then 1000 else c.retryDelay.value
    ensures RetryBudget(Configure(c)) != 0 && BaseDelay(Configure(c)) != 0
  {
  }

  // ---------------------------------------------------------------------------
  // Error classification
  // ---------------------------------------------------------------------------

  /**
   * The class of the error thrown for a response is decided by its status
   * alone, in both directions, whatever the body; a rate-limit error carries
   * the parsed `Retry-After`, a generic one the body's type, code and param.
   */
  lemma ClassificationByStatus<T>(r: Response<T>)
    ensures var e := HandleErrorResponse(r);
            && (e.Authentication? <==> r.status == 401)
            && (e.Permission? <==> r.status == 403)
            && (e.NotFound? <==> r.status == 404)
            && (e.RateLimit? <==> r.status == 429)
            && (e.Generic? <==> r.status !in {401, 403, 404, 429})
            && !e.Connection? && !e.Timeout?
            && (e.RateLimit? ==> e.retryAfter == r.retryAfter)
            && (e.Generic? ==>
                  var d := ErrorDetailsOf(r);
                  && Fields(e).errorType == d.errorType.GetOr(DefaultType)
                  && Fields(e).code == d.code && Fields(e).param == d.param)
  {
  }

  /** An unreadable error body yields `HTTP <status>: <statusText>`, and a generic error of type `api_error`. */
  lemma UnparsableBodyFallback<T>(r: Response<T>)
    requires r.json.Unparsable?
    ensures Fields(HandleErrorResponse(r)).message == "HTTP " + NatToString(r.status) + ": " + r.statusText
    ensures HandleErrorResponse(r).Generic? ==> Fields(HandleErrorResponse(r)).errorType == "api_error"
  {
  }

  // ---------------------------------------------------------------------------
  // Where the loop stops
  // ---------------------------------------------------------------------------

  /**
   * The handler throws the typed error the status selects: always for the
   * corrected handler, and for the handler as written unless the body
   * parses without an `error` member.
   */
  predicate Typed<T>(h: Handler, r: Response<T>) {
    h.Corrected? || !(r.json.Parsed? && r.json.error.Missing?)
  }

  /** Attempt `i` fails and its `catch` block goes on to another attempt. */
  predicate Retries<T>(s: Settings, h: Handler, stream: bool, net: nat -> Attempt<T>, i: nat) {
    var r := Exchange(net(i), stream, h);
    r.Failure? && !Decide(r.error, i, RetryBudget(s), BaseDelay(s)).Throw?
  }

  /** How the loop ends at an attempt that does not go on: it returns, or throws. */
  function Ending<T>(s: Settings, h: Handler, stream: bool, net: nat -> Attempt<T>, k: nat): Outcome<T>
    requires !Retries(s, h, stream, net, k)
  {
    var r := Exchange(net(k), stream, h);
    if r.Success? then Returned(r.value)
    else Threw(Decide(r.error, k, RetryBudget(s), BaseDelay(s)).error)
  }

  /** The sleep attempt `i` requests, if any. */
  function WaitAfter<T>(s: Settings, h: Handler, stream: bool, net: nat -> Attempt<T>, i: nat): seq<int> {
    var r := Exchange(net(i), stream, h);
    if r.Failure? then
      match Decide(r.error, i, RetryBudget(s), BaseDelay(s))
      case Wait(ms) => [ms]
      case _ => []
    else []
  }

  /**
   * The sleep any attempt of any script requests: a rate-limit error before
   * the last attempt sleeps the server's `Retry-After` in milliseconds when
   * that is a non-zero number, and `delay * 2^i` otherwise; a connection
   * error before the last attempt sleeps `delay * 2^i`; nothing else sleeps.
   */
  lemma WaitAfterAmount<T>(s: Settings, h: Handler, stream: bool, net: nat -> Attempt<T>, i: nat)
    ensures var r := Exchange(net(i), stream, h);
            WaitAfter(s, h, stream, net, i)
              == if r.Success? || !r.error.Api? || i >= RetryBudget(s) then []
                 else if r.error.error.RateLimit? then
                   var ra := r.error.error.retryAfter;
                   [if ra.Some? && ra.value != 0 then ra.value * 1000 else Backoff(BaseDelay(s), i)]
                 else if r.error.error.Connection? then [Backoff(BaseDelay(s), i)]
                 else []
  {
  }

  /** The sleeps requested by attempts `from` up to, not including, `to`. */
  function WaitsBetween<T>(s: Settings, h: Handler, stream: bool, net: nat -> Attempt<T>, from: nat, to: nat): seq<int>
    decreases if from <= to then to - from else 0
  {
    if from >= to then [] else WaitAfter(s, h, stream, net, from) + WaitsBetween(s, h, stream, net, from + 1, to)
  }

  /** On the last attempt of the budget the loop never goes on. */
  lemma LastAttemptStops<T>(s: Settings, h: Handler, stream: bool, net: nat -> Attempt<T>)
    requires RetryBudget(s) >= 0
    ensures !Retries(s, h, stream, net, RetryBudget(s))
  {
  }

  /**
   * The loop from attempt `a` runs until the first attempt `k` that does
   * not go on, making `k - a + 1` attempts, requesting exactly the sleeps
   * decided on the way, and ending as attempt `k` ends.
   */
  lemma {:induction false} RunEndsAtFirstStop<T>(s: Settings, h: Handler, stream: bool, net: nat -> Attempt<T>,
                                                 a: nat, k: nat, lastError: Option<Raised>)
    requires a <= k <= RetryBudget(s)
    requires forall i :: a <= i < k ==> Retries(s, h, stream, net, i)
    requires !Retries(s, h, stream, net, k)
    ensures Run(s, h, stream, net, a, lastError)
         == Trace(Ending(s, h, stream, net, k), k - a + 1, WaitsBetween(s, h, stream, net, a, k))
    decreases k - a
  {
    if a < k {
      assert Retries(s, h, stream, net, a);
      var e := Exchange(net(a), stream, h).error;
      assert TurnAt(s, h, stream, net, a) == GoesOn(WaitAfter(s, h, stream, net, a), e);
      RunEndsAtFirstStop(s, h, stream, net, a + 1, k, Some(e));
    } else {
      assert TurnAt(s, h, stream, net, a) == Ends(Ending(s, h, stream, net, k));
    }
  }

  /** The first attempt, from `from` on, that does not go on. */
  function FirstStop<T>(s: Settings, h: Handler, stream: bool, net: nat -> Attempt<T>, from: nat): nat
    requires from <= RetryBudget(s)
    decreases RetryBudget(s) - from
  {
    if from == RetryBudget(s) || !Retries(s, h, stream, net, from) then from
    else FirstStop(s, h, stream, net, from + 1)
  }

  lemma {:induction false} FirstStopIsFirst<T>(s: Settings, h: Handler, stream: bool, net: nat -> Attempt<T>, from: nat)
    requires from <= RetryBudget(s)
    ensures var k := FirstStop(s, h, stream, net, from);
            && from <= k <= RetryBudget(s)
            && !Retries(s, h, stream, net, k)
            && forall i :: from <= i < k ==> Retries(s, h, stream, net, i)
    decreases RetryBudget(s) - from
  {
    if from < RetryBudget(s) && Retries(s, h, stream, net, from) {
      FirstStopIsFirst(s, h, stream, net, from + 1);
    }
  }

  /**
   * With a budget of zero or more, every request makes between one and
   * `budget + 1` attempts, all but the last of which went on, and ends as
   * its last attempt ends: that attempt returns, or throws the error it
   * caught (or the timeout error for an abort).  The fallback
   * `throw lastError!` after the loop is never reached.
   */
  lemma FinalAttemptDecides<T>(s: Settings, h: Handler, stream: bool, net: nat -> Attempt<T>)
    requires RetryBudget(s) >= 0
    ensures var t := Run(s, h, stream, net, 0, None);
            && 1 <= t.attempts <= RetryBudget(s) + 1
            && (forall i :: 0 <= i < t.attempts - 1 ==> Retries(s, h, stream, net, i))
            && !Retries(s, h, stream, net, t.attempts - 1)
            && t.outcome == Ending(s, h, stream, net, t.attempts - 1)
            && t.sleeps == WaitsBetween(s, h, stream, net, 0, t.attempts - 1)
  {
    var k := FirstStop(s, h, stream, net, 0);
    FirstStopIsFirst(s, h, stream, net, 0);
    RunEndsAtFirstStop(s, h, stream, net, 0, k, None);
  }

  /** A negative budget runs no attempt at all, and the loop throws `undefined`. */
  lemma NegativeBudgetThrowsUndefined<T>(s: Settings, h: Handler, stream: bool, net: nat -> Attempt<T>)
    requires RetryBudget(s) < 0
    ensures Run(s, h, stream, net, 0, None) == Trace(Threw(Undefined), 0, [])
  {
    RunBounds(s, h, stream, net, 0, None);
  }

  /**
   * A request that returns, returns what its last attempt received: the raw
   * 2xx response in streaming mode, the parsed body of a 2xx otherwise.
   */
  lemma ReturnedReplyFollowsMode<T>(s: Settings, h: Handler, stream: bool, net: nat -> Attempt<T>)
    ensures var t := Run(s, h, stream, net, 0, None);
            t.outcome.Returned? ==>
              && t.attempts >= 1
              && net(t.attempts - 1).Received?
              && net(t.attempts - 1).response.Ok()
              && (stream ==> t.outcome.reply == Raw(net(t.attempts - 1).response))
              && (!stream ==> net(t.attempts - 1).response.json.Parsed?)
              && (!stream ==> t.outcome.reply == Json(net(t.attempts - 1).response.json.value))
  {
    if RetryBudget(s) >= 0 {
      FinalAttemptDecides(s, h, stream, net);
    } else {
      NegativeBudgetThrowsUndefined(s, h, stream, net);
    }
  }

  // ---------------------------------------------------------------------------
  // Consequences
  // ---------------------------------------------------------------------------

  /** A 2xx ends the loop at once with the raw response (streaming) or the parsed body. */
  lemma SuccessEndsTheLoop<T>(s: Settings, h: Handler, stream: bool, net: nat -> Attempt<T>, k: nat)
    requires k <= RetryBudget(s)
    requires forall i :: 0 <= i < k ==> Retries(s, h, stream, net, i)
    requires net(k).Received? && net(k).response.Ok()
    requires stream || net(k).response.json.Parsed?
    ensures Run(s, h, stream, net, 0, None)
         == Trace(Returned(if stream then Raw(net(k).response) else Json(net(k).response.json.value)),
                  k + 1, WaitsBetween(s, h, stream, net, 0, k))
  {
    RunEndsAtFirstStop(s, h, stream, net, 0, k, None);
  }

  /**
   * A 401, 403 or 404 whose handler throws the typed error is thrown on its
   * first occurrence: no further attempt.  (For the handler as written and
   * a body without an `error` member, see `MissingErrorMemberRetriedAsWritten`.)
   */
  lemma StructuralErrorNotRetried<T>(s: Settings, h: Handler, stream: bool, net: nat -> Attempt<T>, k: nat)
    requires k <= RetryBudget(s)
    requires forall i :: 0 <= i < k ==> Retries(s, h, stream, net, i)
    requires net(k).Received? && net(k).response.status in {401, 403, 404}
    requires Typed(h, net(k).response)
    ensures Run(s, h, stream, net, 0, None)
         == Trace(Threw(Api(HandleErrorResponse(net(k).response))), k + 1, WaitsBetween(s, h, stream, net, 0, k))
  {
    RunEndsAtFirstStop(s, h, stream, net, 0, k, None);
  }

  /** An `AbortError` (the per-attempt timer fired) becomes the timeout error, with no further attempt. */
  lemma AbortBecomesTimeout<T>(s: Settings, h: Handler, stream: bool, net: nat -> Attempt<T>, k: nat)
    requires k <= RetryBudget(s)
    requires forall i :: 0 <= i < k ==> Retries(s, h, stream, net, i)
    requires net(k).Thrown? && net(k).name == "AbortError"
    ensures Run(s, h, stream, net, 0, None)
         == Trace(Threw(Api(Timeout("Request timed out"))), k + 1, WaitsBetween(s, h, stream, net, 0, k))
  {
    RunEndsAtFirstStop(s, h, stream, net, 0, k, None);
  }

  /**
   * A first answer of 401 whose handler throws the typed error is the only
   * attempt, and nothing sleeps.
   */
  lemma UnauthorizedMakesOneAttempt<T>(s: Settings, h: Handler, stream: bool, net: nat -> Attempt<T>)
    requires RetryBudget(s) >= 0
    requires net(0).Received? && net(0).response.status == 401
    requires Typed(h, net(0).response)
    ensures Run(s, h, stream, net, 0, None)
         == Trace(Threw(Api(Authentication(ErrorDetailsOf(net(0).response).message))), 1, [])
  {
    StructuralErrorNotRetried(s, h, stream, net, 0);
  }

  /** Sleeps of a run in which every attempt up to `to` requests `ms(i)`. */
  lemma {:induction false} WaitsOfEveryAttempt<T>(s: Settings, h: Handler, stream: bool, net: nat -> Attempt<T>,
                                                  from: nat, to: nat, ms: nat -> int)
    requires from <= to
    requires forall i :: from <= i < to ==> WaitAfter(s, h, stream, net, i) == [ms(i)]
    ensures WaitsBetween(s, h, stream, net, from, to) == seq(to - from, j requires 0 <= j < to - from => ms(from + j))
    decreases if from <= to then to - from else 0
  {
    if from < to {
      var rest := WaitsBetween(s, h, stream, net, from + 1, to);
      WaitsOfEveryAttempt(s, h, stream, net, from + 1, to, ms);
      assert WaitsBetween(s, h, stream, net, from, to) == [ms(from)] + rest;
      SeqOfShifted(from, to, ms);
    }
  }

  /** A sequence of values `ms(from + j)` is its first value followed by the rest. */
  lemma SeqOfShifted(from: nat, to: nat, ms: nat -> int)
    requires from < to
    ensures seq(to - from, j requires 0 <= j < to - from => ms(from + j))
         == [ms(from)] + seq(to - (from + 1), j requires 0 <= j < to - (from + 1) => ms(from + 1 + j))
  {
  }

  /**
   * A server that answers 429 with a non-zero `Retry-After` every time, with
   * a body the handler turns into the rate-limit error: the loop makes
   * `budget + 1` attempts, sleeps `Retry-After * 1000` ms between them, and
   * surfaces the rate-limit error with its retry-after value.
   */
  lemma RateLimitedUntilExhausted<T>(s: Settings, h: Handler, stream: bool, net: nat -> Attempt<T>,
                                     r: Response<T>, seconds: int)
    requires RetryBudget(s) >= 0
    requires r.status == 429 && r.retryAfter == Some(seconds) && seconds != 0
    requires Typed(h, r)
    requires forall i :: net(i) == Received(r)
    ensures Run(s, h, stream, net, 0, None)
         == Trace(Threw(Api(RateLimit(ErrorDetailsOf(r).message, Some(seconds)))),
                  RetryBudget(s) + 1,
                  seq(RetryBudget(s), _ => seconds * 1000))
  {
    var budget := RetryBudget(s);
    assert forall i :: 0 <= i < budget ==> Retries(s, h, stream, net, i);
    RunEndsAtFirstStop(s, h, stream, net, 0, budget, None);
    WaitsOfEveryAttempt(s, h, stream, net, 0, budget, _ => seconds * 1000);
  }

  /**
   * Without a usable `Retry-After`, repeated rate-limit errors back off
   * exponentially: `delay * 2^i` before attempt `i + 1`.
   */
  lemma RateLimitBacksOff<T>(s: Settings, h: Handler, stream: bool, net: nat -> Attempt<T>, r: Response<T>)
    requires RetryBudget(s) >= 0
    requires r.status == 429 && (r.retryAfter.None? || r.retryAfter == Some(0))
    requires Typed(h, r)
    requires forall i :: net(i) == Received(r)
    ensures Run(s, h, stream, net, 0, None).attempts == RetryBudget(s) + 1
    ensures Run(s, h, stream, net, 0, None).sleeps
         == seq(RetryBudget(s), i requires 0 <= i < RetryBudget(s) => Backoff(BaseDelay(s), i))
  {
    var budget := RetryBudget(s);
    assert forall i :: 0 <= i < budget ==> Retries(s, h, stream, net, i);
    RunEndsAtFirstStop(s, h, stream, net, 0, budget, None);
    WaitsOfEveryAttempt(s, h, stream, net, 0, budget, (i: nat) => Backoff(BaseDelay(s), i));
  }

  /**
   * Any other failure (a 5xx, a network TypeError, an unreadable 2xx body)
   * is retried at once, without a sleep, until the budget is spent, and the
   * last one is thrown.
   */
  lemma OtherFailuresRetriedWithoutWaiting<T>(s: Settings, h: Handler, stream: bool, net: nat -> Attempt<T>, a: Attempt<T>)
    requires RetryBudget(s) >= 0
    requires forall i :: net(i) == a
    requires Exchange(a, stream, h).Failure?
    requires var e := Exchange(a, stream, h).error;
             !IsStructural(e) && !IsAbort(e)
             && !(e.Api? && (e.error.RateLimit? || e.error.Connection?))
    ensures Run(s, h, stream, net, 0, None) == Trace(Threw(Exchange(a, stream, h).error), RetryBudget(s) + 1, [])
  {
    var budget := RetryBudget(s);
    assert forall i :: 0 <= i < budget ==> Retries(s, h, stream, net, i);
    RunEndsAtFirstStop(s, h, stream, net, 0, budget, None);
    NoWaitsBetween(s, h, stream, net, 0, budget);
  }

  /** Attempts that request no sleep add none. */
  lemma {:induction false} NoWaitsBetween<T>(s: Settings, h: Handler, stream: bool, net: nat -> Attempt<T>, from: nat, to: nat)
    requires forall i :: from <= i < to ==> WaitAfter(s, h, stream, net, i) == []
    ensures WaitsBetween(s, h, stream, net, from, to) == []
    decreases if from <= to then to - from else 0
  {
    if from < to {
      NoWaitsBetween(s, h, stream, net, from + 1, to);
    }
  }

  // ---------------------------------------------------------------------------
  // An error body without an `error` member
  // ---------------------------------------------------------------------------

  /**
   * As written, an error response whose body parses but has no `error`
   * member (say `{}`) never becomes a typed error: destructuring
   * `errorData.error` throws a TypeError, which the `catch` block retries at
   * once like any other failure.  A server that keeps answering so, even
   * with 401, gets `budget + 1` attempts, no sleep, and the caller a
   * TypeError.
   */
  lemma MissingErrorMemberRetriedAsWritten<T>(s: Settings, stream: bool, net: nat -> Attempt<T>,
                                              r: Response<T>, v: T)
    requires RetryBudget(s) >= 0
    requires !r.Ok() && r.json == Parsed(v, Missing)
    requires forall i :: net(i) == Received(r)
    ensures var t := Run(s, AsWritten, stream, net, 0, None);
            && t.attempts == RetryBudget(s) + 1
            && t.sleeps == []
            && t.outcome.Threw? && t.outcome.error.Name() == Some("TypeError")
  {
    OtherFailuresRetriedWithoutWaiting(s, AsWritten, stream, net, Received(r));
  }

  /**
   * With the corrected handler, which falls back to the status line when
   * the `error` member is missing, a server that answers 401, 403 or 404 is
   * asked once, whatever the body, and the caller gets the typed error; for
   * a body without `error` its message is `HTTP <status>: <statusText>`.
   */
  lemma StructuralStatusNeverRetried<T>(s: Settings, stream: bool, net: nat -> Attempt<T>, r: Response<T>)
    requires RetryBudget(s) >= 0
    requires r.status == 401 || r.status == 403 || r.status == 404
    requires forall i :: net(i) == Received(r)
    ensures Run(s, Corrected, stream, net, 0, None) == Trace(Threw(Api(HandleErrorResponse(r))), 1, [])
    ensures r.json.Parsed? && r.json.error.Missing? ==>
              Fields(HandleErrorResponse(r)).message
                == "HTTP " + NatToString(r.status) + ": " + r.statusText
  {
    StructuralErrorNotRetried(s, Corrected, stream, net, 0);
  }
}

/**
 * The request loop shared by both resource clients (SmartsheetDirectAPI.request in
 * src/smartsheet-direct-api.ts and SmartsheetAPI.request in src/apis/smartsheet-api.ts):
 * query building, the retry of rate-limited calls with a backoff delay, and the shape
 * of the error a failed call throws.
 *
 * The network is a function from the attempt number to what that attempt got back,
 * and the random jitter is a function from the attempt number to a whole number of
 * milliseconds. The timer itself is not modelled: the loop returns, for each retry,
 * the number of milliseconds its timer would wait.
 */
module HttpClient {
  import opened JsValues

  /** What one attempt gets back. */
  datatype Attempt =
    | Answer(data: Json)
      /** The service replied with an error status; `retryAfter` is the Retry-After header. */
    | Rejected(status: int, body: Option<Json>, retryAfter: Option<string>, message: string)
      /** No reply at all (connection refused, timeout). */
    | Unreachable(message: string)

  /** The error a failed request throws. */
  datatype ApiError = ApiError(message: string, statusCode: Option<int>, errorCode: Option<Json>, detail: Option<Json>)

  /** The number of retries after the first attempt. */
  const MaxRetries: nat := 3

  predicate IsRateLimited(a: Attempt)
  {
    a.Rejected? && a.status == 429
  }

  /**
   * formatError: the body's message when it is truthy, else the transport's message;
   * the status, the body's errorCode and detail are copied.
   */
  function FormatError(a: Attempt): (e: ApiError)
    requires !a.Answer?
    ensures a.Unreachable? ==> e == ApiError(a.message, None, None, None)
    ensures a.Rejected? ==> e.statusCode == Some(a.status)
    ensures a.Rejected? && a.body.Some? ==>
              e.errorCode == Get(a.body.value, "errorCode") && e.detail == Get(a.body.value, "detail")
    ensures a.Rejected? && a.body.None? ==> e.errorCode.None? && e.detail.None?
    ensures a.Rejected? && a.body.Some? && FieldTruthy(Get(a.body.value, "message")) ==>
              e.message == JsString(Get(a.body.value, "message").value)
    ensures a.Rejected? && !(a.body.Some? && FieldTruthy(Get(a.body.value, "message"))) ==> e.message == a.message
  {
    match a
    case Unreachable(message) => ApiError(message, None, None, None)
    case Rejected(status, body, _, message) =>
      var bodyMessage := if body.Some? then Get(body.value, "message") else None;
      ApiError(
        if FieldTruthy(bodyMessage) then JsString(bodyMessage.value) else message,
        Some(status),
        if body.Some? then Get(body.value, "errorCode") else None,
        if body.Some? then Get(body.value, "detail") else None)
  }

  // ---------------------------------------------------------------------------
  // Query parameters

  /** The (key, text) pairs appended to the URL, in entry order, skipping undefined and null. */
  function QueryPairs(params: seq<(string, Option<Json>)>): seq<(string, string)>
  {
    if params == [] then []
    else
      var last := params[|params| - 1];
      QueryPairs(params[..|params| - 1]) + (if Defined(last.1) then [(last.0, JsString(last.1.value))] else [])
  }

  /** The query is appended entry by entry; a missing parameter object appends nothing. */
  method BuildQuery(queryParams: Option<seq<(string, Option<Json>)>>) returns (pairs: seq<(string, string)>)
    ensures queryParams.None? ==> pairs == []
    ensures queryParams.Some? ==> pairs == QueryPairs(queryParams.value)
  {
    pairs := [];
    if queryParams.Some? {
      var params := queryParams.value;
      for i := 0 to |params|
        invariant pairs == QueryPairs(params[..i])
      {
        assert params[..i + 1][..i] == params[..i];
        var (key, value) := params[i];
        if value.Some? && value.value != JNull {
          pairs := pairs + [(key, JsString(value.value))];
        }
      }
      assert params[..|params|] == params;
    }
  }

  /** A pair is sent exactly when some entry with that key has a defined value with that text. */
  lemma {:induction false} QueryPairsMember(params: seq<(string, Option<Json>)>, pair: (string, string))
    ensures pair in QueryPairs(params) <==>
      exists j :: 0 <= j < |params| && params[j].0 == pair.0 && Defined(params[j].1) && JsString(params[j].1.value) == pair.1
  {
    if params != [] {
      var init := params[..|params| - 1];
      QueryPairsMember(init, pair);
      if exists j :: (0 <= j < |params| && params[j].0 == pair.0 && Defined(params[j].1) && JsString(params[j].1.value) == pair.1) {
        var j :| 0 <= j < |params| && params[j].0 == pair.0 && Defined(params[j].1) && JsString(params[j].1.value) == pair.1;
        if j < |params| - 1 {
          assert init[j] == params[j];
        }
      }
    }
  }

  /** When every value is defined, every entry is sent, in order. */
  lemma {:induction false} QueryPairsAllDefined(params: seq<(string, Option<Json>)>)
    requires forall j :: 0 <= j < |params| ==> Defined(params[j].1)
    ensures |QueryPairs(params)| == |params|
    ensures forall j :: 0 <= j < |params| ==> Defined(params[j].1) && QueryPairs(params)[j] == (params[j].0, JsString(params[j].1.value))
  {
    if params != [] {
      QueryPairsAllDefined(params[..|params| - 1]);
    }
  }

  // ---------------------------------------------------------------------------
  // Backoff

  function Pow2(n: nat): (p: nat)
    ensures p >= 1
  {
    if n == 0 then 1 else 2 * Pow2(n - 1)
  }

  function Max(a: int, b: int): int
  {
    if a >= b then a else b
  }

  /** `parseInt(headers['retry-after'] || 1, 10)`: a missing or empty header reads as 1. */
  function RetryAfterSeconds(header: Option<string>): Option<int>
  {
    ParseInt(if header.None? || header.value == "" then "1" else header.value)
  }

  lemma DefaultRetryAfter()
    ensures RetryAfterSeconds(None) == Some(1)
    ensures RetryAfterSeconds(Some("")) == Some(1)
  {
    ParseIntDigit('1');
  }

  /**
   * The delay exactly as the loop computes it, None standing for NaN: when the header
   * is not a number (for instance the HTTP-date form of Retry-After), parseInt yields
   * NaN and so does Math.max.
   */
  function DelayAsWritten(header: Option<string>, retries: nat, jitter: nat): (d: Option<int>)
    ensures d.None? <==> RetryAfterSeconds(header).None?
    ensures d.Some? ==> d.value >= RetryAfterSeconds(header).value * 1000 && d.value >= Pow2(retries) * 1000 + jitter
  {
    match RetryAfterSeconds(header)
    case None => None
    case Some(seconds) => Some(Max(seconds * 1000, Pow2(retries) * 1000 + jitter))
  }

  /** The longest delay a Node.js timer accepts, 2^31 - 1 ms. */
  const MaxTimerDelay: nat := 2147483647

  /**
   * What setTimeout waits for a given delay: a delay from 1 ms up to MaxTimerDelay is
   * kept, and NaN, a delay below 1 ms or one above MaxTimerDelay waits 1 ms instead.
   */
  function TimerWait(delay: Option<int>): (w: nat)
    ensures 1 <= w <= MaxTimerDelay
    ensures delay.Some? && 1 <= delay.value <= MaxTimerDelay ==> w == delay.value
    ensures delay.None? || delay.value < 1 || delay.value > MaxTimerDelay ==> w == 1
  {
    if delay.Some? && 1 <= delay.value <= MaxTimerDelay then delay.value else 1
  }

  /** An HTTP-date Retry-After makes the loop retry at once, below the exponential bound. */
  lemma HttpDateRetriesAtOnce()
    ensures DelayAsWritten(Some("Wed, 21 Oct 2015 07:28:00 GMT"), 0, 0).None?
    ensures TimerWait(DelayAsWritten(Some("Wed, 21 Oct 2015 07:28:00 GMT"), 0, 0)) == 1 < Pow2(0) * 1000
  {
    var h := "Wed, 21 Oct 2015 07:28:00 GMT";
    assert !IsJsWhitespace(h[0]) && !IsDigit(h[0]);
    assert TrimStart(h) == h;
    assert UnsignedPart(h) == h;
    assert DigitPrefix(h) == [];
  }

  /**
   * The delay before retry number `retries + 1`: at least the Retry-After seconds in
   * milliseconds when the header is a number, and at least the exponential backoff
   * 2^retries seconds plus the jitter whatever the header holds.
   */
  function RetryDelay(header: Option<string>, retries: nat, jitter: nat): (d: nat)
    ensures d >= Pow2(retries) * 1000 + jitter
    ensures RetryAfterSeconds(header).Some? ==> d >= RetryAfterSeconds(header).value * 1000
    ensures RetryAfterSeconds(header).Some? ==> Some(d as int) == DelayAsWritten(header, retries, jitter)
  {
    var backoff := Pow2(retries) * 1000 + jitter;
    match RetryAfterSeconds(header)
    case None => backoff
    case Some(seconds) => Max(seconds * 1000, backoff)
  }

  /**
   * The timer waits the intended delay exactly when the header is a number and the
   * delay fits the timer; otherwise it waits 1 ms, far below the backoff bound.
   */
  lemma TimerWaitAgrees(header: Option<string>, retries: nat, jitter: nat)
    ensures TimerWait(DelayAsWritten(header, retries, jitter)) == RetryDelay(header, retries, jitter) <==>
              RetryAfterSeconds(header).Some? && RetryDelay(header, retries, jitter) <= MaxTimerDelay
    ensures TimerWait(DelayAsWritten(header, retries, jitter)) != RetryDelay(header, retries, jitter) ==>
              TimerWait(DelayAsWritten(header, retries, jitter)) == 1
  {
    var d := DelayAsWritten(header, retries, jitter);
    if RetryAfterSeconds(header).Some? {
      assert d == Some(RetryDelay(header, retries, jitter) as int);
    }
  }

  // ---------------------------------------------------------------------------
  // The retry loop

  /** The wait before retry number `k + 1` when attempt `k` got `a`; only a rejection names one. */
  function WaitAfter(a: Attempt, k: nat, jitter: nat): nat
  {
    if a.Rejected? then TimerWait(DelayAsWritten(a.retryAfter, k, jitter)) else 0
  }

  /** The waits before the first `n` retries. */
  function Waits(respond: nat -> Attempt, jitter: nat -> nat, n: nat): (w: seq<nat>)
    ensures |w| == n
  {
    seq<nat>(n, k requires 0 <= k < n => WaitAfter(respond(k), k, jitter(k)))
  }

  /**
   * Before each of `n` retries that all followed a 429, the wait is what the timer makes
   * of that attempt's computed delay, which is the retry delay whenever that fits the timer.
   */
  lemma WaitsAreDelays(respond: nat -> Attempt, jitter: nat -> nat, n: nat)
    requires forall k :: 0 <= k < n ==> IsRateLimited(respond(k))
    ensures forall k :: 0 <= k < n && respond(k).Rejected? ==>
              Waits(respond, jitter, n)[k] == TimerWait(DelayAsWritten(respond(k).retryAfter, k, jitter(k)))
    ensures forall k :: 0 <= k < n && respond(k).Rejected? && RetryAfterSeconds(respond(k).retryAfter).Some?
                        && RetryDelay(respond(k).retryAfter, k, jitter(k)) <= MaxTimerDelay ==>
              Waits(respond, jitter, n)[k] == RetryDelay(respond(k).retryAfter, k, jitter(k))
  {
    forall k | 0 <= k < n && respond(k).Rejected?
      ensures Waits(respond, jitter, n)[k] == TimerWait(DelayAsWritten(respond(k).retryAfter, k, jitter(k)))
      ensures RetryAfterSeconds(respond(k).retryAfter).Some? && RetryDelay(respond(k).retryAfter, k, jitter(k)) <= MaxTimerDelay ==>
                Waits(respond, jitter, n)[k] == RetryDelay(respond(k).retryAfter, k, jitter(k))
    {
      TimerWaitAgrees(respond(k).retryAfter, k, jitter(k));
    }
  }

  /** Every one of the first `n` attempts got a 429. */
  ghost predicate RateLimitedBefore(respond: nat -> Attempt, n: nat)
  {
    forall k :: 0 <= k < n ==> IsRateLimited(respond(k))
  }

  lemma RateLimitedStep(respond: nat -> Attempt, n: nat)
    requires RateLimitedBefore(respond, n) && IsRateLimited(respond(n))
    ensures RateLimitedBefore(respond, n + 1)
  {
  }

  lemma WaitsStep(respond: nat -> Attempt, jitter: nat -> nat, n: nat)
    requires respond(n).Rejected?
    ensures Waits(respond, jitter, n + 1) == Waits(respond, jitter, n) + [TimerWait(DelayAsWritten(respond(n).retryAfter, n, jitter(n)))]
  {
  }

  /**
   * request: attempt `k` gets `respond(k)`. Only a 429 is retried, and only while fewer
   * than three retries were made; an answer returns its data and anything else throws
   * the formatted error. `waits` holds what the timer waits before each retry: the
   * retry delay when the Retry-After header is a number and the delay fits the timer.
   */
  method RequestWithRetry(respond: nat -> Attempt, jitter: nat -> nat) returns (r: Result<Json, ApiError>, waits: seq<nat>)
    ensures |waits| <= MaxRetries
    ensures forall k :: 0 <= k < |waits| ==>
              IsRateLimited(respond(k)) && waits[k] == TimerWait(DelayAsWritten(respond(k).retryAfter, k, jitter(k)))
    ensures forall k :: 0 <= k < |waits| && respond(k).Rejected? && RetryAfterSeconds(respond(k).retryAfter).Some?
                        && RetryDelay(respond(k).retryAfter, k, jitter(k)) <= MaxTimerDelay ==>
              waits[k] == RetryDelay(respond(k).retryAfter, k, jitter(k))
    ensures |waits| < MaxRetries ==> !IsRateLimited(respond(|waits|))
    ensures r.Success? <==> respond(|waits|).Answer?
    ensures r.Success? ==> r.value == respond(|waits|).data
    ensures r.Failure? ==> r.error == FormatError(respond(|waits|))
  {
    var retries: nat := 0;
    waits := [];
    while retries <= MaxRetries
      invariant retries <= MaxRetries
      invariant waits == Waits(respond, jitter, retries)
      invariant RateLimitedBefore(respond, retries)
      decreases MaxRetries - retries
    {
      var attempt := respond(retries);
      if attempt.Answer? {
        WaitsAreDelays(respond, jitter, retries);
        assert |waits| == retries && attempt == respond(|waits|);
        return Success(attempt.data), waits;
      }
      if IsRateLimited(attempt) && retries < MaxRetries {
        var delay := TimerWait(DelayAsWritten(attempt.retryAfter, retries, jitter(retries)));
        WaitsStep(respond, jitter, retries);
        RateLimitedStep(respond, retries);
        waits := waits + [delay];
        retries := retries + 1;
      } else {
        WaitsAreDelays(respond, jitter, retries);
        assert |waits| == retries && attempt == respond(|waits|);
        return Failure(FormatError(attempt)), waits;
      }
    }
    assert false;
  }

  /** A whole request: the query it sends and what the retry loop makes of the replies. */
  method Request(queryParams: Option<seq<(string, Option<Json>)>>, respond: nat -> Attempt, jitter: nat -> nat)
    returns (query: seq<(string, string)>, r: Result<Json, ApiError>, waits: seq<nat>)
    ensures query == if queryParams.None? then [] else QueryPairs(queryParams.value)
    ensures |waits| <= MaxRetries
    ensures forall k :: 0 <= k < |waits| ==>
              IsRateLimited(respond(k)) && waits[k] == TimerWait(DelayAsWritten(respond(k).retryAfter, k, jitter(k)))
    ensures forall k :: 0 <= k < |waits| && respond(k).Rejected? && RetryAfterSeconds(respond(k).retryAfter).Some?
                        && RetryDelay(respond(k).retryAfter, k, jitter(k)) <= MaxTimerDelay ==>
              waits[k] == RetryDelay(respond(k).retryAfter, k, jitter(k))
    ensures |waits| < MaxRetries ==> !IsRateLimited(respond(|waits|))
    ensures r.Success? <==> respond(|waits|).Answer?
    ensures r.Success? ==> r.value == respond(|waits|).data
    ensures r.Failure? ==> r.error == FormatError(respond(|waits|))
  {
    query := BuildQuery(queryParams);
    r, waits := RequestWithRetry(respond, jitter);
  }
}

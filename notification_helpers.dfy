/**
 * Log notifications to the client (src/server/notification-helpers.ts): a per-level
 * rate limiter over a one-minute window, the redaction of sensitive log data, and the
 * shape of the notification that is sent.
 *
 * The limiter's state is the module-level `rateLimiting` object; here it is an object
 * of class RateLimiting whose methods receive the current time as a parameter.
 */
module NotificationHelpers {
  import opened JsValues

  const WindowMs: int := 60000
  const MaxPerWindow: nat := 100

  // ---------------------------------------------------------------------------
  // Rate limiting

  /** The limiter's state as a value: the count per key and the start of the window. */
  datatype LimiterState = LimiterState(counts: map<string, nat>, lastReset: int)

  /** Levels are counted under the key `log:<level>`. */
  function LevelKey(level: string): string
  {
    "log:" + level
  }

  /** `counts.get(key) ?? 0` */
  function Count(s: LimiterState, key: string): nat
  {
    if key in s.counts then s.counts[key] else 0
  }

  /**
   * Start a new window when more than WindowMs have passed since the last one began.
   * Afterwards `now` lies inside the current window, the window never moves back, counts
   * are only ever cleared, and a second reset at the same moment changes nothing.
   */
  function Reset(s: LimiterState, now: int): (r: LimiterState)
    ensures now - s.lastReset > WindowMs ==> r == LimiterState(map[], now)
    ensures now - s.lastReset <= WindowMs ==> r == s
    ensures s.lastReset <= r.lastReset
    ensures now >= s.lastReset ==> r.lastReset <= now
    ensures now - r.lastReset <= WindowMs
    ensures forall key :: Count(r, key) == 0 || Count(r, key) == Count(s, key)
    ensures Bounded(s) ==> Bounded(r)
  {
    if now - s.lastReset > WindowMs then LimiterState(map[], now) else s
  }

  /**
   * One isRateLimited call: the new state and whether the call is limited. Below the
   * limit the count goes up by one and the call passes; at the limit it goes up once
   * more (the single warning) and the call is limited; above it nothing changes.
   */
  function Check(s: LimiterState, level: string, now: int): (r: (LimiterState, bool))
    ensures r.0.lastReset == Reset(s, now).lastReset
    ensures r.1 <==> Count(Reset(s, now), LevelKey(level)) >= MaxPerWindow
    ensures forall key :: key != LevelKey(level) ==> Count(r.0, key) == Count(Reset(s, now), key)
  {
    var s0 := Reset(s, now);
    var key := LevelKey(level);
    var count := Count(s0, key);
    if count >= MaxPerWindow then
      if count == MaxPerWindow then (s0.(counts := s0.counts[key := count + 1]), true) else (s0, true)
    else (s0.(counts := s0.counts[key := count + 1]), false)
  }

  /** Every count is at most one above the limit. */
  ghost predicate Bounded(s: LimiterState)
  {
    forall key :: key in s.counts ==> s.counts[key] <= MaxPerWindow + 1
  }

  /** A call never pushes a count beyond one above the limit. */
  lemma CheckBounded(s: LimiterState, level: string, now: int)
    requires Bounded(s)
    ensures Bounded(Check(s, level, now).0)
  {
    var key := LevelKey(level);
    var s0 := Reset(s, now);
    assert Bounded(s0);
    forall k | k in Check(s, level, now).0.counts
      ensures Check(s, level, now).0.counts[k] <= MaxPerWindow + 1
    {
      if k != key {
        assert Count(Check(s, level, now).0, k) == Count(s0, k);
      }
    }
  }

  /** A call once the window has run out starts from empty counts: it passes and counts one. */
  lemma CheckAfterWindow(s: LimiterState, level: string, now: int)
    requires now - s.lastReset > WindowMs
    ensures Check(s, level, now) == (LimiterState(map[LevelKey(level) := 1], now), false)
  {
  }

  /** Distinct levels have distinct keys. */
  lemma LevelKeysDistinct(a: string, b: string)
    requires a != b
    ensures LevelKey(a) != LevelKey(b)
  {
    assert LevelKey(a)[4..] == a && LevelKey(b)[4..] == b;
  }

  /** Within a window, a call for one level leaves another level's count and verdict alone. */
  lemma LevelsIndependent(s: LimiterState, level: string, other: string, now: int, later: int)
    requires level != other
    requires now - s.lastReset <= WindowMs && later - s.lastReset <= WindowMs
    ensures Count(Check(s, level, now).0, LevelKey(other)) == Count(s, LevelKey(other))
    ensures Check(Check(s, level, now).0, other, later).1 == Check(s, other, later).1
  {
    LevelKeysDistinct(level, other);
  }

  /** The verdicts and final state of a series of calls for one level at the given times. */
  function Run(s: LimiterState, level: string, times: seq<int>): (r: (LimiterState, seq<bool>))
    ensures |r.1| == |times|
    decreases |times|
  {
    if times == [] then (s, [])
    else
      var (s1, limited) := Check(s, level, times[0]);
      var (s2, rest) := Run(s1, level, times[1..]);
      (s2, [limited] + rest)
  }

  /**
   * Within one window, starting from count c: call number i (from 0) is limited exactly
   * when c + i reaches the limit, and the count ends at c plus the number of calls,
   * stopping one above the limit.
   */
  lemma {:induction false} RunWithinWindow(s: LimiterState, level: string, times: seq<int>)
    requires Count(s, LevelKey(level)) <= MaxPerWindow + 1
    requires forall i :: 0 <= i < |times| ==> times[i] - s.lastReset <= WindowMs
    ensures forall i :: 0 <= i < |times| ==> (Run(s, level, times).1[i] <==> Count(s, LevelKey(level)) + i >= MaxPerWindow)
    ensures Count(Run(s, level, times).0, LevelKey(level)) ==
              if Count(s, LevelKey(level)) + |times| <= MaxPerWindow + 1 then Count(s, LevelKey(level)) + |times|
              else MaxPerWindow + 1
    ensures Run(s, level, times).0.lastReset == s.lastReset
    decreases |times|
  {
    if times != [] {
      var key := LevelKey(level);
      var (s1, limited) := Check(s, level, times[0]);
      assert Reset(s, times[0]) == s;
      assert s1.lastReset == s.lastReset;
      assert Count(s1, key) == if Count(s, key) < MaxPerWindow + 1 then Count(s, key) + 1 else Count(s, key);
      RunWithinWindow(s1, level, times[1..]);
      var rest := Run(s1, level, times[1..]).1;
      assert Run(s, level, times).1 == [limited] + rest;
      forall i | 1 <= i < |times|
        ensures Run(s, level, times).1[i] <==> Count(s, key) + i >= MaxPerWindow
      {
        assert Run(s, level, times).1[i] == rest[i - 1];
        assert times[1..][i - 1] == times[i];
      }
    }
  }

  /** In a fresh window, a level's first 100 calls pass and every later one is limited. */
  lemma FirstHundredPass(start: int, level: string, times: seq<int>)
    requires forall i :: 0 <= i < |times| ==> times[i] - start <= WindowMs
    ensures forall i :: 0 <= i < |times| ==> (Run(LimiterState(map[], start), level, times).1[i] <==> i >= MaxPerWindow)
  {
    RunWithinWindow(LimiterState(map[], start), level, times);
  }

  /** The module's `rateLimiting` object. */
  class RateLimiting {
    var counts: map<string, nat>
    var lastReset: int

    function State(): LimiterState
      reads this
    {
      LimiterState(counts, lastReset)
    }

    /** The state created when the module loads: no counts, the window starting now. */
    constructor(now: int)
      ensures State() == LimiterState(map[], now)
      ensures Bounded(State())
    {
      counts := map[];
      lastReset := now;
    }

    /** isRateLimited: resets an expired window, then counts the call and decides. */
    method IsRateLimited(level: string, now: int) returns (limited: bool)
      modifies this
      ensures (State(), limited) == Check(old(State()), level, now)
      ensures old(Bounded(State())) ==> Bounded(State())
    {
      if Bounded(State()) {
        CheckBounded(State(), level, now);
      }
      if now - lastReset > WindowMs {
        counts := map[];
        lastReset := now;
      }
      var key := "log:" + level;
      var count := if key in counts then counts[key] else 0;
      if count >= MaxPerWindow {
        if count == MaxPerWindow {
          counts := counts[key := count + 1];
        }
        return true;
      }
      counts := counts[key := count + 1];
      return false;
    }
  }

  // ---------------------------------------------------------------------------
  // Redaction

  const Redacted: string := "[REDACTED]"

  /** A key is sensitive when its lower-cased form mentions a credential. */
  predicate Sensitive(key: string)
  {
    var k := ToLower(key);
    Contains(k, "token") || Contains(k, "password") || Contains(k, "secret")
    || Contains(k, "credential") || Contains(k, "auth") || Contains(k, "key")
  }

  /**
   * What the entry `key: value` becomes: a sensitive key's value is "[REDACTED]", a
   * nested object is sanitised in turn with its keys kept in place, and anything else
   * (arrays and primitives) is copied.
   */
  function SanitizeValue(key: string, value: Json): (r: Json)
    ensures Sensitive(key) ==> r == JStr(Redacted)
    ensures !Sensitive(key) && !value.JObj? ==> r == value
    ensures !Sensitive(key) && value.JObj? ==>
              r.JObj? && |r.fields| == |value.fields|
              && forall i :: 0 <= i < |r.fields| ==>
                   r.fields[i].0 == value.fields[i].0 && r.fields[i].1 == SanitizeValue(value.fields[i].0, value.fields[i].1)
    decreases value
  {
    if Sensitive(key) then JStr(Redacted)
    else if value.JObj? then
      JObj(seq(|value.fields|, i requires 0 <= i < |value.fields| =>
        (value.fields[i].0, SanitizeValue(value.fields[i].0, value.fields[i].1))))
    else value
  }

  /** sanitizeLogData on an object's entries. */
  function SanitizeFields(fields: seq<(string, Json)>): (r: seq<(string, Json)>)
    ensures |r| == |fields|
    ensures forall i :: 0 <= i < |r| ==> r[i].0 == fields[i].0
    ensures forall i :: 0 <= i < |r| && Sensitive(fields[i].0) ==> r[i].1 == JStr(Redacted)
    ensures forall i :: 0 <= i < |r| && !Sensitive(fields[i].0) && !fields[i].1.JObj? ==> r[i].1 == fields[i].1
    ensures forall i :: 0 <= i < |r| ==> r[i].1 == SanitizeValue(fields[i].0, fields[i].1)
  {
    seq(|fields|, i requires 0 <= i < |fields| => (fields[i].0, SanitizeValue(fields[i].0, fields[i].1)))
  }

  /** sanitizeLogData: undefined stays undefined, an object is sanitised entry by entry. */
  function SanitizeLogData(data: Option<seq<(string, Json)>>): (r: Option<seq<(string, Json)>>)
    ensures r.Some? <==> data.Some?
    ensures r.Some? ==> |r.value| == |data.value| && forall i :: 0 <= i < |r.value| ==> r.value[i].0 == data.value[i].0
    ensures r.Some? ==> forall i :: 0 <= i < |r.value| ==> r.value[i].1 == SanitizeValue(data.value[i].0, data.value[i].1)
  {
    if data.None? then None else Some(SanitizeFields(data.value))
  }

  /** No sensitive key, at any depth of nested objects, holds anything but "[REDACTED]". */
  ghost predicate Clean(key: string, value: Json)
    decreases value
  {
    if Sensitive(key) then value == JStr(Redacted)
    else value.JObj? ==> forall i :: 0 <= i < |value.fields| ==> Clean(value.fields[i].0, value.fields[i].1)
  }

  ghost predicate NoSecrets(fields: seq<(string, Json)>)
  {
    forall i :: 0 <= i < |fields| ==> Clean(fields[i].0, fields[i].1)
  }

  /** Whatever the input, its sanitised form holds no secret. */
  lemma {:induction false} SanitizedIsClean(key: string, value: Json)
    ensures Clean(key, SanitizeValue(key, value))
    decreases value
  {
    if !Sensitive(key) && value.JObj? {
      var r := SanitizeValue(key, value);
      forall i | 0 <= i < |r.fields|
        ensures Clean(r.fields[i].0, r.fields[i].1)
      {
        SanitizedIsClean(value.fields[i].0, value.fields[i].1);
      }
    }
  }

  lemma SanitizedHasNoSecrets(fields: seq<(string, Json)>)
    ensures NoSecrets(SanitizeFields(fields))
  {
    forall i | 0 <= i < |fields|
      ensures Clean(fields[i].0, SanitizeValue(fields[i].0, fields[i].1))
    {
      SanitizedIsClean(fields[i].0, fields[i].1);
    }
  }

  /** A value that holds no secret passes through sanitisation unchanged. */
  lemma {:induction false} SanitizeKeepsClean(key: string, value: Json)
    requires Clean(key, value)
    ensures SanitizeValue(key, value) == value
    decreases value
  {
    if !Sensitive(key) && value.JObj? {
      var r := SanitizeValue(key, value);
      forall i | 0 <= i < |value.fields|
        ensures r.fields[i] == value.fields[i]
      {
        SanitizeKeepsClean(value.fields[i].0, value.fields[i].1);
      }
      assert r.fields == value.fields;
    }
  }

  /** Sanitising twice is sanitising once. */
  lemma SanitizeIdempotent(fields: seq<(string, Json)>)
    ensures SanitizeFields(SanitizeFields(fields)) == SanitizeFields(fields)
  {
    var once := SanitizeFields(fields);
    forall i | 0 <= i < |once|
      ensures SanitizeFields(once)[i] == once[i]
    {
      SanitizedIsClean(fields[i].0, fields[i].1);
      SanitizeKeepsClean(once[i].0, once[i].1);
    }
  }

  // ---------------------------------------------------------------------------
  // The notification

  /** The `notifications/message` parameters; `logger` and `data` are omitted when None. */
  datatype LogMessage = LogMessage(level: string, message: string, logger: Option<string>,
                                   data: Option<seq<(string, Json)>>)

  const LogMethod: string := "notifications/message"

  /** The parameters sent for a call that is not rate limited. */
  function LogPayload(level: string, message: string, loggerName: Option<string>,
                      data: Option<seq<(string, Json)>>): (m: LogMessage)
    ensures m.level == level && m.message == message
    ensures m.logger.Some? <==> loggerName.Some? && loggerName.value != ""
    ensures m.logger.Some? ==> m.logger == loggerName
    ensures m.data.Some? <==> data.Some?
    ensures m.data.Some? ==> NoSecrets(m.data.value)
    ensures m.data == SanitizeLogData(data)
  {
    var sanitized := SanitizeLogData(data);
    assert data.Some? ==> NoSecrets(SanitizeFields(data.value)) by {
      if data.Some? {
        SanitizedHasNoSecrets(data.value);
      }
    }
    LogMessage(level, message, if loggerName.Some? && loggerName.value != "" then loggerName else None, sanitized)
  }

  /**
   * sendLogNotification: a rate-limited call sends nothing (None); otherwise the message
   * with its sanitised data is sent.
   */
  method SendLogNotification(limiter: RateLimiting, level: string, message: string,
                             loggerName: Option<string>, data: Option<seq<(string, Json)>>, now: int)
    returns (sent: Option<LogMessage>)
    modifies limiter
    ensures (limiter.State(), sent.None?) == Check(old(limiter.State()), level, now)
    ensures sent.Some? ==> sent.value == LogPayload(level, message, loggerName, data)
  {
    var limited := limiter.IsRateLimited(level, now);
    if limited {
      return None;
    }
    var sanitized := SanitizeLogData(data);
    var logger := if loggerName.Some? && loggerName.value != "" then loggerName else None;
    sent := Some(LogMessage(level, message, logger, sanitized));
  }
}

/** The one-minute limit on standard runs, with Go's saturating and wrapping durations. */
module AuditRateLimit {
  import opened Arithmetic
  import opened Options
  import opened AuditRuns
  import opened AuditHistory

  /** The start times of the standard runs admitted while `es` is processed. */
  ghost function StandardStarts(c: Coordinator, es: seq<Event>): seq<Time>
    requires Sound(c)
    decreases es
  {
    if es == [] then []
    else
      var (c', answers) := Step(c, es[0]);
      (if es[0].StartRun? && es[0].profile == Standard && answers[0].result.Started? then [es[0].now] else [])
      + StandardStarts(c', es[1..])
  }

  /** A reading that neither is Go's zero time nor lies so far behind the last standard start that the
      subtraction wraps around (about 292 years). */
  predicate Measurable(c: Coordinator, now: Time) {
    now != ZERO_TIME && (c.lastStandardAt == ZERO_TIME || now - c.lastStandardAt > MIN_INTERVAL - TWO_63)
  }

  ghost predicate MeasurableClock(c: Coordinator, es: seq<Event>)
    requires Sound(c)
    decreases es
  {
    es == [] ||
    ((es[0].StartRun? && es[0].profile == Standard ==> Measurable(c, es[0].now))
     && MeasurableClock(Step(c, es[0]).0, es[1..]))
  }

  lemma RemainingExactly(c: Coordinator, now: Time)
    ensures Remaining(c, now) > 0 <==>
              c.lastStandardAt != ZERO_TIME && MIN_INTERVAL - TWO_63 < now - c.lastStandardAt < MIN_INTERVAL
    ensures Remaining(c, now) > 0 && now >= c.lastStandardAt ==>
              Remaining(c, now) == MIN_INTERVAL - (now - c.lastStandardAt)
  {}

  /** The limit says "wait" exactly when less than a minute has passed since the recorded start, if and only if a
      start is recorded and the reading does not wrap around, or a minute has passed anyway. */
  lemma LimitCorrectIff(c: Coordinator, now: Time)
    ensures (Remaining(c, now) > 0 <==> now - c.lastStandardAt < MIN_INTERVAL)
       <==> (c.lastStandardAt != ZERO_TIME && now - c.lastStandardAt > MIN_INTERVAL - TWO_63)
            || now - c.lastStandardAt >= MIN_INTERVAL
  {
    RemainingExactly(c, now);
  }

  ghost predicate MinuteApart(starts: seq<Time>) {
    forall i, j :: 0 <= i < j < |starts| ==> starts[j] - starts[i] >= 60_000_000_000
  }

  /** Any two standard runs start at least a minute apart, even when clock readings arrive out of order. */
  lemma {:induction false} StandardRunsMinuteApart(c: Coordinator, es: seq<Event>)
    requires Sound(c) && MeasurableClock(c, es)
    ensures MinuteApart(StandardStarts(c, es))
    ensures c.lastStandardAt != ZERO_TIME ==>
              forall i :: 0 <= i < |StandardStarts(c, es)| ==>
                StandardStarts(c, es)[i] - c.lastStandardAt >= MIN_INTERVAL
    decreases es
  {
    if es != [] {
      var c' := Step(c, es[0]).0;
      StandardRunsMinuteApart(c', es[1..]);
      if es[0].StartRun? {
        RemainingExactly(CleanedUp(c, es[0].now), es[0].now);
      }
    }
  }

  /** A standard run that starts and fails at the same instant. */
  function Brief(now: Time, id: string): seq<Event> {
    [StartRun(Standard, now, Some(id)), SettleRun(id, Failure(RunFailed), now)]
  }

  lemma BriefRunIsAdmitted(c: Coordinator, now: Time, id: string, rest: seq<Event>) returns (next: Coordinator)
    requires Sound(c) && c.active == None && !c.cancelled && Remaining(c, now) <= 0
    ensures Sound(next) && next.active == None && !next.cancelled && next.lastStandardAt == now
    ensures StandardStarts(c, Brief(now, id) + rest) == [now] + StandardStarts(next, rest)
  {
    var es := Brief(now, id) + rest;
    var middle := Step(c, es[0]).0;
    next := Step(middle, es[1]).0;
    assert es[1..][1..] == rest;
    assert StandardStarts(middle, es[1..]) == [] + StandardStarts(next, rest);
  }

  lemma AdmittedStarts(first: Time, second: Time, third: Time)
    requires Wait(first, second) <= 0
    requires Wait(second, third) <= 0
    ensures StandardStarts(INITIAL, Brief(first, "a") + (Brief(second, "b") + (Brief(third, "c") + [])))
           == [first, second, third]
  {
    var c := BriefRunIsAdmitted(INITIAL, first, "a", Brief(second, "b") + (Brief(third, "c") + []));
    var d := BriefRunIsAdmitted(c, second, "b", Brief(third, "c") + []);
    var e := BriefRunIsAdmitted(d, third, "c", []);
  }

  /** Both exceptions are real: the limit admits a standard run 1 ns after one that started at zero time, and one
      at the very instant of an earlier one after a reading 292 years ahead. */
  lemma UnmeasurableClocksBreakTheLimit()
    ensures exists es :: StandardStarts(INITIAL, es) == [0, 1, 1 + MIN_INTERVAL]
    ensures exists es :: StandardStarts(INITIAL, es) == [MIN_INTERVAL, MIN_INTERVAL + TWO_63, MIN_INTERVAL]
  {
    AdmittedStarts(0, 1, 1 + MIN_INTERVAL);
    AdmittedStarts(MIN_INTERVAL, MIN_INTERVAL + TWO_63, MIN_INTERVAL);
  }

  // ----- Retry-After -----

  /** With a clock that has not gone backwards, the advice is between 1 and 60 seconds and is the least whole
      number of seconds after which the same coordinator is no longer rate limited. */
  lemma RetryAfterIsLeastWait(c: Coordinator, now: Time, newId: Option<string>, k: nat)
    requires Consistent(c) && Admit(c, Standard, now, newId).1.RateLimited? && c.lastStandardAt <= now
    ensures var n := Admit(c, Standard, now, newId).1.retryAfterSeconds;
      1 <= n <= 60 && (Remaining(c, now + k * SECOND) > 0 <==> k < n)
  {
    RemainingExactly(c, now);
    RemainingExactly(c, now + k * SECOND);
  }

  lemma {:induction false} NoStandardStartKeepsMark(c: Coordinator, es: seq<Event>)
    requires Sound(c) && StandardStarts(c, es) == []
    ensures Run(c, es).0.lastStandardAt == c.lastStandardAt
    decreases es
  {
    if es != [] { NoStandardStartKeepsMark(Step(c, es[0]).0, es[1..]); }
  }

  /** Waiting that long suffices, whatever else happens meanwhile, if no other standard run starts. */
  lemma WaitingSuffices(c: Coordinator, now: Time, newId: Option<string>, es: seq<Event>,
                        later: Time, laterId: Option<string>)
    requires Sound(c) && c.lastStandardAt <= now && Admit(c, Standard, now, newId).1.RateLimited?
    requires StandardStarts(c, es) == []
    requires later >= now + Admit(c, Standard, now, newId).1.retryAfterSeconds * SECOND
    ensures !Step(Run(c, es).0, StartRun(Standard, later, laterId)).1[0].result.RateLimited?
  {
    RemainingExactly(c, now);
    NoStandardStartKeepsMark(c, es);
    RemainingExactly(CleanedUp(Run(c, es).0, later), later);
  }
}

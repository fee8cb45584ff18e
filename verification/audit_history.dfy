/** Eager eviction refines a history that forgets nothing and filters only when it answers. */
module AuditHistory {
  import opened Arithmetic
  import opened Options
  import opened AuditRuns
  import Strings

  /** At most one record is running, and it is the active one. */
  ghost predicate Sound(c: Coordinator) {
    && Consistent(c)
    && (c.active.Some? ==> c.records[c.active.value].state == Running)
    && (forall id :: id in c.records && c.records[id].state == Running ==> c.active == Some(id))
  }

  lemma CleanedUpSound(c: Coordinator, now: Time)
    requires Sound(c)
    ensures Sound(CleanedUp(c, now))
  {}

  datatype Event =
    | StartRun(profile: Profile, now: Time, newId: Option<string>)
    | SettleRun(id: string, verdict: Verdict, now: Time)
    | AskStatus(id: string, now: Time)
    | Tick(now: Time)
    | Cancel

  datatype Answer = StartAnswer(result: StartResult) | StatusAnswer(status: Option<Status>)

  /** One lock section of the program, and what its caller is told. */
  ghost function Step(c: Coordinator, e: Event): (r: (Coordinator, seq<Answer>))
    requires Sound(c)
    ensures Sound(r.0)
  {
    match e
    case StartRun(profile, now, newId) =>
      CleanedUpSound(c, now);
      var (c', result) := Start(c, profile, now, newId);
      (c', [StartAnswer(result)])
    case SettleRun(id, v, now) => (Settle(c, id, v, now), [])
    case AskStatus(id, now) => (CleanedUp(c, now), [StatusAnswer(Lookup(c, id, now))])
    case Tick(now) => (CleanedUp(c, now), [])
    case Cancel => (c.(cancelled := true), [])
  }

  /** The same section over the full history: nothing is evicted, answers are filtered. */
  ghost function HistoryStep(h: Coordinator, e: Event): (r: (Coordinator, seq<Answer>))
    requires Sound(h)
    ensures Sound(r.0)
  {
    match e
    case StartRun(profile, now, newId) =>
      if Accepts(h, profile) then
        var (h', result) := Admit(h, profile, now, newId);
        (h', [StartAnswer(result)])
      else (h, [StartAnswer(Unavailable)])
    case SettleRun(id, v, now) => (if CanSettle(h, id) then Settled(h, id, v, now) else h, [])
    case AskStatus(id, now) => (h, [StatusAnswer(Lookup(h, id, now))])
    case Tick(_) => (h, [])
    case Cancel => (h.(cancelled := true), [])
  }

  ghost function Run(c: Coordinator, es: seq<Event>): (r: (Coordinator, seq<Answer>))
    requires Sound(c)
    ensures Sound(r.0)
    decreases es
  {
    if es == [] then (c, [])
    else
      var (c', answers) := Step(c, es[0]);
      var (c'', rest) := Run(c', es[1..]);
      (c'', answers + rest)
  }

  ghost function HistoryRun(h: Coordinator, es: seq<Event>): (r: (Coordinator, seq<Answer>))
    requires Sound(h)
    ensures Sound(r.0)
    decreases es
  {
    if es == [] then (h, [])
    else
      var (h', answers) := HistoryStep(h, es[0]);
      var (h'', rest) := HistoryRun(h', es[1..]);
      (h'', answers + rest)
  }

  /** An event whose lock section evicts. */
  predicate Evicts(c: Coordinator, e: Event) {
    match e
    case StartRun(profile, _, _) => Accepts(c, profile)
    case SettleRun(id, _, _) => CanSettle(c, id)
    case Cancel => false
    case _ => true
  }

  /** The latest reading by which something was evicted. */
  function Latest(c: Coordinator, t: Time, e: Event): Time { if Evicts(c, e) then Max(t, e.now) else t }

  /** Run ids are never reused and nothing settles before Go's zero time; and a question is not asked with a reading
      earlier than that of an eviction before it, except within a day of zero time, when nothing has expired yet.
      Otherwise readings may come in any order. */
  ghost predicate WellTimed(h: Coordinator, t: Time, es: seq<Event>)
    requires Sound(h)
    decreases es
  {
    es == [] ||
    (var e := es[0];
     && Admissible(h, e) && (e.AskStatus? ==> t <= e.now || t <= RETENTION)
     && WellTimed(HistoryStep(h, e).0, Latest(h, t, e), es[1..]))
  }

  predicate Admissible(h: Coordinator, e: Event) {
    && (e.StartRun? && e.newId.Some? ==> e.newId.value !in h.records)
    && (e.SettleRun? && CanSettle(h, e.id) ==> e.now > ZERO_TIME)
  }

  ghost function LatestOf(h: Coordinator, t: Time, es: seq<Event>): Time
    requires Sound(h)
    decreases es
  {
    if es == [] then t else LatestOf(HistoryStep(h, es[0]).0, Latest(h, t, es[0]), es[1..])
  }

  // ----- The program's table lies between the filtered history and the history -----

  ghost predicate Within(m: map<string, Record>, full: map<string, Record>) {
    forall id :: id in m ==> id in full && m[id] == full[id]
  }

  ghost predicate Dated(full: map<string, Record>) {
    forall id :: id in full ==> full[id].id == id && (full[id].state == Running || full[id].terminalAt > ZERO_TIME)
  }

  ghost predicate Related(c: Coordinator, h: Coordinator, t: Time) {
    && Sound(c) && Sound(h) && Dated(h.records)
    && Within(c.records, h.records)
    && Within(Cleanup(h.records, t), c.records)
    && h == c.(records := h.records)
  }

  /** What eviction has hidden stays hidden. */
  lemma HiddenPersists(m: map<string, Record>, id: string, t: Time, now: Time)
    requires Dated(m) && id in m && !Kept(m, id, t) && t <= now
    ensures !Kept(m, id, now)
  {
    if !Expired(m[id], now) {
      forall x | x in Newer(m, id, t) ensures x in Newer(m, id, now) {}
      SubsetSize(Newer(m, id, t), Newer(m, id, now));
    }
  }

  lemma {:induction false} SubsetSize<T>(a: set<T>, b: set<T>)
    requires a <= b
    ensures |a| <= |b|
  {
    if a != {} {
      var x :| x in a;
      SubsetSize(a - {x}, b - {x});
    }
  }

  lemma AfterTransitive(a: Record, b: Record, c: Record)
    requires After(a, b) && After(b, c)
    ensures After(a, c)
  {
    if Strings.Less(c.id, b.id) && Strings.Less(b.id, a.id) {
      Strings.LessTransitive(c.id, b.id, a.id);
    }
  }

  lemma {:induction false} NewestOf(m: map<string, Record>, s: set<string>) returns (top: string)
    requires Dated(m) && s <= m.Keys && s != {}
    ensures top in s && forall x :: x in s && x != top ==> After(m[top], m[x])
  {
    var first :| first in s;
    var rest := s - {first};
    top := first;
    if rest != {} {
      var other := NewestOf(m, rest);
      assert s == rest + {first};
      Strings.LessTotal(first, other);
      if After(m[other], m[first]) {
        top := other;
      } else {
        forall x | x in rest ensures After(m[first], m[x]) {
          if x != other { AfterTransitive(m[first], m[other], m[x]); }
        }
      }
    }
  }

  /** The `k` newest of `s`: nothing in `s` outranks one of them without being one of them. */
  lemma {:induction false} NewestSubset(m: map<string, Record>, s: set<string>, k: nat) returns (top: set<string>)
    requires Dated(m) && s <= m.Keys && k <= |s|
    ensures top <= s && |top| == k
    ensures forall x, y :: x in top && y in s && After(m[y], m[x]) ==> y in top
  {
    top := {};
    if k > 0 {
      top := NewestSubset(m, s, k - 1);
      assert s == top + (s - top);
      var x := NewestOf(m, s - top);
      Strings.LessTotal(x, x);
      forall y | y in s - top && y != x ensures !After(m[y], m[x]) {
        Strings.LessTotal(x, y);
      }
      top := top + {x};
    }
  }

  /** A record outranked by a hundred in the history is outranked by a hundred survivors. */
  lemma SurvivorsOutrank(m: map<string, Record>, full: map<string, Record>, id: string, t: Time, now: Time)
    requires Dated(full) && Within(m, full) && Within(Cleanup(full, t), m) && t <= now && id in m
    requires full[id].state != Running && !Kept(full, id, now)
    ensures !Kept(m, id, now)
  {
    if !Expired(full[id], now) {
      var newer := Newer(full, id, now);
      var top := NewestSubset(full, newer, TERMINAL_LIMIT);
      forall x | x in top ensures x in Newer(m, id, now) {
        forall y | y in Newer(full, x, now) ensures y in top - {x} {
          AfterTransitive(full[y], full[x], full[id]);
          Strings.LessTotal(x, x);
        }
        SubsetSize(Newer(full, x, now), top - {x});
        if x !in m { HiddenPersists(full, x, t, now); }
      }
      SubsetSize(top, Newer(m, id, now));
    }
  }

  /** Evicting again and again keeps exactly what a single eviction of the whole history would. */
  lemma CleanupOfSurvivors(m: map<string, Record>, full: map<string, Record>, t: Time, now: Time)
    requires Dated(full) && Within(m, full) && Within(Cleanup(full, t), m) && t <= now
    ensures Cleanup(m, now) == Cleanup(full, now)
  {
    forall id | id in full ensures id in Cleanup(m, now) <==> id in Cleanup(full, now) {
      if id !in m {
        HiddenPersists(full, id, t, now);
      } else if full[id].state != Running {
        if Kept(full, id, now) {
          SubsetSize(Newer(m, id, now), Newer(full, id, now));
        } else {
          SurvivorsOutrank(m, full, id, t, now);
        }
      }
    }
  }

  /** An eviction leaves the table between the history filtered at the latest reading and the history, even when its
      own reading is out of order. */
  lemma EvictionRelates(m: map<string, Record>, full: map<string, Record>, t: Time, now: Time)
    requires Dated(full) && Within(m, full) && Within(Cleanup(full, t), m)
    ensures Within(Cleanup(full, Max(t, now)), Cleanup(m, now))
    ensures t <= now ==> Cleanup(m, now) == Cleanup(full, now)
  {
    if t <= now {
      CleanupOfSurvivors(m, full, t, now);
    } else {
      forall id | id in Cleanup(full, t) ensures id in Cleanup(m, now) {
        if !Kept(full, id, now) { HiddenPersists(full, id, now, t); }
        SubsetSize(Newer(m, id, now), Newer(full, id, now));
      }
    }
  }

  /** Within a day of zero time nothing has expired, so all readings filter alike. */
  lemma EarlyReadings(full: map<string, Record>, a: Time, b: Time)
    requires Dated(full) && a <= RETENTION && b <= RETENTION
    ensures Cleanup(full, a) == Cleanup(full, b)
  {
    forall id | id in full ensures Kept(full, id, a) <==> Kept(full, id, b) {
      assert Newer(full, id, a) == Newer(full, id, b);
    }
  }

  // ----- One step of both -----

  lemma AddingRunning(full: map<string, Record>, r: Record, now: Time)
    requires r.id !in full && r.state == Running
    ensures Cleanup(full[r.id := r], now) == Cleanup(full, now)[r.id := r]
  {
    var full' := full[r.id := r];
    forall id | id in full ensures Kept(full', id, now) <==> Kept(full, id, now) {
      assert Newer(full', id, now) == Newer(full, id, now);
    }
  }

  /** A settled record can only push others out, never bring one back. */
  lemma SettlingShrinks(full: map<string, Record>, id: string, r: Record, t: Time, m: map<string, Record>)
    requires id in full && full[id].state == Running && r.state != Running && r.id == id
    requires Within(Cleanup(full, t), m)
    ensures Within(Cleanup(full[id := r], t), m[id := r])
  {
    var full' := full[id := r];
    forall x | x in Cleanup(full', t) && x != id ensures x in Cleanup(full, t) {
      if full[x].state != Running {
        SubsetSize(Newer(full, x, t), Newer(full', x, t));
      }
    }
  }

  ghost predicate StepAgrees(c: Coordinator, h: Coordinator, t: Time, e: Event)
    requires Sound(c) && Sound(h)
  {
    && Step(c, e).1 == HistoryStep(h, e).1
    && Related(Step(c, e).0, HistoryStep(h, e).0, Latest(h, t, e))
    && (Evicts(h, e) && t <= e.now ==> Step(c, e).0.records == Cleanup(HistoryStep(h, e).0.records, e.now))
  }

  lemma StartAgrees(c: Coordinator, h: Coordinator, t: Time, e: Event)
    requires Related(c, h, t) && e.StartRun? && Admissible(h, e)
    ensures StepAgrees(c, h, t, e)
  {
    if Accepts(c, e.profile) {
      EvictionRelates(c.records, h.records, t, e.now);
      CleanedUpSound(c, e.now);
      AdmissionAgrees(CleanedUp(c, e.now), h, e);
      if Admit(h, e.profile, e.now, e.newId).1.Started? {
        var r := NewRecord(e.newId.value, e.profile, e.now);
        AddingRunning(h.records, r, e.now);
        AddingRunning(h.records, r, Max(t, e.now));
      }
    }
  }

  /** Admission into what is left after the eviction matches admission into the history. */
  lemma AdmissionAgrees(c: Coordinator, h: Coordinator, e: Event)
    requires e.StartRun? && Sound(c) && Sound(h) && h == c.(records := h.records) && Within(c.records, h.records)
    ensures var (c', result) := Admit(c, e.profile, e.now, e.newId);
      var (h', expected) := Admit(h, e.profile, e.now, e.newId);
      && result == expected && h' == c'.(records := h'.records)
      && (!result.Started? ==> c' == c && h' == h)
      && (result.Started? ==>
            var r := NewRecord(e.newId.value, e.profile, e.now);
            c'.records == c.records[r.id := r] && h'.records == h.records[r.id := r])
  {}

  lemma SettleAgrees(c: Coordinator, h: Coordinator, t: Time, e: Event)
    requires Related(c, h, t) && e.SettleRun? && Admissible(h, e)
    ensures StepAgrees(c, h, t, e)
  {
    if CanSettle(h, e.id) {
      assert e.id in Cleanup(h.records, t);
      var r := Terminal(c.records[e.id], e.verdict, e.now);
      SettlingShrinks(h.records, e.id, r, t, c.records);
      EvictionRelates(c.records[e.id := r], h.records[e.id := r], t, e.now);
    }
  }

  lemma AskAgrees(c: Coordinator, h: Coordinator, t: Time, e: Event)
    requires Related(c, h, t) && e.AskStatus? && (t <= e.now || t <= RETENTION)
    ensures StepAgrees(c, h, t, e)
  {
    EvictionRelates(c.records, h.records, t, e.now);
    if e.now < t {
      EarlyReadings(h.records, t, e.now);
      CleanupOfSurvivors(c.records, h.records, e.now, e.now);
    }
  }

  lemma StepRefines(c: Coordinator, h: Coordinator, t: Time, e: Event)
    requires Related(c, h, t) && Admissible(h, e) && (e.AskStatus? ==> t <= e.now || t <= RETENTION)
    ensures StepAgrees(c, h, t, e)
  {
    match e
    case StartRun(_, _, _) => StartAgrees(c, h, t, e);
    case SettleRun(_, _, _) => SettleAgrees(c, h, t, e);
    case AskStatus(_, _) => AskAgrees(c, h, t, e);
    case Tick(now) => EvictionRelates(c.records, h.records, t, now);
    case Cancel =>
  }

  // ----- What an eviction keeps, in numbers -----

  /** The ended runs that are kept. */
  ghost function Ended(m: map<string, Record>, now: Time): set<string> {
    set id | id in Cleanup(m, now) && m[id].state != Running
  }

  /** Running records stay; no ended run is shown a day (in nanoseconds) after it ended, and at most a hundred are. */
  lemma RetentionInNumbers(m: map<string, Record>, now: Time)
    requires Dated(m)
    ensures forall id :: id in m && m[id].state == Running ==> id in Cleanup(m, now)
    ensures forall id :: id in Ended(m, now) ==> now - m[id].terminalAt < 86_400_000_000_000
    ensures |Ended(m, now)| <= 100
  {
    var ended := Ended(m, now);
    if ended != {} {
      var last := OldestOf(m, ended);
      forall id | id in ended && id != last ensures id in Newer(m, last, now) {}
      SubsetSize(ended - {last}, Newer(m, last, now));
    }
  }

  /** What is dropped before its day is over makes way for a full hundred that ended later, or as late with a larger
      id. */
  lemma DroppedMakesWay(m: map<string, Record>, now: Time, y: string)
    requires Dated(m) && y in m && y !in Cleanup(m, now) && now - m[y].terminalAt < 86_400_000_000_000
    ensures |Ended(m, now)| == 100
    ensures forall x :: x in Ended(m, now) ==>
              || m[y].terminalAt < m[x].terminalAt
              || (m[y].terminalAt == m[x].terminalAt && Strings.Less(y, x))
  {
    RetentionInNumbers(m, now);
    FullWhenDropped(m, y, now);
    forall x | x in Ended(m, now)
      ensures || m[y].terminalAt < m[x].terminalAt
              || (m[y].terminalAt == m[x].terminalAt && Strings.Less(y, x))
    {
      if After(m[y], m[x]) { OutrankedStays(m, x, y, now); }
      Strings.LessTotal(x, y);
    }
  }

  lemma FullWhenDropped(m: map<string, Record>, y: string, now: Time)
    requires Dated(m) && y in m && Unexpired(m[y], now) && !Kept(m, y, now)
    ensures |Ended(m, now)| >= TERMINAL_LIMIT
  {
    var top := NewestSubset(m, Newer(m, y, now), TERMINAL_LIMIT);
    forall x | x in top ensures x in Ended(m, now) {
      forall z | z in Newer(m, x, now) ensures z in top - {x} {
        AfterTransitive(m[z], m[x], m[y]);
        Strings.LessTotal(x, x);
      }
      SubsetSize(Newer(m, x, now), top - {x});
    }
    SubsetSize(top, Ended(m, now));
  }

  /** What outranks a kept record is kept. */
  lemma OutrankedStays(m: map<string, Record>, x: string, y: string, now: Time)
    requires Dated(m) && x in m && y in m && m[x].state != Running && Kept(m, x, now)
    requires Unexpired(m[y], now) && After(m[y], m[x])
    ensures Kept(m, y, now)
  {
    forall z | z in Newer(m, y, now) ensures z in Newer(m, x, now) { AfterTransitive(m[z], m[y], m[x]); }
    SubsetSize(Newer(m, y, now), Newer(m, x, now));
  }

  lemma {:induction false} OldestOf(m: map<string, Record>, s: set<string>) returns (oldest: string)
    requires Dated(m) && s <= m.Keys && s != {}
    ensures oldest in s && forall x :: x in s && x != oldest ==> After(m[x], m[oldest])
  {
    var first :| first in s;
    var rest := s - {first};
    oldest := first;
    if rest != {} {
      var other := OldestOf(m, rest);
      assert s == rest + {first};
      Strings.LessTotal(first, other);
      if After(m[first], m[other]) {
        oldest := other;
      } else {
        forall x | x in rest ensures After(m[x], m[first]) {
          if x != other { AfterTransitive(m[x], m[other], m[first]); }
        }
      }
    }
  }

  // ----- Whole runs -----

  /** The program answers every request as the full history would, whatever was evicted meanwhile. */
  lemma {:induction false} RunRefinesHistory(c: Coordinator, h: Coordinator, t: Time, es: seq<Event>)
    requires Related(c, h, t) && WellTimed(h, t, es)
    ensures Run(c, es).1 == HistoryRun(h, es).1
    ensures Related(Run(c, es).0, HistoryRun(h, es).0, LatestOf(h, t, es))
    decreases es
  {
    if es != [] {
      StepRefines(c, h, t, es[0]);
      RunRefinesHistory(Step(c, es[0]).0, HistoryStep(h, es[0]).0, Latest(h, t, es[0]), es[1..]);
    }
  }

  /** After any run, a section that evicts with the latest reading leaves exactly the filtered history. */
  lemma TableIsFilteredHistory(c: Coordinator, h: Coordinator, t: Time, es: seq<Event>, e: Event)
    requires Related(c, h, t) && WellTimed(h, t, es)
    requires Evicts(HistoryRun(h, es).0, e) && LatestOf(h, t, es) <= e.now && Admissible(HistoryRun(h, es).0, e)
    ensures Step(Run(c, es).0, e).0.records == Cleanup(HistoryStep(HistoryRun(h, es).0, e).0.records, e.now)
  {
    RunRefinesHistory(c, h, t, es);
    StepRefines(Run(c, es).0, HistoryRun(h, es).0, LatestOf(h, t, es), e);
  }

  // ----- What has to be ordered -----

  /** An eviction at `u` changes no answer given at `v`, in any state, exactly when the readings are in order, or the
      eviction came within a day of zero time. */
  lemma OrderNeededIff(u: Time, v: Time)
    ensures (forall c, id :: Sound(c) && Dated(c.records) ==> Lookup(CleanedUp(c, u), id, v) == Lookup(c, id, v))
       <==> u <= v || u <= RETENTION
  {
    if u <= v || u <= RETENTION {
      forall c, id | Sound(c) && Dated(c.records) ensures Lookup(CleanedUp(c, u), id, v) == Lookup(c, id, v) {
        if v < u { EarlyReadings(c.records, u, v); }
        CleanupOfSurvivors(Cleanup(c.records, u), c.records, Min(u, v), v);
      }
    } else {
      var at := u - RETENTION;
      var c := Coordinator(map["a" := Record("a", Fast, Failed, at, at, RunFailed, None)], None, ZERO_TIME, false);
      assert Newer(c.records, "a", v) == {} by { Strings.LessTotal("a", "a"); }
      assert Sound(c) && Dated(c.records) && Lookup(CleanedUp(c, u), "a", v) != Lookup(c, "a", v);
    }
  }

  const RUNNING := Coordinator(map["a" := NewRecord("a", Fast, 1)], Some("a"), ZERO_TIME, false)
  const FAILED := Coordinator(map["a" := Record("a", Fast, Failed, 1, 2, RunFailed, None)], None, ZERO_TIME, false)

  /** A run starts at 1 and fails at 2. */
  lemma AfterFailure(start: Event, fail: Event)
    requires start == StartRun(Fast, 1, Some("a")) && fail == SettleRun("a", Failure(RunFailed), 2)
    ensures Sound(RUNNING) && Step(INITIAL, start).0 == HistoryStep(INITIAL, start).0 == RUNNING
    ensures Step(RUNNING, fail).0 == HistoryStep(RUNNING, fail).0 == FAILED
    ensures Step(INITIAL, start).1 == HistoryStep(INITIAL, start).1
    ensures Step(RUNNING, fail).1 == HistoryStep(RUNNING, fail).1
  {
    assert Newer(FAILED.records, "a", 2) == {} by { Strings.LessTotal("a", "a"); }
  }

  lemma RunCons(c: Coordinator, e: Event, rest: seq<Event>)
    requires Sound(c)
    ensures Run(c, [e] + rest).1 == Step(c, e).1 + Run(Step(c, e).0, rest).1
    ensures HistoryRun(c, [e] + rest).1 == HistoryStep(c, e).1 + HistoryRun(HistoryStep(c, e).0, rest).1
  {
    assert ([e] + rest)[1..] == rest;
  }

  lemma LateTickHides(tick: Event, ask: Event)
    requires tick == Tick(2 + RETENTION) && ask == AskStatus("a", 3) && Sound(FAILED)
    ensures Run(FAILED, [tick] + ([ask] + [])).1 == [StatusAnswer(None)]
    ensures HistoryRun(FAILED, [tick] + ([ask] + [])).1 == [StatusAnswer(Some(StatusOf(FAILED.records["a"], 3)))]
  {
    var evicted := Step(FAILED, tick).0;
    assert evicted.records == map[];
    assert Newer(FAILED.records, "a", 3) == {} by { Strings.LessTotal("a", "a"); }
    RunCons(FAILED, tick, [ask] + []);
    RunCons(evicted, ask, []);
    RunCons(FAILED, ask, []);
  }

  /** Out of order, an early eviction shows: a tick a day later evicts the failed run, and a question asked with the
      reading 3 misses it. */
  lemma EarlyEvictionIsVisible()
    ensures exists es :: Run(INITIAL, es).1 != HistoryRun(INITIAL, es).1
  {
    var start, fail := StartRun(Fast, 1, Some("a")), SettleRun("a", Failure(RunFailed), 2);
    var rest := [Tick(2 + RETENTION)] + ([AskStatus("a", 3)] + []);
    AfterFailure(start, fail);
    LateTickHides(Tick(2 + RETENTION), AskStatus("a", 3));
    RunCons(INITIAL, start, [fail] + rest);
    RunCons(RUNNING, fail, rest);
    var first, second := Step(INITIAL, start).1, Step(RUNNING, fail).1;
    DifferentEnds(first, second, StatusAnswer(None), StatusAnswer(Some(StatusOf(FAILED.records["a"], 3))));
    assert Run(INITIAL, [start] + ([fail] + rest)).1 != HistoryRun(INITIAL, [start] + ([fail] + rest)).1;
  }

  lemma DifferentEnds(first: seq<Answer>, second: seq<Answer>, x: Answer, y: Answer)
    requires x != y
    ensures first + (second + [x]) != first + (second + [y])
  {
    var n := |first| + |second|;
    assert (first + (second + [x]))[n] == x && (first + (second + [y]))[n] == y;
  }

  ghost function WithoutTicks(es: seq<Event>): seq<Event> {
    if es == [] then []
    else if es[0].Tick? then WithoutTicks(es[1..])
    else [es[0]] + WithoutTicks(es[1..])
  }

  lemma {:induction false} HistoryIgnoresTicks(h: Coordinator, t: Time, es: seq<Event>, u: Time)
    requires Sound(h) && WellTimed(h, t, es) && u <= t
    ensures HistoryRun(h, WithoutTicks(es)) == HistoryRun(h, es)
    ensures WellTimed(h, u, WithoutTicks(es))
    decreases es
  {
    if es != [] {
      var e := es[0];
      HistoryIgnoresTicks(HistoryStep(h, e).0, Latest(h, t, e), es[1..], if e.Tick? then u else Latest(h, u, e));
      if e.Tick? {
        var rest := HistoryRun(h, es[1..]).1;
        assert [] + rest == rest;
      } else {
        assert WithoutTicks(es)[1..] == WithoutTicks(es[1..]);
      }
    }
  }

  /** Extra or missing cleanup ticks change no answer. */
  lemma TicksChangeNoAnswer(t: Time, es: seq<Event>, fs: seq<Event>)
    requires WellTimed(INITIAL, t, es) && WellTimed(INITIAL, t, fs)
    requires WithoutTicks(es) == WithoutTicks(fs)
    ensures Run(INITIAL, es).1 == Run(INITIAL, fs).1
  {
    assert Related(INITIAL, INITIAL, t);
    RunRefinesHistory(INITIAL, INITIAL, t, es);
    RunRefinesHistory(INITIAL, INITIAL, t, fs);
    HistoryIgnoresTicks(INITIAL, t, es, t);
    HistoryIgnoresTicks(INITIAL, t, fs, t);
  }
}

/** Every interleaving of requests, executing runs, cancellation and cleanup, under any clock:
    single flight, one settlement per run, and completion only after the run's own report was saved. */
module AuditLifecycle {
  import opened Options
  import opened AuditRuns
  import opened AuditHistory

  /** Where the goroutine executing a run stands. */
  datatype Phase =
    | Spawned
    | Returned(result: Option<Report>)
    | Validated(report: Report)
    | Saved(report: Report)
    | Cloned(report: Report)
    | Failing(code: ErrorCode)
    | Done

  /** The coordinator, its goroutines, and a log of runner calls, report saves and settlements. */
  datatype System = System(
    coord: Coordinator, execs: map<string, Phase>,
    calls: multiset<string>, saves: multiset<(string, Report)>, settles: multiset<string>)

  const BOOT := System(INITIAL, map[], multiset{}, multiset{}, multiset{})

  datatype Action =
    | Request(profile: Profile, now: Time, newId: Option<string>)
    | RunnerReturns(id: string, result: Option<Report>)
    | Check(id: string)
    | SaveReturns(id: string, ok: bool)
    | CloneReturns(id: string, ok: bool)
    | SettleLock(id: string, now: Time)
    | Other(event: Event)

  predicate Acceptable(r: Report, profile: Profile) {
    r.wellFormed && r.profile == profile && r.wholeSystem && !r.filtered
  }

  /** What a run checks once the runner has returned. */
  function AfterCheck(c: Coordinator, profile: Profile, result: Option<Report>): Phase {
    if c.cancelled then Failing(RunFailed)
    else if result.None? || !Acceptable(result.value, profile) then Failing(RunFailed)
    else Validated(result.value)
  }

  predicate AtSettlement(p: Phase) { p.Failing? || p.Cloned? }

  function VerdictOf(p: Phase): Verdict
    requires AtSettlement(p)
  {
    if p.Failing? then Failure(p.code) else Success(p.report)
  }

  predicate InPhase(s: System, id: string, p: Phase -> bool) { id in s.execs && p(s.execs[id]) }

  predicate Enabled(s: System, a: Action) {
    match a
    case Request(_, _, newId) => newId.Some? ==> newId.value !in s.execs && newId.value !in s.coord.records
    case RunnerReturns(id, _) => InPhase(s, id, (p: Phase) => p.Spawned?)
    case Check(id) => InPhase(s, id, (p: Phase) => p.Returned?) && id in s.coord.records
    case SaveReturns(id, _) => InPhase(s, id, (p: Phase) => p.Validated?)
    case CloneReturns(id, _) => InPhase(s, id, (p: Phase) => p.Saved?)
    case SettleLock(id, _) => InPhase(s, id, AtSettlement)
    case Other(e) => e.AskStatus? || e.Tick? || e.Cancel?
  }

  ghost function Next(s: System, a: Action): System
    requires Sound(s.coord) && Enabled(s, a)
  {
    match a
    case Request(profile, now, newId) =>
      var (c, answers) := Step(s.coord, StartRun(profile, now, newId));
      if answers[0].result.Started? then s.(coord := c, execs := s.execs[newId.value := Spawned]) else s.(coord := c)
    case RunnerReturns(id, result) =>
      s.(execs := s.execs[id := Returned(result)], calls := s.calls + multiset{id})
    case Check(id) =>
      s.(execs := s.execs[id := AfterCheck(s.coord, s.coord.records[id].profile, s.execs[id].result)])
    case SaveReturns(id, ok) =>
      var report := s.execs[id].report;
      if ok then s.(execs := s.execs[id := Saved(report)], saves := s.saves + multiset{(id, report)})
      else s.(execs := s.execs[id := Failing(PersistFailed)])
    case CloneReturns(id, ok) =>
      s.(execs := s.execs[id := if ok then Cloned(s.execs[id].report) else Failing(RunFailed)])
    case SettleLock(id, now) =>
      var settled := CanSettle(s.coord, id);
      s.(coord := Settle(s.coord, id, VerdictOf(s.execs[id]), now), execs := s.execs[id := Done],
         settles := if settled then s.settles + multiset{id} else s.settles)
    case Other(e) => s.(coord := Step(s.coord, e).0)
  }

  ghost predicate ExecInvariant(s: System, id: string)
    requires id in s.execs
  {
    var p := s.execs[id];
    && s.calls[id] == (if p.Spawned? then 0 else 1)
    && s.settles[id] == (if p.Done? then 1 else 0)
    && (!p.Done? ==> CanSettle(s.coord, id))
    && (p.Validated? || p.Saved? || p.Cloned? ==>
          CanSettle(s.coord, id) && Acceptable(p.report, s.coord.records[id].profile))
    && (p.Saved? || p.Cloned? ==> (id, p.report) in s.saves)
  }

  ghost predicate RecordInvariant(s: System, id: string)
    requires id in s.coord.records
  {
    var r := s.coord.records[id];
    && id in s.execs
    && (r.state == Running <==> !s.execs[id].Done?)
    && (r.state != Completed ==> r.report == None) && (r.state != Failed ==> r.errorCode == NoError)
    && (r.state == Completed ==>
          r.report.Some? && Acceptable(r.report.value, r.profile) && (id, r.report.value) in s.saves)
  }

  ghost predicate Invariant(s: System) {
    && Sound(s.coord)
    && (forall id :: id in s.execs ==> ExecInvariant(s, id))
    && (forall id :: id in s.coord.records ==> RecordInvariant(s, id))
    && (forall id :: id !in s.execs ==> s.calls[id] == 0 && s.settles[id] == 0)
  }

  /** Eviction never touches a running record, so it keeps the invariant. */
  lemma EvictionKeepsInvariant(s: System, now: Time)
    requires Invariant(s)
    ensures Invariant(s.(coord := CleanedUp(s.coord, now)))
  {
    var s' := s.(coord := CleanedUp(s.coord, now));
    CleanedUpSound(s.coord, now);
    forall id | id in s'.execs ensures ExecInvariant(s', id) { assert ExecInvariant(s, id); }
    forall id | id in s'.coord.records ensures RecordInvariant(s', id) { assert RecordInvariant(s, id); }
  }

  lemma RequestKeepsInvariant(s: System, a: Action)
    requires Invariant(s) && Enabled(s, a) && a.Request?
    ensures Invariant(Next(s, a))
  {
    if Accepts(s.coord, a.profile) {
      EvictionKeepsInvariant(s, a.now);
      AdmissionKeepsInvariant(s.(coord := CleanedUp(s.coord, a.now)), a.profile, a.now, a.newId);
    }
  }

  lemma AdmissionKeepsInvariant(t: System, profile: Profile, now: Time, newId: Option<string>)
    requires Invariant(t) && (newId.Some? ==> newId.value !in t.execs && newId.value !in t.coord.records)
    ensures var (c, result) := Admit(t.coord, profile, now, newId);
      Invariant(if result.Started? then t.(coord := c, execs := t.execs[newId.value := Spawned]) else t.(coord := c))
  {
    var (c, result) := Admit(t.coord, profile, now, newId);
    if result.Started? {
      var s' := t.(coord := c, execs := t.execs[newId.value := Spawned]);
      forall id | id in s'.execs ensures ExecInvariant(s', id) {
        if id in t.execs { assert ExecInvariant(t, id); }
      }
      forall id | id in s'.coord.records ensures RecordInvariant(s', id) {
        if id in t.coord.records { assert RecordInvariant(t, id); }
      }
    }
  }

  lemma SettleKeepsInvariant(s: System, a: Action)
    requires Invariant(s) && Enabled(s, a) && a.SettleLock?
    ensures Invariant(Next(s, a))
  {
    assert ExecInvariant(s, a.id);
    var t := s.(coord := Settled(s.coord, a.id, VerdictOf(s.execs[a.id]), a.now),
                execs := s.execs[a.id := Done], settles := s.settles + multiset{a.id});
    forall id | id in t.execs ensures ExecInvariant(t, id) { assert ExecInvariant(s, id); }
    forall id | id in t.coord.records ensures RecordInvariant(t, id) { assert RecordInvariant(s, id); }
    assert Invariant(t);
    EvictionKeepsInvariant(t, a.now);
  }

  lemma ExecutionKeepsInvariant(s: System, a: Action)
    requires Invariant(s) && Enabled(s, a) && (a.RunnerReturns? || a.Check? || a.SaveReturns? || a.CloneReturns?)
    ensures Invariant(Next(s, a))
  {
    var s' := Next(s, a);
    assert ExecInvariant(s, a.id);
    forall id | id in s'.execs ensures ExecInvariant(s', id) { assert ExecInvariant(s, id); }
    forall id | id in s'.coord.records ensures RecordInvariant(s', id) { assert RecordInvariant(s, id); }
  }

  lemma OtherKeepsInvariant(s: System, a: Action)
    requires Invariant(s) && Enabled(s, a) && a.Other?
    ensures Invariant(Next(s, a))
  {
    if a.event.Cancel? {
      var s' := Next(s, a);
      forall id | id in s'.execs ensures ExecInvariant(s', id) { assert ExecInvariant(s, id); }
      forall id | id in s'.coord.records ensures RecordInvariant(s', id) { assert RecordInvariant(s, id); }
    } else {
      EvictionKeepsInvariant(s, a.event.now);
    }
  }

  lemma NextKeepsInvariant(s: System, a: Action)
    requires Invariant(s) && Enabled(s, a)
    ensures Invariant(Next(s, a))
  {
    match a
    case Request(_, _, _) => RequestKeepsInvariant(s, a);
    case SettleLock(_, _) => SettleKeepsInvariant(s, a);
    case Other(_) => OtherKeepsInvariant(s, a);
    case _ => ExecutionKeepsInvariant(s, a);
  }

  /** `s` is reached from the start by some schedule of enabled actions. */
  ghost predicate Reaches(from: System, schedule: seq<Action>, s: System)
    decreases schedule
  {
    if schedule == [] then s == from
    else Sound(from.coord) && Enabled(from, schedule[0]) && Reaches(Next(from, schedule[0]), schedule[1..], s)
  }

  lemma {:induction false} ReachableInvariant(from: System, schedule: seq<Action>, s: System)
    requires Invariant(from) && Reaches(from, schedule, s)
    ensures Invariant(s)
    decreases schedule
  {
    if schedule != [] {
      NextKeepsInvariant(from, schedule[0]);
      ReachableInvariant(Next(from, schedule[0]), schedule[1..], s);
    }
  }

  /** Over every schedule: one running record at most, and it is exactly the active one; no run calls the runner or
      settles twice, and one that is done has done both; a completed record shows a report it saved itself. */
  lemma EveryScheduleIsSafe(schedule: seq<Action>, s: System)
    requires Reaches(BOOT, schedule, s)
    ensures forall id :: id in s.coord.records && s.coord.records[id].state == Running <==> s.coord.active == Some(id)
    ensures forall id :: s.calls[id] <= 1 && s.settles[id] <= 1
    ensures forall id :: id in s.execs && s.execs[id].Done? ==> s.calls[id] == 1 && s.settles[id] == 1
    ensures forall id :: id in s.coord.records && s.coord.records[id].state == Completed ==>
              s.coord.records[id].report.Some? && (id, s.coord.records[id].report.value) in s.saves
              && Acceptable(s.coord.records[id].report.value, s.coord.records[id].profile)
  {
    ReachableInvariant(BOOT, schedule, s);
    forall id
      ensures s.calls[id] <= 1 && s.settles[id] <= 1
      ensures id in s.execs && s.execs[id].Done? ==> s.calls[id] == 1 && s.settles[id] == 1
    {
      if id in s.execs { assert ExecInvariant(s, id); }
    }
    forall id | id in s.coord.records ensures RecordInvariant(s, id) {}
  }

  /** How many of its own steps a run still has to take. */
  function StepsLeft(p: Phase): nat {
    match p
    case Spawned => 5
    case Returned(_) => 4
    case Validated(_) => 3
    case Saved(_) => 2
    case Cloned(_) => 1
    case Failing(_) => 1
    case Done => 0
  }

  /** The next step of a run, with whatever its runner, store or clock answers. */
  function NextOwnStep(id: string, p: Phase, result: Option<Report>, ok: bool, now: Time): Action
    requires p != Done
  {
    match p
    case Spawned => RunnerReturns(id, result)
    case Returned(_) => Check(id)
    case Validated(_) => SaveReturns(id, ok)
    case Saved(_) => CloneReturns(id, ok)
    case _ => SettleLock(id, now)
  }

  /** In every reachable state an unfinished run can take its next step, which brings it closer to the end; the
      last one finds its guard true, frees the slot and leaves a terminal record or none. */
  lemma UnfinishedRunAdvances(schedule: seq<Action>, s: System, id: string, result: Option<Report>, ok: bool, now: Time)
    requires Reaches(BOOT, schedule, s) && id in s.execs && s.execs[id] != Done
    ensures var a := NextOwnStep(id, s.execs[id], result, ok, now);
      && Sound(s.coord) && Enabled(s, a) && StepsLeft(Next(s, a).execs[id]) < StepsLeft(s.execs[id])
      && (Next(s, a).execs[id] == Done ==>
            && CanSettle(s.coord, id) && s.coord.active == Some(id)
            && Next(s, a).coord.active == None && Next(s, a).settles[id] == 1
            && !CanSettle(Next(s, a).coord, id))
  {
    ReachableInvariant(BOOT, schedule, s);
    if AtSettlement(s.execs[id]) {
      LastStepSettles(s, id, now);
    } else {
      EarlierStepAdvances(s, id, result, ok, now);
    }
  }

  lemma EarlierStepAdvances(s: System, id: string, result: Option<Report>, ok: bool, now: Time)
    requires Invariant(s) && id in s.execs && s.execs[id] != Done && !AtSettlement(s.execs[id])
    ensures var a := NextOwnStep(id, s.execs[id], result, ok, now);
      && Enabled(s, a) && Next(s, a).execs[id] != Done && StepsLeft(Next(s, a).execs[id]) < StepsLeft(s.execs[id])
  {
    assert ExecInvariant(s, id);
  }

  lemma LastStepSettles(s: System, id: string, now: Time)
    requires Invariant(s) && id in s.execs && AtSettlement(s.execs[id])
    ensures var s' := Next(s, SettleLock(id, now));
      && CanSettle(s.coord, id) && s.coord.active == Some(id)
      && s'.execs[id] == Done && s'.coord.active == None && s'.settles[id] == 1 && !CanSettle(s'.coord, id)
  {
    assert ExecInvariant(s, id);
    var s' := Next(s, SettleLock(id, now));
    NextKeepsInvariant(s, SettleLock(id, now));
    assert ExecInvariant(s', id);
    if id in s'.coord.records { assert RecordInvariant(s', id); }
  }

  // ----- What a run ends with, and what callers are told -----

  /** The last step records the run's own verdict: completed with the report it saved, or failed with its code. */
  lemma SettlementRecordsVerdict(s: System, id: string, now: Time)
    requires Invariant(s) && id in s.execs && AtSettlement(s.execs[id])
    ensures var s', phase := Next(s, SettleLock(id, now)), s.execs[id];
      id in s'.coord.records ==>
        var r := s'.coord.records[id];
        && r.id == id && r.terminalAt == now
        && r.startedAt == s.coord.records[id].startedAt && r.profile == s.coord.records[id].profile
        && (phase.Cloned? ==> r.state == Completed && r.report == Some(phase.report) && r.errorCode == NoError)
        && (phase.Failing? ==> r.state == Failed && r.report == None && r.errorCode == phase.code)
  {
    assert ExecInvariant(s, id);
    assert RecordInvariant(s, id);
  }

  /** How each answer of the runner, the check, the store and the copy moves the run on. */
  lemma AnswersDecide(s: System, id: string, result: Option<Report>, ok: bool)
    requires Invariant(s) && id in s.execs
    ensures s.execs[id] == Spawned ==> Next(s, RunnerReturns(id, result)).execs[id] == Returned(result)
    ensures s.execs[id] == Returned(result) ==>
              var next, profile := Next(s, Check(id)).execs[id], s.coord.records[id].profile;
              if !s.coord.cancelled && result.Some? && result.value.wellFormed && result.value.profile == profile
                 && result.value.wholeSystem && !result.value.filtered
              then next == Validated(result.value)
              else next == Failing(RunFailed)
    ensures s.execs[id].Validated? ==>
              Next(s, SaveReturns(id, ok)).execs[id]
              == if ok then Saved(s.execs[id].report) else Failing(PersistFailed)
    ensures s.execs[id].Saved? ==>
              Next(s, CloneReturns(id, ok)).execs[id] == if ok then Cloned(s.execs[id].report) else Failing(RunFailed)
  {
    assert ExecInvariant(s, id);
  }

  /** A status names the run and when it started; it shows a report exactly when the run completed, an end exactly when
      it ended, and the code it failed with. */
  lemma StatusShowsRecord(schedule: seq<Action>, s: System, id: string, now: Time)
    requires Reaches(BOOT, schedule, s) && Lookup(s.coord, id, now).Some?
    ensures var r, status := s.coord.records[id], Lookup(s.coord, id, now).value;
      && status.id == id && status.profile == r.profile && status.startedAt == r.startedAt
      && status.state == r.state && status.errorCode == r.errorCode
      && (r.state == Completed ==> status.report.Some? && status.report == r.report && status.presentedAt == Some(now))
      && (r.state != Completed ==> status.report == None && status.presentedAt == None)
      && (r.terminalAt != ZERO_TIME ==> status.completedAt == Some(r.terminalAt))
      && (r.terminalAt == ZERO_TIME ==> status.completedAt == None)
  {
    ReachableInvariant(BOOT, schedule, s);
    assert RecordInvariant(s, id);
  }

  /** What a request is told, in every reachable state: nothing runs deep or after cancellation; a run of the same
      profile is shared and one of another profile is named; only a standard request can be rate limited; and a
      started run is new, running, and the active one. */
  lemma RequestIsAnswered(schedule: seq<Action>, s: System, profile: Profile, now: Time, newId: Option<string>)
    requires Reaches(BOOT, schedule, s) && Enabled(s, Request(profile, now, newId))
    ensures Consistent(CleanedUp(s.coord, now))
    ensures var (c, answer) := Start(s.coord, profile, now, newId);
      var running := set id | id in s.coord.records && s.coord.records[id].state == Running;
      && (answer.Unavailable? <==>
            || profile == Deep || s.coord.cancelled
            || (running == {} && newId == None && !(profile == Standard && Remaining(s.coord, now) > 0)))
      && (answer.Deduplicated? ==> answer.status.id in running && answer.status.profile == profile
                                   && answer.status.state == Running
                                   && s.coord.records[answer.status.id].profile == profile)
      && (answer.Conflict? ==> answer.activeId in running && answer.activeProfile != profile
                               && s.coord.records[answer.activeId].profile == answer.activeProfile)
      && (answer.RateLimited? ==> running == {} && profile == Standard && Remaining(s.coord, now) > 0)
      && (answer.Started? ==>
            && running == {} && newId == Some(answer.status.id) && c.active == newId
            && !(profile == Standard && Remaining(s.coord, now) > 0)
            && c.lastStandardAt == (if profile == Standard then now else s.coord.lastStandardAt)
            && answer.status.state == Running && answer.status.profile == profile && answer.status.startedAt == now
            && newId.value in c.records && c.records[newId.value].state == Running
            && c.records[newId.value].startedAt == now && c.records[newId.value].profile == profile)
  {
    ReachableInvariant(BOOT, schedule, s);
    CleanedUpSound(s.coord, now);
    var running := set id | id in s.coord.records && s.coord.records[id].state == Running;
    if s.coord.active.Some? { assert s.coord.active.value in running; }
  }
}

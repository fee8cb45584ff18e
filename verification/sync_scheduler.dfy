/** The sync scheduler (internal/app/scheduler.go): launches are goroutines that may find another run active or
    the process lock taken; Stop waits for the loop, and the loop for every launch it made. */
module SyncScheduler {
  import opened Arithmetic
  import opened Options

  type Generation = nat

  // ----- Delays -----

  newtype Int64 = x: int | -0x8000_0000_0000_0000 <= x < 0x8000_0000_0000_0000

  /** Go's remainder: it takes the sign of the dividend. */
  function Remainder(n: int, d: int): int
    requires d > 0
  {
    if n >= 0 then n % d else -((-n) % d)
  }

  function NextDelay(interval: Int64, jitter: Int64, unixNano: Int64): int {
    if jitter <= 0 then interval as int
    else Wrap64(interval as int + Remainder(unixNano as int, jitter as int))
  }

  /** The delay lies in [interval, interval + jitter) exactly when the clock reads no earlier than 1970, or a
      multiple of the jitter before it, and the sum does not overflow 64 bits. */
  lemma DelayInWindowIff(interval: Int64, jitter: Int64, unixNano: Int64)
    requires jitter > 0
    ensures interval as int <= NextDelay(interval, jitter, unixNano) < interval as int + jitter as int
       <==> (unixNano >= 0 || (-(unixNano as int)) % jitter as int == 0)
            && interval as int + Remainder(unixNano as int, jitter as int) < TWO_63
  {
    var r := Remainder(unixNano as int, jitter as int);
    assert -(jitter as int) < r < jitter as int;
    assert r < 0 <==> unixNano < 0 && (-(unixNano as int)) % jitter as int != 0;
  }

  /** Without jitter the delay is the interval; with it, in the window, the interval plus the reading's remainder. */
  lemma DelayExactly(interval: Int64, jitter: Int64, unixNano: Int64)
    ensures jitter <= 0 ==> NextDelay(interval, jitter, unixNano) == interval as int
    ensures jitter > 0 && unixNano >= 0 && interval as int + unixNano as int % jitter as int < TWO_63 ==>
              NextDelay(interval, jitter, unixNano) == interval as int + unixNano as int % jitter as int
  {}

  lemma DelayBeforeEpoch()
    ensures NextDelay(10, 4, -1) == 9
  {}

  lemma DelayOverflows()
    ensures NextDelay(0x7fff_ffff_ffff_ffff, 4, 1) == -TWO_63
  {}

  // ----- The mutex-protected fields -----

  /** `loop` stands for the cancel function and done channel, which are set and cleared together. */
  datatype Core = Core(running: bool, loop: Option<Generation>, made: nat)

  const FRESH := Core(false, None, 0)

  function Started(c: Core): Core { if c.loop.Some? then c else c.(loop := Some(c.made), made := c.made + 1) }

  function Stopped(c: Core, waitedFor: Option<Generation>): Core { if c.loop == waitedFor then c.(loop := None) else c }

  class Scheduler {
    var running: bool
    var loop: Option<Generation>
    var made: nat

    ghost function View(): Core
      reads this
    {
      Core(running, loop, made)
    }

    constructor ()
      ensures View() == FRESH
    {
      running, loop, made := false, None, 0;
    }

    method Start() returns (spawned: Option<Generation>)
      modifies this
      ensures View() == Started(old(View())) && spawned == if old(loop).None? then loop else None
    {
      if loop.Some? {
        return None;
      }
      loop := Some(made);
      made := made + 1;
      return loop;
    }

    method FinishStop(waitedFor: Option<Generation>)
      modifies this`loop
      ensures View() == Stopped(old(View()), waitedFor)
    {
      if loop == waitedFor {
        loop := None;
      }
    }

    /** `locked` is the answer of the process-wide sync lock, asked only when no run is active. */
    method TryRun(locked: bool) returns (actual: bool)
      modifies this`running
      ensures actual == (!old(running) && locked) && running == (old(running) || locked)
    {
      if running {
        return false;
      }
      if !locked {
        return false;
      }
      running := true;
      return true;
    }
  }

  // ----- All interleavings -----

  datatype Outcome = Outcome(status: string, error: int)

  /** A launched goroutine: waiting to run, running, run settled but not yet released, before and inside postRun. */
  datatype Phase =
    | Launched
    | Running
    | Settled(outcome: Outcome)
    | Released(outcome: Outcome)
    | Posting(outcome: Outcome)

  datatype Launch = Launch(loop: Generation, phase: Phase)

  datatype LoopPhase = Looping | Joining

  /** `live` are the launches not yet finished, `launched` all launch ids;
      `ran`, `posts` and `skips` log what became of them. */
  datatype Process = Process(
    c: Core, loops: map<Generation, LoopPhase>, live: map<nat, Launch>, stops: map<nat, Option<Generation>>,
    launched: set<nat>, ran: map<nat, Outcome>, posts: multiset<(nat, Outcome)>, skips: set<nat>)

  const BOOT := Process(FRESH, map[], map[], map[], {}, map[], multiset{}, {})

  datatype Event =
    | Start
    | LaunchRun(loop: Generation, id: nat)
    | TryRun(id: nat, locked: bool)
    | SyncReturns(id: nat, outcome: Outcome)
    | Release(id: nat)
    | Post(id: nat)
    | PostReturns(id: nat)
    | LeaveLoop(loop: Generation)
    | CloseLoop(loop: Generation)
    | BeginStop(stop: nat)
    | StopReturns(stop: nat)

  predicate AllJoined(p: Process, g: Generation) { forall id :: id in p.live ==> p.live[id].loop != g }

  predicate Enabled(p: Process, e: Event) {
    match e
    case Start => true
    case LaunchRun(g, id) => g in p.loops && p.loops[g] == Looping && id !in p.launched
    case TryRun(id, _) => id in p.live && p.live[id].phase == Launched
    case SyncReturns(id, _) => id in p.live && p.live[id].phase == Running
    case Release(id) => id in p.live && p.live[id].phase.Settled?
    case Post(id) => id in p.live && p.live[id].phase.Released?
    case PostReturns(id) => id in p.live && p.live[id].phase.Posting?
    case LeaveLoop(g) => g in p.loops && p.loops[g] == Looping
    case CloseLoop(g) => g in p.loops && p.loops[g] == Joining && AllJoined(p, g)
    case BeginStop(stop) => stop !in p.stops
    case StopReturns(stop) => stop in p.stops && (p.stops[stop].Some? ==> p.stops[stop].value !in p.loops)
  }

  function Moved(p: Process, id: nat, phase: Phase): map<nat, Launch>
    requires id in p.live
  {
    p.live[id := p.live[id].(phase := phase)]
  }

  function Next(p: Process, e: Event): Process
    requires Enabled(p, e)
  {
    match e
    case Start => p.(c := Started(p.c), loops := if p.c.loop.Some? then p.loops else p.loops[p.c.made := Looping])
    case LaunchRun(g, id) => p.(live := p.live[id := Launch(g, Launched)], launched := p.launched + {id})
    case TryRun(id, locked) =>
      if !p.c.running && locked then p.(c := p.c.(running := true), live := Moved(p, id, Running))
      else p.(live := p.live - {id}, skips := p.skips + {id})
    case SyncReturns(id, outcome) => p.(live := Moved(p, id, Settled(outcome)), ran := p.ran[id := outcome])
    case Release(id) => p.(c := p.c.(running := false), live := Moved(p, id, Released(p.live[id].phase.outcome)))
    case Post(id) =>
      var outcome := p.live[id].phase.outcome;
      p.(live := Moved(p, id, Posting(outcome)), posts := p.posts + multiset{(id, outcome)})
    case PostReturns(id) => p.(live := p.live - {id})
    case LeaveLoop(g) => p.(loops := p.loops[g := Joining])
    case CloseLoop(g) => p.(loops := p.loops - {g})
    case BeginStop(stop) => p.(stops := p.stops[stop := p.c.loop])
    case StopReturns(stop) => p.(c := Stopped(p.c, p.stops[stop]), stops := p.stops - {stop})
  }

  predicate Active(l: Launch) { l.phase == Running || l.phase.Settled? }

  /** A launch's place in the logs follows from its phase. */
  ghost predicate LaunchInvariant(p: Process, id: nat)
    requires id in p.live
  {
    var l := p.live[id];
    && id in p.launched && l.loop in p.loops && id !in p.skips
    && (l.phase == Launched || l.phase == Running ==> id !in p.ran)
    && (!(l.phase == Launched || l.phase == Running) ==> id in p.ran && p.ran[id] == l.phase.outcome)
  }

  /** A run is posted once, with its own outcome, as soon as postRun is called for it; nothing else is posted. */
  ghost predicate PostInvariant(p: Process) {
    forall id, outcome :: p.posts[(id, outcome)] ==
      if id in p.ran && p.ran[id] == outcome && (id in p.live ==> p.live[id].phase.Posting?) then 1 else 0
  }

  /** One launch is active at most, and one is exactly when `running` is set. */
  ghost predicate RunningMatches(p: Process) {
    && (forall i, j :: i in p.live && j in p.live && Active(p.live[i]) && Active(p.live[j]) ==> i == j)
    && (p.c.running <==> exists id :: id in p.live && Active(p.live[id]))
  }

  ghost predicate Invariant(p: Process) {
    && (forall id :: id in p.live ==> LaunchInvariant(p, id))
    && (forall id :: id in p.launched ==> id in p.live || id in p.skips || id in p.ran)
    && (forall id :: id in p.ran ==> id in p.launched && id !in p.skips)
    && (forall id :: id in p.skips ==> id in p.launched)
    && RunningMatches(p)
    && (forall g :: g in p.loops ==> p.c.loop == Some(g))
    && (forall k :: k in p.stops && p.stops[k].Some? && p.stops[k].value in p.loops ==> p.c.loop == p.stops[k])
    && (p.c.loop.Some? ==> p.c.loop.value < p.c.made)
  }

  lemma RunStepKeepsInvariant(p: Process, e: Event)
    requires Invariant(p) && Enabled(p, e) && (e.TryRun? || e.SyncReturns? || e.Release?)
    ensures Invariant(Next(p, e))
  {
    var p' := Next(p, e);
    assert LaunchInvariant(p, e.id);
    forall id | id in p'.live ensures LaunchInvariant(p', id) { assert LaunchInvariant(p, id); }
    RunStepKeepsRunning(p, e);
  }

  lemma RunStepKeepsRunning(p: Process, e: Event)
    requires RunningMatches(p) && Enabled(p, e) && (e.TryRun? || e.SyncReturns? || e.Release?)
    ensures RunningMatches(Next(p, e))
  {
    var p' := Next(p, e);
    if e.TryRun? {
      if e.id in p'.live { assert Active(p'.live[e.id]); }
      if p.c.running {
        var id :| id in p.live && Active(p.live[id]);
        assert id in p'.live && Active(p'.live[id]);
      }
    } else {
      assert Active(p.live[e.id]);
      if e.SyncReturns? { assert Active(p'.live[e.id]); }
    }
  }

  lemma LaunchStepKeepsInvariant(p: Process, e: Event)
    requires Invariant(p) && Enabled(p, e) && (e.LaunchRun? || e.Post? || e.PostReturns?)
    ensures Invariant(Next(p, e))
  {
    var p' := Next(p, e);
    if e.id in p.live { assert LaunchInvariant(p, e.id); }
    forall id | id in p'.live ensures LaunchInvariant(p', id) { if id in p.live { assert LaunchInvariant(p, id); } }
    LaunchStepKeepsRunning(p, e);
  }

  lemma LaunchStepKeepsRunning(p: Process, e: Event)
    requires RunningMatches(p) && Enabled(p, e) && (e.LaunchRun? || e.Post? || e.PostReturns?)
    requires e.LaunchRun? ==> e.id !in p.live
    ensures RunningMatches(Next(p, e))
  {
    var p' := Next(p, e);
    if p.c.running {
      var id :| id in p.live && Active(p.live[id]);
      assert id in p'.live && Active(p'.live[id]);
    }
  }

  lemma LoopStepKeepsInvariant(p: Process, e: Event)
    requires Invariant(p) && Enabled(p, e) &&
             (e.Start? || e.LeaveLoop? || e.CloseLoop? || e.BeginStop? || e.StopReturns?)
    ensures Invariant(Next(p, e))
  {
    var p' := Next(p, e);
    assert p'.live == p.live && p'.c.running == p.c.running;
    forall id | id in p'.live ensures LaunchInvariant(p', id) { assert LaunchInvariant(p, id); }
  }

  lemma NextKeepsInvariant(p: Process, e: Event)
    requires Invariant(p) && Enabled(p, e)
    ensures Invariant(Next(p, e))
  {
    if e.TryRun? || e.SyncReturns? || e.Release? {
      RunStepKeepsInvariant(p, e);
    } else if e.LaunchRun? || e.Post? || e.PostReturns? {
      LaunchStepKeepsInvariant(p, e);
    } else {
      LoopStepKeepsInvariant(p, e);
    }
  }

  lemma NextKeepsPosts(p: Process, e: Event)
    requires Invariant(p) && PostInvariant(p) && Enabled(p, e)
    ensures PostInvariant(Next(p, e))
  {
    var p' := Next(p, e);
    forall id, outcome
      ensures p'.posts[(id, outcome)] ==
        if id in p'.ran && p'.ran[id] == outcome && (id in p'.live ==> p'.live[id].phase.Posting?) then 1 else 0
    {
      if id in p.live { assert LaunchInvariant(p, id); }
      assert p.posts[(id, outcome)] ==
        if id in p.ran && p.ran[id] == outcome && (id in p.live ==> p.live[id].phase.Posting?) then 1 else 0;
    }
  }

  ghost predicate Reaches(from: Process, schedule: seq<Event>, p: Process)
    decreases schedule
  {
    if schedule == [] then p == from
    else Enabled(from, schedule[0]) && Reaches(Next(from, schedule[0]), schedule[1..], p)
  }

  lemma {:induction false} ReachableInvariant(from: Process, schedule: seq<Event>, p: Process)
    requires Invariant(from) && PostInvariant(from) && Reaches(from, schedule, p)
    ensures Invariant(p) && PostInvariant(p)
    decreases schedule
  {
    if schedule != [] {
      NextKeepsInvariant(from, schedule[0]);
      NextKeepsPosts(from, schedule[0]);
      ReachableInvariant(Next(from, schedule[0]), schedule[1..], p);
    }
  }

  /** At most one launch is actually running, over all launches of all loops. */
  lemma RunsNeverOverlap(schedule: seq<Event>, p: Process, i: nat, j: nat)
    requires Reaches(BOOT, schedule, p)
    requires i in p.live && j in p.live && Active(p.live[i]) && Active(p.live[j])
    ensures i == j && p.c.running
  {
    ReachableInvariant(BOOT, schedule, p);
  }

  /** Every finished launch either was skipped and posted nothing, or ran and was posted once, with its own outcome. */
  lemma OnePostPerActualRun(schedule: seq<Event>, p: Process, id: nat)
    requires Reaches(BOOT, schedule, p) && id in p.launched && id !in p.live
    ensures id in p.skips <==> id !in p.ran
    ensures forall outcome :: p.posts[(id, outcome)] == if id in p.ran && p.ran[id] == outcome then 1 else 0
  {
    ReachableInvariant(BOOT, schedule, p);
  }

  /** When Stop returns, anything still in flight belongs to a loop started after that Stop began. */
  lemma StopReallyWaits(schedule: seq<Event>, p: Process, stop: nat)
    requires Reaches(BOOT, schedule, p) && Enabled(p, StopReturns(stop))
    ensures p.c.loop == p.stops[stop] ==> p.live == map[]
    ensures forall id :: id in p.live ==> p.c.loop == Some(p.live[id].loop) && p.stops[stop] != Some(p.live[id].loop)
  {
    ReachableInvariant(BOOT, schedule, p);
    forall id | id in p.live
      ensures p.c.loop == Some(p.live[id].loop) && p.stops[stop] != Some(p.live[id].loop)
    {
      assert LaunchInvariant(p, id);
    }
    assert p.c.loop == p.stops[stop] ==> forall id :: id !in p.live;
  }

  /** And with no Start since the Stop began, nothing at all is in flight when it returns. */
  lemma {:induction false} StopWithoutStartLeavesNothing(from: Process, schedule: seq<Event>, p: Process, stop: nat)
    requires Invariant(from) && Reaches(from, schedule, p)
    requires stop in from.stops && (from.c.loop == from.stops[stop] || from.c.loop == None)
    requires forall e :: e in schedule ==> !e.Start? && e != StopReturns(stop)
    ensures stop in p.stops && Invariant(p) && (p.c.loop == p.stops[stop] || p.c.loop == None)
    ensures Enabled(p, StopReturns(stop)) ==> p.live == map[]
    decreases schedule
  {
    if schedule != [] {
      assert schedule[0] in schedule;
      NextKeepsInvariant(from, schedule[0]);
      forall e | e in schedule[1..] ensures !e.Start? && e != StopReturns(stop) { assert e in schedule; }
      StopWithoutStartLeavesNothing(Next(from, schedule[0]), schedule[1..], p, stop);
    } else {
      forall id | id in p.live ensures LaunchInvariant(p, id) {}
      if Enabled(p, StopReturns(stop)) { assert forall id :: id !in p.live; }
    }
  }

  /** When a Stop returns, its loop is gone from the fields, and with no other loop started meanwhile the next Start
      makes one again, which launches runs. */
  lemma StopAllowsRestart(schedule: seq<Event>, p: Process, stop: nat, id: nat)
    requires Reaches(BOOT, schedule, p) && Enabled(p, StopReturns(stop))
    ensures var q := Next(p, StopReturns(stop));
      && (p.stops[stop].Some? ==> q.c.loop != p.stops[stop])
      && (q.c.loop == None ==>
            var r := Next(q, Start);
            && r.c.loop == Some(p.c.made) && p.c.made !in p.loops && r.loops == p.loops[p.c.made := Looping]
            && (id !in p.launched ==> Enabled(r, LaunchRun(p.c.made, id))))
  {
    ReachableInvariant(BOOT, schedule, p);
  }

  /** A launch becomes an actual run exactly when no launch is running and the process lock is free; otherwise it is
      skipped, and nothing else changes. */
  lemma TryRunDecides(schedule: seq<Event>, p: Process, id: nat, locked: bool)
    requires Reaches(BOOT, schedule, p) && Enabled(p, TryRun(id, locked))
    ensures var q, busy := Next(p, TryRun(id, locked)), exists k :: k in p.live && Active(p.live[k]);
      && (locked && !busy ==> q.live == p.live[id := p.live[id].(phase := Running)] && q.skips == p.skips)
      && (busy || !locked ==> q.live == p.live - {id} && q.skips == p.skips + {id})
      && q.posts == p.posts && q.ran == p.ran
  {
    ReachableInvariant(BOOT, schedule, p);
  }

  /** An actual run goes on to its post: the sync's own outcome is kept and posted, and the launch is done. */
  lemma RunGoesOn(p: Process, id: nat, outcome: Outcome)
    requires id in p.live
    ensures p.live[id].phase == Running ==>
              Next(p, SyncReturns(id, outcome)).live[id].phase == Settled(outcome)
    ensures p.live[id].phase == Settled(outcome) ==> Next(p, Release(id)).live[id].phase == Released(outcome)
    ensures p.live[id].phase == Released(outcome) ==>
              var q := Next(p, Post(id));
              q.live[id].phase == Posting(outcome) && q.posts == p.posts + multiset{(id, outcome)}
    ensures p.live[id].phase == Posting(outcome) ==> id !in Next(p, PostReturns(id)).live
  {}

  /** A run that has settled frees the slot, before it is posted: the next launch may run. */
  lemma ReleaseFreesSlot(schedule: seq<Event>, p: Process, id: nat)
    requires Reaches(BOOT, schedule, p) && Enabled(p, Release(id))
    ensures var q := Next(p, Release(id)); forall k :: k in q.live ==> !Active(q.live[k])
  {
    ReachableInvariant(BOOT, schedule, p);
    assert Active(p.live[id]);
  }
}

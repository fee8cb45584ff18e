/** The audit scheduler's lifecycle (internal/app/audit_scheduler.go): Start, any number of Stops, the interval
    loop and the post-sync runs interleave; Stop waits for the run in flight through a shared channel. */
module AuditScheduler {
  import opened Options

  type Channel = nat

  /** What the mutex protects. `loop` stands for the cancel function and done channel that are set and cleared
      together; `made` and `closes` record the channels made and closed so far. */
  datatype Core = Core(
    running: bool, active: int, stopping: bool, activeDone: Option<Channel>, loop: Option<Channel>,
    made: nat, closes: multiset<Channel>)

  const FRESH := Core(false, 0, false, None, None, 0, multiset{})

  function Started(c: Core): Core {
    if c.loop.Some? then c else c.(loop := Some(c.made), stopping := false, made := c.made + 1)
  }

  predicate Admits(c: Core) { !c.stopping && !c.running }

  function RunBegun(c: Core): Core { if Admits(c) then c.(running := true, active := c.active + 1) else c }

  function RunEnded(c: Core): Core {
    var d := c.(running := false, active := c.active - 1);
    if d.stopping && d.active == 0 && d.activeDone.Some? then
      d.(closes := d.closes + multiset{d.activeDone.value}, activeDone := None)
    else d
  }

  function StopBegun(c: Core): Core {
    var d := c.(stopping := true);
    if d.active == 0 then d.(made := d.made + 1, closes := d.closes + multiset{d.made})
    else if d.activeDone.None? then d.(made := d.made + 1, activeDone := Some(d.made))
    else d
  }

  /** The channel a Stop that finds the scheduler in state `c` will wait on. */
  function StopWaitsOn(c: Core): Channel {
    if c.active == 0 || c.activeDone.None? then c.made else c.activeDone.value
  }

  function LoopCleared(c: Core, done: Channel): Core { if c.loop == Some(done) then c.(loop := None) else c }

  function LoopClosed(c: Core, done: Channel): Core { c.(closes := c.closes + multiset{done}) }

  class Scheduler {
    var running: bool
    var active: int
    var stopping: bool
    var activeDone: Option<Channel>
    var loop: Option<Channel>
    var made: nat
    ghost var closes: multiset<Channel>

    ghost function View(): Core
      reads this
    {
      Core(running, active, stopping, activeDone, loop, made, closes)
    }

    constructor ()
      ensures View() == FRESH
    {
      running, active, stopping, activeDone, loop, made := false, 0, false, None, None, 0;
      closes := multiset{};
    }

    method Start() returns (spawned: Option<Channel>)
      modifies this
      ensures View() == Started(old(View()))
      ensures spawned == if old(loop).None? then loop else None
    {
      if loop.Some? {
        return None;
      }
      loop := Some(made);
      stopping := false;
      made := made + 1;
      return loop;
    }

    method BeginRun() returns (admitted: bool)
      modifies this
      ensures View() == RunBegun(old(View())) && admitted == Admits(old(View()))
    {
      if stopping || running {
        return false;
      }
      active := active + 1;
      running := true;
      return true;
    }

    method EndRun()
      modifies this
      ensures View() == RunEnded(old(View()))
    {
      running := false;
      active := active - 1;
      if stopping && active == 0 && activeDone.Some? {
        closes := closes + multiset{activeDone.value};
        activeDone := None;
      }
    }

    method BeginStop() returns (wait: Channel, done: Option<Channel>)
      modifies this
      ensures View() == StopBegun(old(View()))
      ensures wait == StopWaitsOn(old(View())) && done == old(loop)
    {
      stopping := true;
      done := loop;
      if active == 0 {
        wait := made;
        made := made + 1;
        closes := closes + multiset{wait};
      } else if activeDone.None? {
        wait := made;
        made := made + 1;
        activeDone := Some(wait);
      } else {
        wait := activeDone.value;
      }
    }

    method ClearLoop(done: Channel)
      modifies this`loop
      ensures View() == LoopCleared(old(View()), done)
    {
      if loop == Some(done) {
        loop := None;
      }
    }
  }

  // ----- All interleavings -----

  datatype LoopPhase = Looping | Cleared

  /** The thread a run executes on: an interval loop or the caller of AfterSync. */
  datatype Runner = OnLoop(done: Channel) | AfterSync

  datatype Waiting = Waiting(done: Option<Channel>, activeDone: Channel)

  datatype Process = Process(c: Core, loops: map<Channel, LoopPhase>, runs: map<nat, Runner>, stops: map<nat, Waiting>)

  const BOOT := Process(FRESH, map[], map[], map[])

  datatype Event =
    | Start
    | BeginRun(run: nat, on: Runner)
    | EndRun(run: nat)
    | BeginStop(stop: nat)
    | StopReturns(stop: nat)
    | ClearLoop(done: Channel)     // the loop's context is done and it leaves, clearing the fields
    | CloseLoop(done: Channel)

  predicate Idle(p: Process, done: Channel) { forall r :: r in p.runs ==> p.runs[r] != OnLoop(done) }

  predicate Enabled(p: Process, e: Event) {
    match e
    case Start => true
    case BeginRun(run, on) => run !in p.runs &&
      (on.OnLoop? ==> on.done in p.loops && p.loops[on.done] == Looping && Idle(p, on.done))
    case EndRun(run) => run in p.runs
    case BeginStop(stop) => stop !in p.stops
    case StopReturns(stop) =>
      && stop in p.stops && p.c.closes[p.stops[stop].activeDone] > 0
      && (p.stops[stop].done.Some? ==> p.c.closes[p.stops[stop].done.value] > 0)
    case ClearLoop(done) => done in p.loops && p.loops[done] == Looping && Idle(p, done)
    case CloseLoop(done) => done in p.loops && p.loops[done] == Cleared
  }

  function Next(p: Process, e: Event): Process
    requires Enabled(p, e)
  {
    match e
    case Start => p.(c := Started(p.c), loops := if p.c.loop.Some? then p.loops else p.loops[p.c.made := Looping])
    case BeginRun(run, on) => p.(c := RunBegun(p.c), runs := if Admits(p.c) then p.runs[run := on] else p.runs)
    case EndRun(run) => p.(c := RunEnded(p.c), runs := p.runs - {run})
    case BeginStop(stop) => p.(c := StopBegun(p.c), stops := p.stops[stop := Waiting(p.c.loop, StopWaitsOn(p.c))])
    case StopReturns(stop) => p.(stops := p.stops - {stop})
    case ClearLoop(done) => p.(c := LoopCleared(p.c, done), loops := p.loops[done := Cleared])
    case CloseLoop(done) => p.(c := LoopClosed(p.c, done), loops := p.loops - {done})
  }

  /** Holds in every interleaving: running means exactly one run; a channel is closed at most once, and one that
      somebody will still close has not been closed; the loop that goes on is the one the fields name. */
  ghost predicate Invariant(p: Process) {
    && p.c.active == |p.runs| && p.c.active <= 1 && (p.c.running <==> p.c.active == 1)
    && (forall ch :: p.c.closes[ch] <= 1 && (ch >= p.c.made ==> p.c.closes[ch] == 0))
    && (forall d :: d in p.loops ==> d < p.c.made && p.c.closes[d] == 0 && p.c.activeDone != Some(d))
    && (forall d :: d in p.loops && p.loops[d] == Looping ==> p.c.loop == Some(d))
    && (p.c.activeDone.Some? ==> p.c.activeDone.value < p.c.made && p.c.closes[p.c.activeDone.value] == 0)
    && (p.c.loop.Some? ==> p.c.loop.value in p.loops && p.loops[p.c.loop.value] == Looping)
  }

  /** What a waiting Stop relies on: `stopping` holds, and its channels are closed or will be. */
  ghost predicate Served(p: Process, stop: nat)
    requires stop in p.stops
  {
    var w := p.stops[stop];
    && p.c.stopping
    && (p.c.closes[w.activeDone] > 0 ==> p.c.active == 0)
    && (p.c.closes[w.activeDone] == 0 ==> p.c.activeDone == Some(w.activeDone) && p.c.active == 1)
    && (w.done.Some? ==> p.c.closes[w.done.value] > 0 || w.done.value in p.loops)
  }

  lemma RunStepKeepsInvariant(p: Process, e: Event)
    requires Invariant(p) && Enabled(p, e) && (e.BeginRun? || e.EndRun?)
    ensures Invariant(Next(p, e))
  {}

  lemma OtherStepKeepsInvariant(p: Process, e: Event)
    requires Invariant(p) && Enabled(p, e) && !e.BeginRun? && !e.EndRun?
    ensures Invariant(Next(p, e))
  {}

  lemma NextKeepsInvariant(p: Process, e: Event)
    requires Invariant(p) && Enabled(p, e)
    ensures Invariant(Next(p, e))
  {
    if e.BeginRun? || e.EndRun? { RunStepKeepsInvariant(p, e); } else { OtherStepKeepsInvariant(p, e); }
  }

  /** A Start that finds a loop does nothing; any other one takes effect. */
  predicate TakesEffect(p: Process, e: Event) { e.Start? && p.c.loop.None? }

  lemma BeginStopIsServed(p: Process, stop: nat)
    requires Invariant(p) && Enabled(p, BeginStop(stop))
    ensures Served(Next(p, BeginStop(stop)), stop)
  {}

  /** Every step but a Start that takes effect keeps a waiting Stop served, whatever other Stops do. */
  lemma NextServes(p: Process, e: Event, stop: nat)
    requires Invariant(p) && Enabled(p, e) && stop in p.stops && Served(p, stop)
    requires e != StopReturns(stop) && !TakesEffect(p, e)
    ensures stop in Next(p, e).stops && Served(Next(p, e), stop)
  {}

  ghost predicate Reaches(from: Process, schedule: seq<Event>, p: Process)
    decreases schedule
  {
    if schedule == [] then p == from
    else Enabled(from, schedule[0]) && Reaches(Next(from, schedule[0]), schedule[1..], p)
  }

  lemma {:induction false} ReachableInvariant(from: Process, schedule: seq<Event>, p: Process)
    requires Invariant(from) && Reaches(from, schedule, p)
    ensures Invariant(p)
    decreases schedule
  {
    if schedule != [] {
      NextKeepsInvariant(from, schedule[0]);
      ReachableInvariant(Next(from, schedule[0]), schedule[1..], p);
    }
  }

  /** In every interleaving whatsoever: Running iff one run is active, never two, and no channel is closed twice. */
  lemma NoOverlapNoDoubleClose(schedule: seq<Event>, p: Process)
    requires Reaches(BOOT, schedule, p)
    ensures p.c.running <==> p.c.active == 1
    ensures p.c.active == |p.runs| <= 1
    ensures forall ch :: p.c.closes[ch] <= 1
  {
    ReachableInvariant(BOOT, schedule, p);
  }

  /** A run is admitted exactly when none is active and no Stop came after the last effective Start; a refused one
      changes nothing. */
  lemma RunAdmittedIff(schedule: seq<Event>, p: Process, run: nat, on: Runner)
    requires Reaches(BOOT, schedule, p) && Enabled(p, BeginRun(run, on))
    ensures var q := Next(p, BeginRun(run, on));
      && (p.runs == map[] && !p.c.stopping ==> q.runs == map[run := on] && q.c.active == 1)
      && (p.runs != map[] || p.c.stopping ==> q == p)
  {
    ReachableInvariant(BOOT, schedule, p);
    if p.runs != map[] { var r :| r in p.runs; }
  }

  /** A Stop closes the door and an effective Start opens it, with a new loop; nothing else touches it. */
  lemma DoorFollowsStartAndStop(schedule: seq<Event>, p: Process, e: Event)
    requires Reaches(BOOT, schedule, p) && Enabled(p, e)
    ensures e.BeginStop? ==> Next(p, e).c.stopping
    ensures TakesEffect(p, e) ==>
              var q := Next(p, e);
              && !q.c.stopping && q.c.loop == Some(p.c.made)
              && p.c.made !in p.loops && q.loops == p.loops[p.c.made := Looping]
    ensures !e.BeginStop? && !TakesEffect(p, e) ==> Next(p, e).c.stopping == p.c.stopping
    ensures e.ClearLoop? ==> Next(p, e).c.loop == None
  {
    ReachableInvariant(BOOT, schedule, p);
  }

  // ----- Stop really waits -----

  /** No Start in the schedule takes effect. */
  ghost predicate Quiet(from: Process, schedule: seq<Event>)
    decreases schedule
  {
    schedule == [] ||
    (Enabled(from, schedule[0]) && !TakesEffect(from, schedule[0]) && Quiet(Next(from, schedule[0]), schedule[1..]))
  }

  lemma {:induction false} QuietServes(from: Process, schedule: seq<Event>, p: Process, stop: nat)
    requires Invariant(from) && stop in from.stops && Served(from, stop)
    requires Reaches(from, schedule, p) && Quiet(from, schedule) && StopReturns(stop) !in schedule
    ensures Invariant(p) && stop in p.stops && Served(p, stop)
    decreases schedule
  {
    if schedule != [] {
      assert schedule[0] in schedule;
      NextKeepsInvariant(from, schedule[0]);
      NextServes(from, schedule[0], stop);
      QuietServes(Next(from, schedule[0]), schedule[1..], p, stop);
    }
  }

  /** `stop` began in the reachable state `from` and still waits in `p`, with no Start taking effect since. Before it
      began, anything may have happened: Starts that overlapped other Stops included. */
  ghost predicate WaitsUndisturbed(before: seq<Event>, from: Process, stop: nat, during: seq<Event>, p: Process) {
    && Reaches(BOOT, before, from) && Enabled(from, BeginStop(stop))
    && Reaches(Next(from, BeginStop(stop)), during, p) && Quiet(Next(from, BeginStop(stop)), during)
    && StopReturns(stop) !in during
  }

  lemma UndisturbedIsServed(before: seq<Event>, from: Process, stop: nat, during: seq<Event>, p: Process)
    requires WaitsUndisturbed(before, from, stop, during, p)
    ensures Invariant(p) && stop in p.stops && Served(p, stop)
  {
    ReachableInvariant(BOOT, before, from);
    NextKeepsInvariant(from, BeginStop(stop));
    BeginStopIsServed(from, stop);
    QuietServes(Next(from, BeginStop(stop)), during, p, stop);
  }

  /** Once stopping with no run active, none begins before a Start takes effect. */
  lemma {:induction false} StoppedStaysStopped(from: Process, schedule: seq<Event>, p: Process)
    requires Invariant(from) && from.c.stopping && from.c.active == 0
    requires Reaches(from, schedule, p) && Quiet(from, schedule)
    ensures p.c.stopping && p.runs == map[]
    decreases schedule
  {
    if schedule != [] {
      NextKeepsInvariant(from, schedule[0]);
      StoppedStaysStopped(Next(from, schedule[0]), schedule[1..], p);
    }
  }

  /** When a Stop returns no run is active, and none is until a Start takes effect. */
  lemma StopReallyWaits(before: seq<Event>, from: Process, stop: nat, during: seq<Event>, p: Process,
                        later: seq<Event>, q: Process)
    requires WaitsUndisturbed(before, from, stop, during, p) && Enabled(p, StopReturns(stop))
    requires Reaches(Next(p, StopReturns(stop)), later, q) && Quiet(Next(p, StopReturns(stop)), later)
    ensures p.runs == map[] && q.runs == map[]
  {
    UndisturbedIsServed(before, from, stop, during, p);
    NextKeepsInvariant(p, StopReturns(stop));
    StoppedStaysStopped(Next(p, StopReturns(stop)), later, q);
  }

  /** And it does return: when runs and loops have nothing left to do, it is not left waiting. */
  lemma NoStopIsStuck(before: seq<Event>, from: Process, stop: nat, during: seq<Event>, p: Process)
    requires WaitsUndisturbed(before, from, stop, during, p)
    requires forall r :: !Enabled(p, EndRun(r))
    requires forall d :: !Enabled(p, ClearLoop(d)) && !Enabled(p, CloseLoop(d))
    ensures Enabled(p, StopReturns(stop))
  {
    UndisturbedIsServed(before, from, stop, during, p);
    assert p.runs == map[] by { forall r ensures r !in p.runs { assert !Enabled(p, EndRun(r)); } }
    assert p.loops == map[] by {
      forall d ensures d !in p.loops { assert !Enabled(p, ClearLoop(d)) && !Enabled(p, CloseLoop(d)); }
    }
  }

  // ----- When a Start inside a waiting Stop does harm -----

  /** What Stop promises is broken: it may return while a run is active, or no run is active and it waits for one. */
  ghost predicate Broken(p: Process, stop: nat)
    requires stop in p.stops
  {
    || (Enabled(p, StopReturns(stop)) && p.runs != map[])
    || (p.runs == map[] && p.c.closes[p.stops[stop].activeDone] == 0)
  }

  /** `schedule` leads from `from` to a broken Stop, without its returning and without a further Start. */
  ghost predicate Breaks(from: Process, schedule: seq<Event>, p: Process, stop: nat) {
    && Reaches(from, schedule, p) && Quiet(from, schedule) && StopReturns(stop) !in schedule
    && stop in p.stops && Broken(p, stop)
  }

  /** A Start that comes while a Stop waits is harmless exactly when it finds a loop; otherwise it has already broken
      what that Stop promises, on a schedule that needs no further Start. */
  lemma StartHarmlessIff(before: seq<Event>, from: Process, stop: nat, during: seq<Event>, p: Process)
    requires WaitsUndisturbed(before, from, stop, during, p)
    ensures (forall schedule, q :: !Breaks(Next(p, Start), schedule, q, stop)) <==> p.c.loop.Some?
  {
    UndisturbedIsServed(before, from, stop, during, p);
    if p.c.loop.Some? {
      assert Next(p, Start) == p;
      forall schedule, q ensures !Breaks(p, schedule, q, stop) {
        if Breaks(p, schedule, q, stop) { QuietServes(p, schedule, q, stop); }
      }
    } else if p.c.active == 0 {
      var schedule, q := StartBreaksIdle(p, stop);
    } else {
      var schedule, q := StartBreaksActive(p, stop);
    }
  }

  lemma {:induction false} FreshRun(runs: map<nat, Runner>) returns (run: nat)
    ensures run !in runs && forall r :: r in runs ==> r < run
    decreases |runs|
  {
    run := 0;
    if runs != map[] {
      var r :| r in runs;
      var other := FreshRun(runs - {r});
      run := if r < other then other else r + 1;
      assert forall k :: k in runs ==> k == r || k in runs - {r};
    }
  }

  /** With no run active the Start admits one, and nothing keeps the Stop from returning meanwhile. */
  lemma StartBreaksIdle(p: Process, stop: nat) returns (schedule: seq<Event>, q: Process)
    requires Invariant(p) && stop in p.stops && Served(p, stop) && p.c.loop.None? && p.c.active == 0
    ensures Breaks(Next(p, Start), schedule, q, stop)
  {
    var run := FreshRun(p.runs);
    var begin, p1, w := BeginRun(run, AfterSync), Next(p, Start), p.stops[stop];
    var p2 := Next(p1, begin);
    assert run in p2.runs;
    schedule, q := [begin], p2;
    OneStep(p1, begin);
    if w.done.Some? && p2.c.closes[w.done.value] == 0 {
      var close := CloseLoop(w.done.value);
      q := Next(p2, close);
      schedule := [begin, close];
      OneStep(p2, close);
      assert schedule[1..] == [close];
    }
  }

  /** With a run active the Start makes it end without releasing the Stop. */
  lemma StartBreaksActive(p: Process, stop: nat) returns (schedule: seq<Event>, q: Process)
    requires Invariant(p) && stop in p.stops && Served(p, stop) && p.c.loop.None? && p.c.active == 1
    ensures Breaks(Next(p, Start), schedule, q, stop)
  {
    var run :| run in p.runs;
    var end, p1 := EndRun(run), Next(p, Start);
    q := Next(p1, end);
    assert |q.runs| == 0;
    schedule := [end];
    OneStep(p1, end);
  }

  lemma OneStep(from: Process, e: Event)
    requires Enabled(from, e) && !TakesEffect(from, e)
    ensures Reaches(from, [e], Next(from, e)) && Quiet(from, [e])
  {
    assert [e][1..] == [];
  }

  /** A Start inside an unfinished Stop, once the old loop has left: the Stop then returns while a run is active. */
  const EARLY := [Start, BeginStop(0), ClearLoop(0), Start, BeginRun(0, AfterSync), CloseLoop(0)]

  lemma OverlappingStartReturnsEarly()
    ensures exists p :: Reaches(BOOT, EARLY, p) && Enabled(p, StopReturns(0)) && p.runs != map[]
  {
    var p3 := Process(Core(false, 0, true, None, None, 2, multiset{1}), map[0 := Cleared], map[],
                      map[0 := Waiting(Some(0), 1)]);
    assert p3 == Next(Next(Next(BOOT, Start), BeginStop(0)), ClearLoop(0));
    var p6 := EarlyEnds(p3);
    ReachedBy(Next(Next(BOOT, Start), BeginStop(0)), EARLY, 2, p6);
    ReachedBy(Next(BOOT, Start), EARLY, 1, p6);
    ReachedBy(BOOT, EARLY, 0, p6);
  }

  lemma EarlyEnds(p3: Process) returns (p6: Process)
    requires p3 == Process(Core(false, 0, true, None, None, 2, multiset{1}), map[0 := Cleared], map[],
                           map[0 := Waiting(Some(0), 1)])
    ensures Reaches(p3, EARLY[3..], p6) && Enabled(p6, StopReturns(0)) && p6.runs != map[]
  {
    var p4 := Next(p3, Start);
    var p5 := Next(p4, BeginRun(0, AfterSync));
    p6 := Next(p5, CloseLoop(0));
    assert 0 in p6.runs;
    ReachedBy(p5, EARLY, 5, p6);
    ReachedBy(p4, EARLY, 4, p6);
    ReachedBy(p3, EARLY, 3, p6);
  }

  /** Or, while a post-sync run goes on, the Stop is left waiting for a run that ended, and the next run is admitted. */
  const OVERLAP := [Start, BeginRun(0, AfterSync), BeginStop(0), ClearLoop(0), CloseLoop(0), Start, EndRun(0)]

  lemma OverlappingStartLosesTheSignal()
    ensures exists p :: Reaches(BOOT, OVERLAP, p) && 0 in p.stops && p.runs == map[] && p.loops == map[2 := Looping]
              && !Enabled(p, StopReturns(0)) && Admits(p.c)
  {
    var p1 := Next(BOOT, Start);
    var p2 := Next(p1, BeginRun(0, AfterSync));
    var p3 := Next(p2, BeginStop(0));
    var p4 := Next(p3, ClearLoop(0));
    var p5 := Next(p4, CloseLoop(0));
    var p6 := Next(p5, Start);
    var p7 := Next(p6, EndRun(0));
    assert p7.runs == map[];
    ReachedBy(p6, OVERLAP, 6, p7);
    ReachedBy(p5, OVERLAP, 5, p7);
    ReachedBy(p4, OVERLAP, 4, p7);
    ReachedBy(p3, OVERLAP, 3, p7);
    ReachedBy(p2, OVERLAP, 2, p7);
    ReachedBy(p1, OVERLAP, 1, p7);
    ReachedBy(BOOT, OVERLAP, 0, p7);
  }

  /** The end of the last run releases the waiting Stops exactly when `stopping` still holds. */
  lemma EndReleasesIffStopping(schedule: seq<Event>, p: Process, run: nat)
    requires Reaches(BOOT, schedule, p) && Enabled(p, EndRun(run)) && p.c.activeDone.Some?
    ensures Next(p, EndRun(run)).c.closes[p.c.activeDone.value] == 1 <==> p.c.stopping
  {
    ReachableInvariant(BOOT, schedule, p);
  }

  lemma ReachedBy(from: Process, schedule: seq<Event>, i: nat, p: Process)
    requires i < |schedule| && Enabled(from, schedule[i])
    requires Reaches(Next(from, schedule[i]), schedule[i + 1..], p)
    ensures Reaches(from, schedule[i..], p)
  {
    assert schedule[i..][1..] == schedule[i + 1..];
  }
}

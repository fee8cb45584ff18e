/** The drain-then-close lifecycle of the web server (web/server.go): requests race with shutdowns, the close
    function runs once and only after the last request, and the store is closed only after that. */
module DrainClose {

  /** What the handler's mutex and its two one-shot channels hold. */
  datatype Handler = Handler(active: int, closing: bool, requestsDone: bool, closeStarted: bool, closeDone: bool)

  const FRESH := Handler(0, false, false, false, false)

  /** signalRequestsDoneLocked: closes requestsDone once, when closing with nothing in flight. */
  function Signalled(h: Handler): Handler {
    if h.closing && h.active == 0 then h.(requestsDone := true) else h
  }

  function Entered(h: Handler): Handler { if h.closing then h else h.(active := h.active + 1) }

  function Left(h: Handler): Handler { Signalled(h.(active := h.active - 1)) }

  function CloseRequested(h: Handler): Handler { Signalled(h.(closing := true)) }

  function Armed(h: Handler): Handler { h.(closeStarted := true) }

  /** The handler object; each method is one critical section of the program. */
  class CloseableHandler {
    var active: int
    var closing: bool
    var requestsDone: bool
    var closeStarted: bool
    var closeDone: bool

    ghost function View(): Handler
      reads this
    {
      Handler(active, closing, requestsDone, closeStarted, closeDone)
    }

    constructor ()
      ensures View() == FRESH
    {
      active, closing, requestsDone, closeStarted, closeDone := 0, false, false, false, false;
    }

    method Enter() returns (admitted: bool)
      modifies this
      ensures View() == Entered(old(View())) && admitted == !old(closing)
    {
      if closing {
        return false;
      }
      active := active + 1;
      return true;
    }

    method Leave()
      modifies this
      ensures View() == Left(old(View()))
    {
      active := active - 1;
      SignalRequestsDoneLocked();
    }

    method SignalRequestsDoneLocked()
      modifies this`requestsDone
      ensures View() == Signalled(old(View()))
    {
      if closing && active == 0 && !requestsDone {
        requestsDone := true;
      }
    }

    method RequestClose()
      modifies this
      ensures View() == CloseRequested(old(View()))
    {
      closing := true;
      SignalRequestsDoneLocked();
    }

    /** closeOnce: the first caller through starts the closing goroutine. */
    method Arm() returns (spawned: bool)
      modifies this`closeStarted
      ensures View() == Armed(old(View())) && spawned == !old(closeStarted)
    {
      spawned := !closeStarted;
      closeStarted := true;
    }
  }

  // ----- The whole process -----

  /** The goroutine started by closeOnce. */
  datatype Closer = Unborn | Draining | Closing | Finished

  /** Where a call of Shutdown stands. */
  datatype CallStep = Lock | Arm | Wait

  /** ServeWithOptions once the handler exists. `bounded` calls give up when their deadline passes. */
  datatype Owner =
    | Serving
    | DrainingHttp
    | Calling(step: CallStep, bounded: bool)
    | ClosingStore
    | Returned

  datatype Mark = Admitted | Finishing | CloseBegins | CloseEnds | StoreCloses

  /** `arming` counts outside Shutdown callers between their lock section and closeOnce. */
  datatype Process = Process(h: Handler, closer: Closer, owner: Owner, arming: nat, log: seq<Mark>)

  const BOOT := Process(FRESH, Unborn, Serving, 0, [])

  datatype Event =
    | Request
    | RequestReturns
    | OutsideClose            // an outside Shutdown or Close takes the lock
    | OutsideArm              // and goes through closeOnce
    | DrainSeen               // the closing goroutine receives from requestsDone
    | CloseReturns            // the close function returns and closeDone is closed
    | ListenReturns(httpDeadline: bool)
    | HttpDrained
    | OwnerLock
    | OwnerArm
    | OwnerSeesDone(looksExpired: bool)
    | OwnerTimesOut
    | StoreClose

  predicate Enabled(p: Process, e: Event) {
    match e
    case Request => true
    case RequestReturns => p.h.active > 0
    case OutsideClose => true
    case OutsideArm => p.arming > 0
    case DrainSeen => p.closer == Draining && p.h.requestsDone
    case CloseReturns => p.closer == Closing
    case ListenReturns(_) => p.owner == Serving
    case HttpDrained => p.owner == DrainingHttp
    case OwnerLock => p.owner.Calling? && p.owner.step == Lock
    case OwnerArm => p.owner.Calling? && p.owner.step == Arm
    case OwnerSeesDone(looksExpired) =>
      p.owner.Calling? && p.owner.step == Wait && p.h.closeDone && (looksExpired ==> p.owner.bounded)
    case OwnerTimesOut => p.owner == Calling(Wait, true)
    case StoreClose => p.owner == ClosingStore
  }

  /** Steps the program takes by itself; requests and outside shutdowns arriving are not among them. */
  predicate Internal(e: Event) { !e.Request? && !e.OutsideClose? && !e.ListenReturns? }

  function Spawned(p: Process): Closer { if p.h.closeStarted then p.closer else Draining }

  function Next(p: Process, e: Event): Process
    requires Enabled(p, e)
  {
    match e
    case Request => p.(h := Entered(p.h), log := if p.h.closing then p.log else p.log + [Admitted])
    case RequestReturns => p.(h := Left(p.h), log := p.log + [Finishing])
    case OutsideClose => p.(h := CloseRequested(p.h), arming := p.arming + 1)
    case OutsideArm => p.(h := Armed(p.h), closer := Spawned(p), arming := p.arming - 1)
    case DrainSeen => p.(closer := Closing, log := p.log + [CloseBegins])
    case CloseReturns => p.(closer := Finished, h := p.h.(closeDone := true), log := p.log + [CloseEnds])
    // A listener that fails, or ends without an expired drain, closes the handler with a deadline of its own.
    case ListenReturns(httpDeadline) => p.(owner := if httpDeadline then DrainingHttp else Calling(Lock, true))
    case HttpDrained => p.(owner := Calling(Lock, false))
    case OwnerLock => p.(h := CloseRequested(p.h), owner := p.owner.(step := Arm))
    case OwnerArm => p.(h := Armed(p.h), closer := Spawned(p), owner := p.owner.(step := Wait))
    // A close error that looks like the expired deadline sends the program into the background path as well.
    case OwnerSeesDone(looksExpired) => p.(owner := if looksExpired then Calling(Lock, false) else ClosingStore)
    case OwnerTimesOut => p.(owner := Calling(Lock, false))
    case StoreClose => p.(owner := Returned, log := p.log + [StoreCloses])
  }

  function Tally(log: seq<Mark>, m: Mark): nat {
    if log == [] then 0 else Tally(log[..|log| - 1], m) + if log[|log| - 1] == m then 1 else 0
  }

  lemma TallyAppend(log: seq<Mark>, x: Mark, m: Mark)
    ensures Tally(log + [x], m) == Tally(log, m) + if x == m then 1 else 0
  {
    assert (log + [x])[..|log|] == log;
  }

  ghost predicate HandlerInvariant(p: Process) {
    && p.h.active >= 0
    && (p.h.requestsDone <==> p.h.closing && p.h.active == 0)
    && (p.h.closeStarted <==> p.closer != Unborn)
    && (p.h.closeDone <==> p.closer == Finished)
    && (p.h.closeStarted || p.arming > 0 ==> p.h.closing)
    && (p.closer == Closing || p.closer == Finished ==> p.h.requestsDone)
  }

  /** Whoever set `closing` is on the way to closeOnce, or someone has been through it. */
  ghost predicate CloserComing(p: Process) {
    p.h.closing ==> p.h.closeStarted || p.arming > 0 || (p.owner.Calling? && p.owner.step == Arm)
  }

  ghost predicate OwnerInvariant(p: Process) {
    && (p.owner.Calling? && p.owner.step != Lock ==> p.h.closing)
    && (p.owner.Calling? && p.owner.step == Wait ==> p.h.closeStarted)
    && (p.owner == ClosingStore || p.owner == Returned ==> p.closer == Finished)
  }

  ghost predicate LogInvariant(p: Process) {
    && Tally(p.log, Admitted) == Tally(p.log, Finishing) + p.h.active
    && Tally(p.log, CloseBegins) == (if p.closer == Closing || p.closer == Finished then 1 else 0)
    && Tally(p.log, CloseEnds) == (if p.closer == Finished then 1 else 0)
    && Tally(p.log, StoreCloses) == (if p.owner == Returned then 1 else 0)
  }

  /** Requests come and go only before the close function begins, which balances them;
      the store closes after it ends. */
  ghost predicate Ordered(log: seq<Mark>) {
    forall i :: 0 <= i < |log| ==>
      && (log[i] == Admitted || log[i] == Finishing ==> Tally(log[..i], CloseBegins) == 0)
      && (log[i] == CloseBegins ==> Tally(log[..i], Admitted) == Tally(log[..i], Finishing))
      && (log[i] == CloseEnds ==> Tally(log[..i], CloseBegins) == 1)
      && (log[i] == StoreCloses ==> Tally(log[..i], CloseEnds) == 1)
  }

  ghost predicate Invariant(p: Process) {
    HandlerInvariant(p) && CloserComing(p) && OwnerInvariant(p) && LogInvariant(p) && Ordered(p.log)
  }

  lemma OrderedAppend(log: seq<Mark>, x: Mark)
    requires Ordered(log)
    requires x == Admitted || x == Finishing ==> Tally(log, CloseBegins) == 0
    requires x == CloseBegins ==> Tally(log, Admitted) == Tally(log, Finishing)
    requires x == CloseEnds ==> Tally(log, CloseBegins) == 1
    requires x == StoreCloses ==> Tally(log, CloseEnds) == 1
    ensures Ordered(log + [x])
  {
    var all := log + [x];
    forall i | 0 <= i < |all| ensures all[..i] == log[..i] && (i < |log| ==> all[i] == log[i]) {}
    assert log[..|log|] == log;
  }

  lemma NextKeepsShape(p: Process, e: Event)
    requires HandlerInvariant(p) && CloserComing(p) && OwnerInvariant(p) && Enabled(p, e)
    ensures HandlerInvariant(Next(p, e)) && CloserComing(Next(p, e)) && OwnerInvariant(Next(p, e))
  {}

  function MarkOf(p: Process, e: Event): Mark {
    match e
    case RequestReturns => Finishing
    case DrainSeen => CloseBegins
    case CloseReturns => CloseEnds
    case StoreClose => StoreCloses
    case _ => Admitted
  }

  lemma NextLogs(p: Process, e: Event)
    requires Enabled(p, e)
    ensures Next(p, e).log == p.log || Next(p, e).log == p.log + [MarkOf(p, e)]
    ensures Next(p, e).log == p.log <==>
              (e.Request? && p.h.closing) || (Internal(e) && MarkOf(p, e) == Admitted)
              || e.OutsideClose? || e.ListenReturns?
  {
    assert |p.log + [MarkOf(p, e)]| != |p.log|;
  }

  lemma NextKeepsInvariant(p: Process, e: Event)
    requires Invariant(p) && Enabled(p, e)
    ensures Invariant(Next(p, e))
  {
    NextKeepsShape(p, e);
    NextLogs(p, e);
    if Next(p, e).log != p.log {
      var x := MarkOf(p, e);
      TallyAppend(p.log, x, Admitted);
      TallyAppend(p.log, x, Finishing);
      TallyAppend(p.log, x, CloseBegins);
      TallyAppend(p.log, x, CloseEnds);
      TallyAppend(p.log, x, StoreCloses);
      OrderedAppend(p.log, x);
    }
  }

  ghost predicate Reaches(from: Process, schedule: seq<Event>, p: Process)
    decreases schedule
  {
    if schedule == [] then p == from
    else Enabled(from, schedule[0]) && Reaches(Next(from, schedule[0]), schedule[1..], p)
  }

  lemma {:induction false} ReachableInvariant(from: Process, schedule: seq<Event>, p: Process)
    requires Invariant(from) && Reaches(from, schedule, p)
    ensures Invariant(p)
    decreases schedule
  {
    if schedule != [] {
      NextKeepsInvariant(from, schedule[0]);
      ReachableInvariant(Next(from, schedule[0]), schedule[1..], p);
    }
  }

  /** Over all interleavings: at most one close, at most one store close, in that order,
      and none while a request runs. */
  lemma DrainsThenCloses(schedule: seq<Event>, p: Process)
    requires Reaches(BOOT, schedule, p)
    ensures Tally(p.log, CloseBegins) <= 1 && Tally(p.log, CloseEnds) <= 1 && Tally(p.log, StoreCloses) <= 1
    ensures Ordered(p.log)
    ensures p.closer == Closing || p.closer == Finished ==> p.h.active == 0 && p.h.closing
  {
    ReachableInvariant(BOOT, schedule, p);
  }

  /** Closing is for good: nothing is admitted any more and the requests in flight can only become fewer. */
  lemma {:induction false} ClosingIsFinal(from: Process, schedule: seq<Event>, p: Process)
    requires Invariant(from) && from.h.closing && Reaches(from, schedule, p)
    ensures p.h.closing && p.h.active <= from.h.active
    ensures Tally(p.log, Admitted) == Tally(from.log, Admitted)
    ensures from.h.requestsDone ==> p.h.requestsDone && p.h.active == 0
    decreases schedule
  {
    if schedule != [] {
      var next := Next(from, schedule[0]);
      NextKeepsInvariant(from, schedule[0]);
      if next.log != from.log { TallyAppend(from.log, next.log[|from.log|], Admitted); }
      ClosingIsFinal(next, schedule[1..], p);
    }
  }

  function OwnerLeft(o: Owner): nat {
    match o
    case Serving => 9
    case DrainingHttp => 8
    case Calling(step, bounded) => (if bounded then 5 else 2) + (match step case Lock => 2 case Arm => 1 case Wait => 0)
    case ClosingStore => 1
    case Returned => 0
  }

  function CloserLeft(c: Closer): nat {
    match c case Unborn => 3 case Draining => 2 case Closing => 1 case Finished => 0
  }

  function Remaining(p: Process): int { p.h.active + p.arming + OwnerLeft(p.owner) + CloserLeft(p.closer) }

  /** Internal steps cannot go on for ever. */
  lemma InternalStepsRunOut(p: Process, e: Event)
    requires Invariant(p) && Enabled(p, e) && Internal(e)
    ensures 0 <= Remaining(Next(p, e)) < Remaining(p)
  {
    NextKeepsInvariant(p, e);
  }

  ghost predicate Quiescent(p: Process) { forall e :: Internal(e) ==> !Enabled(p, e) }

  lemma QuiescentMeans(p: Process)
    requires Quiescent(p)
    ensures p.h.active <= 0 && p.arming == 0 && p.closer != Closing && !(p.closer == Draining && p.h.requestsDone)
    ensures p.owner == Serving || p.owner == Returned || (p.owner == Calling(Wait, false) && !p.h.closeDone)
  {
    assert !Enabled(p, RequestReturns) && !Enabled(p, OutsideArm) &&
      !Enabled(p, DrainSeen) && !Enabled(p, CloseReturns);
    assert !Enabled(p, HttpDrained) && !Enabled(p, OwnerLock) && !Enabled(p, OwnerArm) && !Enabled(p, StoreClose);
    assert !Enabled(p, OwnerSeesDone(false)) && !Enabled(p, OwnerTimesOut);
  }

  lemma QuiescentIsFinished(p: Process)
    requires HandlerInvariant(p) && CloserComing(p) && OwnerInvariant(p) && Quiescent(p)
    ensures p.h.active == 0 && (p.h.closing ==> p.closer == Finished)
    ensures p.owner != Serving ==> p.owner == Returned && p.closer == Finished
  {
    QuiescentMeans(p);
  }

  /** When they have run out after some shutdown began, every request has returned and the close function has run;
      if the listener has returned, the store has been closed too. No path of the program gets stuck before that. */
  lemma NothingIsForgotten(schedule: seq<Event>, p: Process)
    requires Reaches(BOOT, schedule, p) && Quiescent(p)
    ensures p.h.active == 0
    ensures p.h.closing ==> Tally(p.log, CloseBegins) == 1 && Tally(p.log, CloseEnds) == 1
    ensures p.owner != Serving ==> p.owner == Returned && Tally(p.log, StoreCloses) == 1 && Tally(p.log, CloseEnds) == 1
  {
    assert Invariant(p) by { ReachableInvariant(BOOT, schedule, p); }
    assert p.h.active == 0 && (p.h.closing ==> p.closer == Finished)
      && (p.owner != Serving ==> p.owner == Returned && p.closer == Finished) by { QuiescentIsFinished(p); }
  }
}

/** The resource protocol of one scheduled sync (internal/app/scheduler.go): metrics sink and store are opened,
    the sync runs, the store closes, the semantic refresh may run, the metrics sink closes, whatever fails. */
module ScheduledSync {
  import opened Options
  import opened ErrorTrees

  /** Everything the collaborators may answer; None is a nil error. */
  datatype World = World(
    flags: Option<Error>, metricsOpen: Option<Error>, storeOpen: Option<Error>, options: Option<Error>,
    sync: Option<Error>, cancelledAfterSync: bool, storeClose: Option<Error>, statsOutput: Option<Error>,
    context: Option<Error>, startedEvent: Option<Error>, refresh: Option<Error>, reporterFinish: Option<Error>,
    completionEvents: Option<Error>, metricsClose: Option<Error>, refreshOutput: Option<Error>, gcOutput: Option<Error>)

  datatype Effect = OpenMetrics | OpenStore | Sync | CloseStore | StartRefresh | EmitCompleted | CloseMetrics

  // ----- errors.Join drops nil errors; the boundary wrapper keeps them nil -----

  function Kept(errs: seq<Option<Error>>): seq<Error> {
    if errs == [] then []
    else (if errs[0].Some? then [errs[0].value] else []) + Kept(errs[1..])
  }

  function Join(errs: seq<Option<Error>>): Option<Error> {
    if Kept(errs) == [] then None else Some(Joined(Kept(errs)))
  }

  function Wrap(b: Boundary, err: Option<Error>): Option<Error> {
    if err.None? then None else Some(BoundaryError(b, err.value))
  }

  /** The join branches of an error that may be nil. */
  function Parts(err: Option<Error>): seq<Error> { if err.None? then [] else Branches(err.value) }

  lemma {:induction false} BranchesConcat(a: seq<Error>, b: seq<Error>)
    ensures BranchesOf(a + b) == BranchesOf(a) + BranchesOf(b)
  {
    if a == [] {
      assert a + b == b;
    } else {
      assert (a + b)[1..] == a[1..] + b;
      BranchesConcat(a[1..], b);
    }
  }

  function One(err: Option<Error>): seq<Error> { if err.None? then [] else [err.value] }

  /** `err` flattens to exactly the given failures, in this order, and is nil exactly when there are none. */
  ghost predicate Carries(err: Option<Error>, failures: seq<Error>) {
    Parts(err) == BranchesOf(failures) && (err.Some? <==> failures != [])
  }

  lemma CarriesOne(err: Option<Error>)
    ensures Carries(err, One(err))
  {
    if err.Some? { assert One(err)[1..] == [] && Parts(err) + [] == Parts(err); }
  }

  /** Joining two errors carries the failures of the first, then those of the second. */
  lemma JoinCarries(a: Option<Error>, b: Option<Error>, first: seq<Error>, second: seq<Error>)
    requires Carries(a, first) && Carries(b, second)
    ensures Carries(Join([a, b]), first + second)
  {
    KeptPair(a, b);
    CarriesOne(a);
    CarriesOne(b);
    BranchesConcat(One(a), One(b));
    BranchesConcat(first, second);
  }

  lemma KeptPair(a: Option<Error>, b: Option<Error>)
    ensures Kept([a, b]) == One(a) + One(b)
  {
    assert [a, b][1..] == [b] && [b][1..] == [];
    assert Kept([b]) == One(b);
  }

  lemma NoneMore(a: Option<Error>, failures: seq<Error>)
    requires Carries(a, failures)
    ensures Carries(a, failures + One(None))
  {
    assert failures + [] == failures;
  }

  lemma JoinOneMore(a: Option<Error>, b: Option<Error>, first: seq<Error>)
    requires Carries(a, first)
    ensures Carries(Join([a, b]), first + One(b))
  {
    CarriesOne(b);
    JoinCarries(a, b, first, One(b));
  }

  /** Whether the refresh is reached: the store closed cleanly, its summary was written, nothing was cancelled. */
  predicate Refreshes(w: World) {
    && !(w.sync.Some? && w.cancelledAfterSync)
    && w.storeClose.None? && w.statsOutput.None? && w.context.None?
  }

  /** The only effect logs there are. */
  function Protocol(w: World): seq<Effect> {
    if w.flags.Some? || w.metricsOpen.Some? then []
    else if w.storeOpen.Some? then [OpenMetrics, CloseMetrics]
    else if w.options.Some? then [OpenMetrics, OpenStore, CloseStore, CloseMetrics]
    else if Refreshes(w) then [OpenMetrics, OpenStore, Sync, CloseStore, StartRefresh, EmitCompleted, CloseMetrics]
    else [OpenMetrics, OpenStore, Sync, CloseStore, EmitCompleted, CloseMetrics]
  }

  // ----- What is reported -----

  /** The failures of the run itself, which its completion event carries: the sync's own first. */
  function RunFailures(w: World): seq<Error> {
    One(w.sync) +
    if w.sync.Some? && w.cancelledAfterSync then []
    else if w.storeClose.Some? then One(Wrap(StoreClose, w.storeClose))
    else if w.statsOutput.Some? then One(Wrap(Output, w.statsOutput))
    else if w.context.Some? then One(w.context)
    else One(w.refresh) + One(Wrap(Output, w.reporterFinish))
  }

  /** Summaries are written only when the refresh worked and its progress output was finished. */
  function SummaryFailures(w: World): seq<Error> {
    if w.refresh.None? && w.reporterFinish.None? then One(Wrap(Output, w.refreshOutput)) + One(Wrap(Output, w.gcOutput))
    else []
  }

  /** Everything the caller is told, in order. */
  function Failures(w: World): seq<Error> {
    if w.flags.Some? then One(Wrap(ConfigResolution, w.flags))
    else if w.metricsOpen.Some? then One(Wrap(MetricsOpen, w.metricsOpen))
    else BodyFailures(w) + One(Wrap(MetricsClose, w.metricsClose))
  }

  /** All but the failure to close the metrics sink, which always comes last. */
  function BodyFailures(w: World): seq<Error> {
    if w.storeOpen.Some? then One(Wrap(StoreOpen, w.storeOpen))
    else if w.options.Some? then One(Wrap(OptionsSetup, w.options))
    else if Refreshes(w) then RunFailures(w) + SummaryFailures(w) + One(w.startedEvent) + One(w.completionEvents)
    else RunFailures(w)
  }

  /** A sync cancelled on its way reports nothing but itself and the metrics sink. */
  lemma CancelledRun(w: World)
    requires SyncRuns(w) && w.sync.Some? && w.cancelledAfterSync
    ensures RunFailures(w) == One(w.sync) && BodyFailures(w) == One(w.sync) && Carries(w.sync, RunFailures(w))
    ensures Protocol(w) == [OpenMetrics, OpenStore, Sync, CloseStore, EmitCompleted, CloseMetrics]
  {
    CarriesOne(w.sync);
    assert One(w.sync) + [] == One(w.sync);
  }

  predicate SyncRuns(w: World) { w.flags.None? && w.metricsOpen.None? && w.storeOpen.None? && w.options.None? }

  /** One call of the scheduled sync. `storeOpen` and `metricsOpen` are the reassigned st and closeMetrics. */
  class Session {
    const w: World
    var log: seq<Effect>
    var storeOpen: bool
    var metricsOpen: bool
    var completed: seq<Option<Error>>

    constructor (w: World)
      ensures this.w == w && log == [] && !storeOpen && !metricsOpen && completed == []
    {
      this.w := w;
      log, storeOpen, metricsOpen, completed := [], false, false, [];
    }

    method CloseStoreOnce() returns (err: Option<Error>)
      requires storeOpen
      modifies this`log, this`storeOpen
      ensures log == old(log) + [CloseStore] && !storeOpen && err == w.storeClose
    {
      log := log + [CloseStore];
      storeOpen := false;
      return w.storeClose;
    }

    /** Calls closeMetrics, which after the first call is a function that does nothing. */
    method CloseMetricsOnce() returns (err: Option<Error>)
      modifies this`log, this`metricsOpen
      ensures !metricsOpen
      ensures old(metricsOpen) ==> log == old(log) + [CloseMetrics] && err == w.metricsClose
      ensures !old(metricsOpen) ==> log == old(log) && err == None
    {
      if metricsOpen {
        log := log + [CloseMetrics];
        metricsOpen := false;
        return w.metricsClose;
      }
      return None;
    }

    method Emit(runErr: Option<Error>)
      modifies this`log, this`completed
      ensures log == old(log) + [EmitCompleted] && completed == old(completed) + [runErr]
    {
      log := log + [EmitCompleted];
      completed := completed + [runErr];
    }

    /** One completion event if the sync ran, with the run's failures; none otherwise. */
    ghost predicate CompletionEmitted()
      reads this`completed
    {
      if SyncRuns(w) then |completed| == 1 && Carries(completed[0], RunFailures(w)) else completed == []
    }

    /** Appends the metrics sink's close error, if it fails to close. */
    method WithMetricsClosed(bodyErr: Option<Error>, ghost failures: seq<Error>) returns (err: Option<Error>)
      requires Carries(bodyErr, failures) && metricsOpen
      modifies this`log, this`metricsOpen
      ensures log == old(log) + [CloseMetrics] && !metricsOpen
      ensures Carries(err, failures + One(Wrap(MetricsClose, w.metricsClose)))
    {
      var closeErr := CloseMetricsOnce();
      err := bodyErr;
      NoneMore(bodyErr, failures);
      if closeErr.Some? {
        err := Join([bodyErr, Wrap(MetricsClose, closeErr)]);
        JoinOneMore(bodyErr, Wrap(MetricsClose, closeErr), failures);
      }
    }

    method Execute() returns (err: Option<Error>)
      requires log == [] && !storeOpen && !metricsOpen && completed == []
      modifies this
      ensures log == Protocol(w) && !metricsOpen && !storeOpen
      ensures Carries(err, Failures(w)) && CompletionEmitted()
    {
      if w.flags.Some? {
        CarriesOne(Wrap(ConfigResolution, w.flags));
        return Wrap(ConfigResolution, w.flags);
      }
      if w.metricsOpen.Some? {
        CarriesOne(Wrap(MetricsOpen, w.metricsOpen));
        return Wrap(MetricsOpen, w.metricsOpen);
      }
      log, metricsOpen := log + [OpenMetrics], true;
      err := WithMetrics();
      if metricsOpen {
        err := WithMetricsClosed(err, BodyFailures(w));
      }
    }

    /** Until the metrics sink is closed its close error is still to come. */
    ghost predicate CarriesSoFar(err: Option<Error>)
      requires w.flags.None? && w.metricsOpen.None?
      reads this`metricsOpen
    {
      Carries(err, if metricsOpen then BodyFailures(w) else Failures(w))
    }

    method WithMetrics() returns (err: Option<Error>)
      requires w.flags.None? && w.metricsOpen.None? &&
        log == [OpenMetrics] && metricsOpen && !storeOpen && completed == []
      modifies this
      ensures log + (if metricsOpen then [CloseMetrics] else []) == Protocol(w) && !storeOpen
      ensures CarriesSoFar(err) && CompletionEmitted()
    {
      if w.storeOpen.Some? {
        CarriesOne(Wrap(StoreOpen, w.storeOpen));
        return Wrap(StoreOpen, w.storeOpen);
      }
      log, storeOpen := log + [OpenStore], true;
      err := WithStore();
      if storeOpen {
        var _ := CloseStoreOnce();
      }
    }

    method WithStore() returns (err: Option<Error>)
      requires w.flags.None? && w.metricsOpen.None? && w.storeOpen.None?
      requires log == [OpenMetrics, OpenStore] && metricsOpen && storeOpen && completed == []
      modifies this
      ensures log + (if storeOpen then [CloseStore] else []) +
              (if metricsOpen then [CloseMetrics] else []) == Protocol(w)
      ensures CarriesSoFar(err) && CompletionEmitted()
    {
      if w.options.Some? {
        CarriesOne(Wrap(OptionsSetup, w.options));
        return Wrap(OptionsSetup, w.options);
      }
      log := log + [Sync];
      if w.sync.Some? && w.cancelledAfterSync {
        var _ := CloseStoreOnce();
        CancelledRun(w);
        err := Abandon(w.sync);
        return;
      }
      err := CloseAndRefresh();
    }

    /** After a sync that was not cancelled: the store closes, its summary is written, and the refresh may run. */
    method CloseAndRefresh() returns (err: Option<Error>)
      requires SyncRuns(w) && !(w.sync.Some? && w.cancelledAfterSync)
      requires log == [OpenMetrics, OpenStore, Sync] && metricsOpen && storeOpen && completed == []
      modifies this
      ensures log + (if metricsOpen then [CloseMetrics] else []) == Protocol(w) && !storeOpen
      ensures CarriesSoFar(err) && CompletionEmitted()
    {
      CarriesOne(w.sync);
      var storeErr := CloseStoreOnce();
      if storeErr.Some? {
        err := Join([w.sync, Wrap(StoreClose, storeErr)]);
        JoinOneMore(w.sync, Wrap(StoreClose, storeErr), One(w.sync));
        Emit(err);
        return;
      }
      if w.statsOutput.Some? {
        err := Join([w.sync, Wrap(Output, w.statsOutput)]);
        JoinOneMore(w.sync, Wrap(Output, w.statsOutput), One(w.sync));
        Emit(err);
        return;
      }
      if w.context.Some? {
        JoinOneMore(w.sync, w.context, One(w.sync));
        err := Abandon(Join([w.sync, w.context]));
        return;
      }
      err := Refresh();
    }

    /** Both cancelled exits: the completion event, then the metrics sink, then the error. */
    method Abandon(runErr: Option<Error>) returns (err: Option<Error>)
      requires SyncRuns(w) && metricsOpen && completed == [] && Carries(runErr, RunFailures(w))
      modifies this
      ensures log == old(log) + [EmitCompleted, CloseMetrics] && !metricsOpen && storeOpen == old(storeOpen)
      ensures Carries(err, RunFailures(w) + One(Wrap(MetricsClose, w.metricsClose))) && CompletionEmitted()
    {
      Emit(runErr);
      err := WithMetricsClosed(runErr, RunFailures(w));
    }

    method Refresh() returns (err: Option<Error>)
      requires SyncRuns(w) && Refreshes(w)
      requires log == [OpenMetrics, OpenStore, Sync, CloseStore] && metricsOpen && !storeOpen && completed == []
      modifies this
      ensures log == Protocol(w) && !metricsOpen && !storeOpen
      ensures Carries(err, Failures(w)) && CompletionEmitted()
    {
      log := log + [StartRefresh];
      CarriesOne(w.refresh);
      var semanticErr := AppendOutput(w.refresh, w.reporterFinish, One(w.refresh));
      var runErr := Join([w.sync, semanticErr]);
      CarriesOne(w.sync);
      JoinCarries(w.sync, semanticErr, One(w.sync), One(w.refresh) + One(Wrap(Output, w.reporterFinish)));
      Emit(runErr);
      var metricsErr := Join([w.startedEvent, w.completionEvents]);
      CarriesOne(w.startedEvent);
      JoinOneMore(w.startedEvent, w.completionEvents, One(w.startedEvent));
      metricsErr := WithMetricsClosed(metricsErr, One(w.startedEvent) + One(w.completionEvents));
      err := Summarize(runErr, semanticErr.None?, metricsErr);
    }

    /** The error returned after a refresh: summaries that could not be written join the run's error, and metrics
        errors come last. */
    method Summarize(runError: Option<Error>, summarize: bool, metricsErr: Option<Error>) returns (err: Option<Error>)
      requires SyncRuns(w) && Refreshes(w) && Carries(runError, RunFailures(w))
      requires summarize <==> w.refresh.None? && w.reporterFinish.None?
      requires Carries(metricsErr,
               One(w.startedEvent) + One(w.completionEvents) + One(Wrap(MetricsClose, w.metricsClose)))
      ensures Carries(err, Failures(w))
    {
      var runErr := runError;
      ghost var failures := RunFailures(w);
      if summarize {
        runErr := AppendOutput(runErr, w.refreshOutput, failures);
        failures := failures + One(Wrap(Output, w.refreshOutput));
        runErr := AppendOutput(runErr, w.gcOutput, failures);
        failures := failures + One(Wrap(Output, w.gcOutput));
      }
      InOrder(w);
      assert failures == RunFailures(w) + SummaryFailures(w);
      ghost var metrics := One(w.startedEvent) + One(w.completionEvents) + One(Wrap(MetricsClose, w.metricsClose));
      JoinCarries(runErr, metricsErr, RunFailures(w) + SummaryFailures(w), metrics);
      if runErr.Some? {
        err := Join([runErr, metricsErr]);
      } else {
        assert RunFailures(w) + SummaryFailures(w) + metrics == metrics;
        err := metricsErr;
      }
    }

    static method AppendOutput(runErr: Option<Error>, output: Option<Error>, ghost failures: seq<Error>)
      returns (err: Option<Error>)
      requires Carries(runErr, failures)
      ensures Carries(err, failures + One(Wrap(Output, output)))
    {
      err := runErr;
      NoneMore(runErr, failures);
      if output.Some? {
        err := Join([runErr, Wrap(Output, output)]);
        JoinOneMore(runErr, Wrap(Output, output), failures);
      }
    }
  }

  lemma InOrder(w: World)
    requires SyncRuns(w) && Refreshes(w)
    ensures Failures(w) == RunFailures(w) + SummaryFailures(w)
      + (One(w.startedEvent) + One(w.completionEvents) + One(Wrap(MetricsClose, w.metricsClose)))
    ensures RunFailures(w) + SummaryFailures(w) == RunFailures(w) +
      if w.refresh.None? && w.reporterFinish.None?
      then One(Wrap(Output, w.refreshOutput)) + One(Wrap(Output, w.gcOutput))
      else []
  {}

  // ----- What the protocol guarantees -----

  function Times(log: seq<Effect>, e: Effect): nat { multiset(log)[e] }

  ghost predicate Before(log: seq<Effect>, first: Effect, second: Effect) {
    exists i, j :: 0 <= i < j < |log| && log[i] == first && log[j] == second
  }

  /** What was opened is closed exactly once, and one completion event is emitted iff the sync ran. */
  lemma ProtocolGuarantees(w: World)
    ensures Balanced(Protocol(w), SyncRuns(w))
    ensures Times(Protocol(w), CloseMetrics) == Times(Protocol(w), OpenMetrics) <= 1
    ensures Times(Protocol(w), CloseStore) == Times(Protocol(w), OpenStore) <= 1
    ensures Times(Protocol(w), EmitCompleted) == Times(Protocol(w), Sync) == if SyncRuns(w) then 1 else 0
  {
    if w.flags.Some? || w.metricsOpen.Some? {
    } else if w.storeOpen.Some? {
      BalancedWithoutStore();
    } else if w.options.Some? {
      BalancedWithoutSync();
    } else {
      BalancedRun();
      BalancedRefresh();
    }
  }

  ghost predicate Balanced(log: seq<Effect>, synced: bool) {
    && Times(log, CloseMetrics) == Times(log, OpenMetrics) <= 1
    && Times(log, CloseStore) == Times(log, OpenStore) <= 1
    && Times(log, EmitCompleted) == Times(log, Sync) == (if synced then 1 else 0)
  }

  lemma BalancedWithoutStore()
    ensures Balanced([OpenMetrics, CloseMetrics], false)
  {}

  lemma BalancedWithoutSync()
    ensures Balanced([OpenMetrics, OpenStore, CloseStore, CloseMetrics], false)
  {}

  lemma BalancedRun()
    ensures Balanced([OpenMetrics, OpenStore, Sync, CloseStore, EmitCompleted, CloseMetrics], true)
  {}

  lemma BalancedRefresh()
    ensures Balanced([OpenMetrics, OpenStore, Sync, CloseStore, StartRefresh, EmitCompleted, CloseMetrics], true)
  {}

  /** What is attempted, and when: the metrics sink once the flags resolve, the store once the sink is open, and the
      refresh after a sync whose store closed and whose summary was written, unless it was cancelled. */
  lemma ProtocolAttempts(w: World)
    ensures OpenMetrics in Protocol(w) <==> w.flags.None? && w.metricsOpen.None?
    ensures OpenStore in Protocol(w) <==> w.flags.None? && w.metricsOpen.None? && w.storeOpen.None?
    ensures Sync in Protocol(w) <==>
              w.flags.None? && w.metricsOpen.None? && w.storeOpen.None? && w.options.None?
    ensures StartRefresh in Protocol(w) <==>
              && SyncRuns(w) && !(w.sync.Some? && w.cancelledAfterSync)
              && w.storeClose.None? && w.statsOutput.None? && w.context.None?
  {}

  /** The order: the store is opened after the metrics sink and closed before it; the sync runs in between; the refresh
      after the store closed; and the completion event comes after all of it, just before the metrics sink closes. */
  lemma ProtocolOrder(w: World)
    ensures OpenStore in Protocol(w) ==>
              && Before(Protocol(w), OpenMetrics, OpenStore)
              && Before(Protocol(w), OpenStore, CloseStore) && Before(Protocol(w), CloseStore, CloseMetrics)
    ensures Sync in Protocol(w) ==>
              && Before(Protocol(w), OpenStore, Sync) && Before(Protocol(w), Sync, CloseStore)
              && Before(Protocol(w), CloseStore, EmitCompleted) && Before(Protocol(w), EmitCompleted, CloseMetrics)
    ensures StartRefresh in Protocol(w) ==>
              Before(Protocol(w), CloseStore, StartRefresh) && Before(Protocol(w), StartRefresh, EmitCompleted)
  {
    var log := Protocol(w);
    if 4 <= |log| {
      var s, m := if log[2] == Sync then 3 else 2, |log| - 1;
      assert log[0] == OpenMetrics && log[1] == OpenStore && log[s] == CloseStore && log[m] == CloseMetrics;
      if Sync in log { assert log[2] == Sync && log[m - 1] == EmitCompleted; }
      if StartRefresh in log { assert log[4] == StartRefresh; }
    }
  }

  // ----- No failure is lost, and none is invented -----

  lemma {:induction false} BranchesInclude(failures: seq<Error>, e: Error)
    requires e in failures
    ensures forall b :: b in Branches(e) ==> b in BranchesOf(failures)
  {
    if failures[0] != e { BranchesInclude(failures[1..], e); }
  }

  lemma Included(err: Option<Error>, failures: seq<Error>, e: Error)
    requires Carries(err, failures) && e in failures
    ensures err.Some? && forall b :: b in Branches(e) ==> b in Branches(err.value)
  {
    BranchesInclude(failures, e);
  }

  /** `err` tells of a failure behind its boundary, or of a failure as it is. */
  ghost predicate TellsOf(err: Option<Error>, boundary: Boundary, cause: Option<Error>) {
    cause.Some? ==> err.Some? && BoundaryError(boundary, cause.value) in Branches(err.value)
  }

  ghost predicate Tells(err: Option<Error>, cause: Option<Error>) {
    cause.Some? ==> err.Some? && forall b :: b in Branches(cause.value) ==> b in Branches(err.value)
  }

  lemma IncludedBoundary(err: Option<Error>, failures: seq<Error>, boundary: Boundary, cause: Option<Error>)
    requires Carries(err, failures) && (cause.Some? ==> BoundaryError(boundary, cause.value) in failures)
    ensures TellsOf(err, boundary, cause)
  {
    if cause.Some? { Included(err, failures, BoundaryError(boundary, cause.value)); }
  }

  lemma IncludedPlain(err: Option<Error>, failures: seq<Error>, cause: Option<Error>)
    requires Carries(err, failures) && (cause.Some? ==> cause.value in failures)
    ensures Tells(err, cause)
  {
    if cause.Some? { Included(err, failures, cause.value); }
  }

  /** What the run's completion event tells: the failure of everything asked before it. It tells of no error exactly
      when the sync, the store's close, the summary, the context and the refresh all answered none. */
  lemma RunFailuresAreReported(w: World, event: Option<Error>)
    requires Carries(event, RunFailures(w))
    ensures Tells(event, w.sync)
    ensures !(w.sync.Some? && w.cancelledAfterSync) ==>
              && TellsOf(event, StoreClose, w.storeClose)
              && (w.storeClose.None? ==> TellsOf(event, Output, w.statsOutput))
              && (w.storeClose.None? && w.statsOutput.None? ==> Tells(event, w.context))
              && (w.storeClose.None? && w.statsOutput.None? && w.context.None? ==>
                    Tells(event, w.refresh) && TellsOf(event, Output, w.reporterFinish))
    ensures event.None? <==>
              && w.sync.None? && w.storeClose.None? && w.statsOutput.None? && w.context.None?
              && w.refresh.None? && w.reporterFinish.None?
  {
    var failures := RunFailures(w);
    IncludedPlain(event, failures, w.sync);
    if !(w.sync.Some? && w.cancelledAfterSync) {
      IncludedBoundary(event, failures, StoreClose, w.storeClose);
      if w.storeClose.None? {
        IncludedBoundary(event, failures, Output, w.statsOutput);
        if w.statsOutput.None? {
          IncludedPlain(event, failures, w.context);
          if w.context.None? {
            IncludedPlain(event, failures, w.refresh);
            IncludedBoundary(event, failures, Output, w.reporterFinish);
          }
        }
      }
    }
  }

  /** The same for the error returned, when the sync ran: it tells all that the event tells. */
  lemma SyncFailuresAreReported(w: World, err: Option<Error>)
    requires SyncRuns(w) && Carries(err, Failures(w))
    ensures Tells(err, w.sync) && TellsOf(err, MetricsClose, w.metricsClose)
    ensures !(w.sync.Some? && w.cancelledAfterSync) ==>
              && TellsOf(err, StoreClose, w.storeClose)
              && (w.storeClose.None? ==> TellsOf(err, Output, w.statsOutput))
              && (w.storeClose.None? && w.statsOutput.None? ==> Tells(err, w.context))
  {
    var failures := Failures(w);
    RunFailuresLead(w);
    IncludedPlain(err, failures, w.sync);
    IncludedBoundary(err, failures, MetricsClose, w.metricsClose);
    if !(w.sync.Some? && w.cancelledAfterSync) {
      IncludedBoundary(err, failures, StoreClose, w.storeClose);
      if w.storeClose.None? {
        IncludedBoundary(err, failures, Output, w.statsOutput);
        if w.statsOutput.None? { IncludedPlain(err, failures, w.context); }
      }
    }
  }

  lemma RunFailuresLead(w: World)
    requires SyncRuns(w)
    ensures RunFailures(w) <= Failures(w)
  {
    if Refreshes(w) { InOrder(w); }
  }

  /** And when the refresh was reached: its error, the two summaries if it worked, and the two metrics events. */
  lemma RefreshFailuresAreReported(w: World, err: Option<Error>)
    requires SyncRuns(w) && Carries(err, Failures(w)) && !(w.sync.Some? && w.cancelledAfterSync)
    requires w.storeClose.None? && w.statsOutput.None? && w.context.None?
    ensures Tells(err, w.refresh) && TellsOf(err, Output, w.reporterFinish)
    ensures Tells(err, w.startedEvent) && Tells(err, w.completionEvents)
    ensures w.refresh.None? && w.reporterFinish.None? ==>
              TellsOf(err, Output, w.refreshOutput) && TellsOf(err, Output, w.gcOutput)
  {
    var failures := Failures(w);
    InOrder(w);
    IncludedPlain(err, failures, w.refresh);
    IncludedBoundary(err, failures, Output, w.reporterFinish);
    IncludedPlain(err, failures, w.startedEvent);
    IncludedPlain(err, failures, w.completionEvents);
    if w.refresh.None? && w.reporterFinish.None? {
      IncludedBoundary(err, failures, Output, w.refreshOutput);
      IncludedBoundary(err, failures, Output, w.gcOutput);
    }
  }

  /** What fails before the sync is the answer, with the metrics sink's failure to close behind it. */
  lemma SetupFailuresAreReported(w: World, err: Option<Error>)
    requires !SyncRuns(w) && Carries(err, Failures(w))
    ensures TellsOf(err, ConfigResolution, w.flags)
    ensures w.flags.None? ==> TellsOf(err, MetricsOpen, w.metricsOpen)
    ensures w.flags.None? && w.metricsOpen.None? ==>
              && TellsOf(err, StoreOpen, w.storeOpen) && TellsOf(err, MetricsClose, w.metricsClose)
              && (w.storeOpen.None? ==> TellsOf(err, OptionsSetup, w.options))
  {
    var failures := Failures(w);
    IncludedBoundary(err, failures, ConfigResolution, w.flags);
    if w.flags.None? {
      IncludedBoundary(err, failures, MetricsOpen, w.metricsOpen);
      if w.metricsOpen.None? {
        IncludedBoundary(err, failures, StoreOpen, w.storeOpen);
        IncludedBoundary(err, failures, MetricsClose, w.metricsClose);
        if w.storeOpen.None? { IncludedBoundary(err, failures, OptionsSetup, w.options); }
      }
    }
  }

  /** The call succeeds exactly when everything that is asked on its way answers none; and as long as all answer none
      the way goes on, so that means everything. */
  lemma SucceedsIffNothingFails(w: World, err: Option<Error>)
    requires Carries(err, Failures(w))
    ensures err.None? <==>
              && w.flags.None? && w.metricsOpen.None? && w.storeOpen.None? && w.options.None? && w.sync.None?
              && w.storeClose.None? && w.statsOutput.None? && w.context.None? && w.refresh.None?
              && w.reporterFinish.None? && w.refreshOutput.None? && w.gcOutput.None? && w.startedEvent.None?
              && w.completionEvents.None? && w.metricsClose.None?
  {
    if SyncRuns(w) {
      SyncFailuresAreReported(w, err);
      if Refreshes(w) { RefreshFailuresAreReported(w, err); }
    } else {
      SetupFailuresAreReported(w, err);
    }
  }

  /** `e` is some collaborator's own answer, behind the boundary it belongs to if it has one. */
  ghost predicate Answered(w: World, e: Error) {
    || Some(e) == Wrap(ConfigResolution, w.flags) || Some(e) == Wrap(MetricsOpen, w.metricsOpen)
    || Some(e) == Wrap(StoreOpen, w.storeOpen) || Some(e) == Wrap(OptionsSetup, w.options)
    || Some(e) == w.sync || Some(e) == Wrap(StoreClose, w.storeClose) || Some(e) == Wrap(Output, w.statsOutput)
    || Some(e) == w.context || Some(e) == w.refresh || Some(e) == Wrap(Output, w.reporterFinish)
    || Some(e) == Wrap(Output, w.refreshOutput) || Some(e) == Wrap(Output, w.gcOutput)
    || Some(e) == w.startedEvent || Some(e) == w.completionEvents || Some(e) == Wrap(MetricsClose, w.metricsClose)
  }

  lemma InOne(e: Error, err: Option<Error>)
    ensures e in One(err) <==> err == Some(e)
  {}

  /** Nothing is reported that nobody answered. */
  lemma NothingIsInvented(w: World, e: Error)
    requires e in Failures(w)
    ensures Answered(w, e)
  {
    if e !in One(Wrap(MetricsClose, w.metricsClose)) && SyncRuns(w) {
      if e !in RunFailures(w) {
        assert e in SummaryFailures(w) || e in One(w.startedEvent) || e in One(w.completionEvents);
      }
    }
  }

  /** The metrics sink's failure to close comes last. */
  lemma MetricsCloseIsLast(w: World)
    requires w.flags.None? && w.metricsOpen.None? && w.metricsClose.Some?
    ensures Failures(w) != [] && Failures(w)[|Failures(w)| - 1] == BoundaryError(MetricsClose, w.metricsClose.value)
  {}

  /** What the notifier hears of first is the sync's own first failure, whatever cleanup failed afterwards: the types
      reported are the first occurrences among all failures in order, and the sync's types are in front. */
  lemma SyncFailureIsNotifiedFirst(w: World, err: Option<Error>)
    requires SyncRuns(w) && w.sync.Some? && Carries(err, Failures(w))
    ensures err.Some? && FailureTypes(err.value) == Dedup(Classes(BranchesOf(Failures(w))))
    ensures FailureTypes(w.sync.value) <= FailureTypes(err.value)
    ensures FailureTypes(w.sync.value) != [] ==>
              ClassifyOutcomes(Failed, err)[..|FailureTypes(w.sync.value)|] ==
                FailureOutcomes(FailureTypes(w.sync.value))
  {
    SyncIsFirst(w);
    BranchesConcat([w.sync.value], Failures(w)[1..]);
    assert Failures(w) == [w.sync.value] + Failures(w)[1..];
    CarriesOne(w.sync);
    PrimaryFailureFirst(w.sync.value, err.value);
    FailureTypesAreFlat(err.value);
    if FailureTypes(w.sync.value) != [] { assert !IsCancellationOnly(err.value); }
  }

  lemma SyncIsFirst(w: World)
    requires SyncRuns(w) && w.sync.Some?
    ensures Failures(w) != [] && Failures(w)[0] == w.sync.value && RunFailures(w) <= Failures(w)
  {
    assert RunFailures(w)[0] == w.sync.value;
    if Refreshes(w) { InOrder(w); }
  }
}

/** One scheduled audit run (internal/app/audit_scheduler.go, run): the effects it attempts and how it finishes. */
module AuditSchedulerRun {

  datatype Effect =
    | RunAudit | SaveReport | EmitMetric | LoadAlertState | ApplyObservation
    | SaveNextState | Deliver | SaveAcknowledgement

  const CANONICAL := [
    RunAudit, SaveReport, EmitMetric, LoadAlertState, ApplyObservation, SaveNextState, Deliver, SaveAcknowledgement]

  datatype Finish = Ok | Failed(code: string)

  function CodeOf(e: Effect): string {
    match e
    case RunAudit => "run_failed"
    case SaveReport => "report_sink_failed"
    case EmitMetric => "metrics_sink_failed"
    case LoadAlertState => "alert_state_read_failed"
    case ApplyObservation => "alert_transition_failed"
    case SaveNextState => "alert_state_write_failed"
    case Deliver => "webhook_failed"
    case SaveAcknowledgement => "alert_state_ack_failed"
  }

  /** `wired` says a runner and a store are configured; `works` is each collaborator's answer, and `notify` the
      alert decision, which asks for delivery only when a webhook is configured. */
  class Run {
    const wired: bool
    const works: Effect -> bool
    const notify: bool
    var log: seq<Effect>
    var finishes: seq<Finish>

    constructor (wired: bool, works: Effect -> bool, notify: bool)
      ensures this.wired == wired && this.works == works && this.notify == notify && log == [] && finishes == []
    {
      this.wired, this.works, this.notify := wired, works, notify;
      log, finishes := [], [];
    }

    /** How a run that attempted the first `n` effects finishes. */
    ghost predicate Concluded(n: nat, f: Finish)
      requires n <= |CANONICAL|
    {
      && (forall i :: 0 <= i < n - 1 && CANONICAL[i] != EmitMetric ==> works(CANONICAL[i]))
      && (n == 0 <==> !wired)
      && (n > 6 ==> notify)
      && if n == 0 then f == Failed("unavailable")
         else if !works(CANONICAL[n - 1]) && n != 3 then f == Failed(CodeOf(CANONICAL[n - 1]))
         else n == (if notify then 8 else 6) && f == if works(EmitMetric) then Ok else Failed(CodeOf(EmitMetric))
    }

    /** The effects attempted so far are the first ones of the canonical order. */
    ghost predicate InOrder()
      reads this`log
    {
      |log| <= |CANONICAL| && log == CANONICAL[..|log|]
    }

    method Attempt(e: Effect) returns (ok: bool)
      requires InOrder() && |log| < |CANONICAL| && e == CANONICAL[|log|]
      modifies this`log
      ensures InOrder() && |log| == old(|log|) + 1 && ok == works(e)
    {
      log := log + [e];
      return works(e);
    }

    method Conclude(f: Finish)
      modifies this`finishes
      ensures finishes == old(finishes) + [f]
    {
      finishes := finishes + [f];
    }

    /** Attempts the effects in order up to the first failure that matters, skipping delivery unless asked for,
        and finishes exactly once. */
    method Execute()
      requires log == [] && finishes == []
      modifies this`log, this`finishes
      ensures InOrder() && |finishes| == 1 && Concluded(|log|, finishes[0])
    {
      if !wired {
        Conclude(Failed("unavailable"));
        return;
      }
      var ok := Attempt(RunAudit);
      if !ok {
        Conclude(Failed("run_failed"));
        return;
      }
      ok := Attempt(SaveReport);
      if !ok {
        Conclude(Failed("report_sink_failed"));
        return;
      }
      var metricOk := Attempt(EmitMetric);
      Alert(metricOk);
    }

    /** The alert half of the run, after the report was saved and its metric attempted. */
    method Alert(metricOk: bool)
      requires wired && InOrder() && |log| == 3 && finishes == []
      requires works(RunAudit) && works(SaveReport) && metricOk == works(EmitMetric)
      modifies this`log, this`finishes
      ensures InOrder() && |finishes| == 1 && Concluded(|log|, finishes[0])
    {
      var ok := Attempt(LoadAlertState);
      if !ok {
        Conclude(Failed("alert_state_read_failed"));
        return;
      }
      ok := Attempt(ApplyObservation);
      if !ok {
        Conclude(Failed("alert_transition_failed"));
        return;
      }
      ok := Attempt(SaveNextState);
      if !ok {
        Conclude(Failed("alert_state_write_failed"));
        return;
      }
      if notify {
        ok := Attempt(Deliver);
        if !ok {
          Conclude(Failed("webhook_failed"));
          return;
        }
        ok := Attempt(SaveAcknowledgement);
        if !ok {
          Conclude(Failed("alert_state_ack_failed"));
          return;
        }
      }
      if !metricOk {
        Conclude(Failed("metrics_sink_failed"));
        return;
      }
      Conclude(Ok);
    }

    /** The run succeeds iff it was wired and everything it attempted worked; delivery happens only once the next
        state is durable, and is acknowledged only if it worked. */
    lemma ConcludedMeans(n: nat, f: Finish)
      requires n <= |CANONICAL| && Concluded(n, f)
      ensures f == Ok <==> wired && forall i :: 0 <= i < n ==> works(CANONICAL[i])
      ensures Deliver in CANONICAL[..n] <==> SaveNextState in CANONICAL[..n] && works(SaveNextState) && notify
      ensures SaveAcknowledgement in CANONICAL[..n] <==> Deliver in CANONICAL[..n] && works(Deliver)
      ensures SaveNextState in CANONICAL[..n] <==> ApplyObservation in CANONICAL[..n] && works(ApplyObservation)
      ensures f.Failed? && wired ==> exists e :: e in CANONICAL[..n] && !works(e) && f.code == CodeOf(e)
    {
      assert n >= 3 ==> CANONICAL[2] == EmitMetric;
      PrefixHas(n, 4, ApplyObservation);
      PrefixHas(n, 5, SaveNextState);
      PrefixHas(n, 6, Deliver);
      PrefixHas(n, 7, SaveAcknowledgement);
      PrefixHas(n, 2, EmitMetric);
      if n > 0 { assert CANONICAL[n - 1] in CANONICAL[..n] by { assert CANONICAL[..n][n - 1] == CANONICAL[n - 1]; } }
    }

    /** Which effect a failed run's code names: the run, the report, each step of the alert, or at the end the metric;
        and what was attempted by then. */
    lemma CodesNameEffects(n: nat, f: Finish)
      requires n <= |CANONICAL| && Concluded(n, f)
      ensures f == Failed("unavailable") <==> !wired
      ensures f == Failed("run_failed") <==> wired && !works(RunAudit)
      ensures f == Failed("report_sink_failed") <==> wired && works(RunAudit) && !works(SaveReport)
      ensures f == Failed("alert_state_read_failed") <==> Reported() && !works(LoadAlertState)
      ensures f == Failed("alert_transition_failed") <==>
                Reported() && works(LoadAlertState) && !works(ApplyObservation)
      ensures f == Failed("alert_state_write_failed") <==>
                Reported() && works(LoadAlertState) && works(ApplyObservation) && !works(SaveNextState)
      ensures f == Failed("webhook_failed") <==> Durable() && notify && !works(Deliver)
      ensures f == Failed("alert_state_ack_failed") <==>
                Durable() && notify && works(Deliver) && !works(SaveAcknowledgement)
      ensures f == Failed("metrics_sink_failed") <==>
                Durable() && (notify ==> works(Deliver) && works(SaveAcknowledgement)) && !works(EmitMetric)
      ensures f == Ok <==> Durable() && (notify ==> works(Deliver) && works(SaveAcknowledgement)) && works(EmitMetric)
    {
      assert forall i :: 0 <= i < n - 1 && i != 2 ==> works(CANONICAL[i]);
      assert n > 1 ==> works(CANONICAL[0]);
      assert n > 2 ==> works(CANONICAL[1]);
      assert n > 4 ==> works(CANONICAL[3]);
      assert n > 5 ==> works(CANONICAL[4]);
      assert n > 6 ==> works(CANONICAL[5]);
      assert n > 7 ==> works(CANONICAL[6]);
    }

    /** The audit ran and its report was saved. */
    ghost predicate Reported() { wired && works(RunAudit) && works(SaveReport) }

    /** The next alert state was written, too. */
    ghost predicate Durable() { Reported() && works(LoadAlertState) && works(ApplyObservation) && works(SaveNextState) }

    /** What is attempted waits for what it needs: the report for the audit, the metric and the alert for the report. */
    lemma AttemptsWait(n: nat, f: Finish)
      requires n <= |CANONICAL| && Concluded(n, f)
      ensures RunAudit in CANONICAL[..n] <==> wired
      ensures SaveReport in CANONICAL[..n] <==> wired && works(RunAudit)
      ensures EmitMetric in CANONICAL[..n] <==> Reported()
      ensures LoadAlertState in CANONICAL[..n] <==> Reported()
      ensures ApplyObservation in CANONICAL[..n] <==> Reported() && works(LoadAlertState)
      ensures SaveNextState in CANONICAL[..n] <==> Reported() && works(LoadAlertState) && works(ApplyObservation)
      ensures Deliver in CANONICAL[..n] <==> Durable() && notify
      ensures SaveAcknowledgement in CANONICAL[..n] <==> Durable() && notify && works(Deliver)
    {
      PrefixHas(n, 0, RunAudit);
      PrefixHas(n, 1, SaveReport);
      PrefixHas(n, 2, EmitMetric);
      PrefixHas(n, 3, LoadAlertState);
      PrefixHas(n, 4, ApplyObservation);
      PrefixHas(n, 5, SaveNextState);
      PrefixHas(n, 6, Deliver);
      PrefixHas(n, 7, SaveAcknowledgement);
      assert n > 1 ==> works(CANONICAL[0]);
      assert n > 2 ==> works(CANONICAL[1]);
      assert n > 4 ==> works(CANONICAL[3]);
      assert n > 5 ==> works(CANONICAL[4]);
      assert n > 6 ==> works(CANONICAL[5]);
      assert n > 7 ==> works(CANONICAL[6]);
    }

    static lemma PrefixHas(n: nat, i: nat, e: Effect)
      requires n <= |CANONICAL| && i < |CANONICAL| && CANONICAL[i] == e
      ensures e in CANONICAL[..n] <==> i < n
    {
      if i < n { assert CANONICAL[..n][i] == e; }
    }
  }
}

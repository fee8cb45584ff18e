/** The coordinator as the program keeps it: heap records that settle in place, shared between the
    table and the `active` pointer. Each method is one lock section and performs the pure transition. */
module AuditCoordinator {
  import opened Arithmetic
  import opened Options
  import opened Sorting
  import opened AuditRuns

  class RunRecord {
    const id: string
    const profile: Profile
    const startedAt: Time
    var state: RunState
    var terminalAt: Time
    var errorCode: ErrorCode
    var report: Option<Report>

    constructor (id: string, profile: Profile, startedAt: Time)
      ensures View() == NewRecord(id, profile, startedAt)
    {
      this.id, this.profile, this.startedAt := id, profile, startedAt;
      state, terminalAt, errorCode, report := Running, ZERO_TIME, NoError, None;
    }

    function View(): Record
      reads this
    {
      Record(id, profile, state, startedAt, terminalAt, errorCode, report)
    }
  }

  class AuditRunCoordinator {
    var records: map<string, RunRecord>
    var active: RunRecord?
    var lastStandardAt: Time
    var cancelled: bool

    /** The running record, if any, is the active one. */
    ghost predicate Valid()
      reads this, records.Values
    {
      && (forall id :: id in records ==>
            records[id].id == id && (records[id].state == Running ==> active == records[id]))
      && (active != null ==> active.id in records && records[active.id] == active && active.state == Running)
    }

    ghost function View(): Coordinator
      reads this, records.Values
    {
      Coordinator(map id | id in records :: records[id].View(),
                  if active == null then None else Some(active.id), lastStandardAt, cancelled)
    }

    constructor ()
      ensures Valid() && View() == INITIAL
    {
      records, active, lastStandardAt, cancelled := map[], null, ZERO_TIME, false;
    }

    method CleanupLocked(now: Time)
      requires Valid()
      modifies this`records
      ensures Valid() && View() == CleanedUp(old(View()), now)
    {
      var left, dropped := ScanLocked(now);
      left := DropOldest(left, dropped);
      KeepOnly(left, now);
    }

    method KeepOnly(left: map<string, RunRecord>, ghost now: Time)
      requires Valid()
      requires forall id :: id in left ==> id in records && left[id] == records[id]
      requires left.Keys == Cleanup(View().records, now).Keys
      modifies this`records
      ensures Valid() && View() == CleanedUp(old(View()), now)
    {
      ghost var kept := Cleanup(View().records, now);
      assert active != null ==> active.id in kept;
      records := left;
      assert View().records == kept;
    }

    /** Visits every record, drops the expired ones, and sorts out which of the other terminal ones to drop. */
    method ScanLocked(now: Time) returns (left: map<string, RunRecord>, dropped: seq<Key>)
      requires Valid()
      ensures left.Keys - IdsOf(dropped) == Cleanup(View().records, now).Keys
      ensures forall id :: id in left ==> id in records && left[id] == records[id]
    {
      var terminal: seq<Key>;
      left, terminal := VisitLocked(now);
      ScanResult(View().records, now, left.Keys, terminal);
      dropped := Dropped(terminal);
    }

    /** Visits every record once, in any order: drops the expired and lists the other terminal ones. */
    method VisitLocked(now: Time) returns (left: map<string, RunRecord>, terminal: seq<Key>)
      requires Valid()
      ensures Scanned(View().records, now, {}, left.Keys, terminal)
      ensures forall id :: id in left ==> id in records && left[id] == records[id]
    {
      ghost var all := View().records;
      left, terminal := records, [];
      var pending := records.Keys;
      while pending != {}
        invariant Scanned(all, now, pending, left.Keys, terminal)
        invariant forall id :: id in left ==> id in records && left[id] == records[id]
      {
        var id :| id in pending;
        ScanStep(all, now, pending, left.Keys, terminal, id);
        pending := pending - {id};
        var record := left[id];
        assert record.View() == all[id];
        if record.state == Running {
          continue;
        }
        if record.terminalAt != ZERO_TIME && Sub(now, record.terminalAt) >= RETENTION {
          left := left - {id};
          continue;
        }
        terminal := terminal + [Key(record.terminalAt, id)];
      }
    }

    static method DropOldest(records: map<string, RunRecord>, keys: seq<Key>) returns (left: map<string, RunRecord>)
      ensures left.Keys == records.Keys - IdsOf(keys)
      ensures forall id :: id in left ==> id in records && left[id] == records[id]
    {
      left := records;
      for n := 0 to |keys|
        invariant left.Keys == records.Keys - IdsOf(keys[..n])
        invariant forall id :: id in left ==> id in records && left[id] == records[id]
      {
        left := left - {keys[n].id};
        assert IdsOf(keys[..n + 1]) == IdsOf(keys[..n]) + {keys[n].id};
      }
      assert keys[..|keys|] == keys;
    }

    method Start(profile: Profile, now: Time, newId: Option<string>) returns (result: StartResult, spawned: RunRecord?)
      requires Valid()
      modifies this
      ensures Valid() && Consistent(CleanedUp(old(View()), now))
      ensures (View(), result) == AuditRuns.Start(old(View()), profile, now, newId)
      ensures spawned == if result.Started? then active else null
    {
      spawned := null;
      CleanedUpConsistent(now);
      if profile == Deep || cancelled {
        result := Unavailable;
        return;
      }
      CleanupLocked(now);
      result, spawned := AdmitLocked(profile, now, newId);
    }

    lemma CleanedUpConsistent(now: Time)
      requires Valid()
      ensures Consistent(View()) && Consistent(CleanedUp(View(), now))
    {}

    /** Start's lock section after the eviction. */
    method AdmitLocked(profile: Profile, now: Time, newId: Option<string>)
      returns (result: StartResult, spawned: RunRecord?)
      requires Valid()
      modifies this
      ensures Valid() && Consistent(old(View()))
      ensures (View(), result) == Admit(old(View()), profile, now, newId)
      ensures spawned == if result.Started? then active else null
    {
      spawned := null;
      if active != null {
        if active.profile == profile {
          result := Deduplicated(StatusOf(active.View(), now));
        } else {
          result := Conflict(active.id, active.profile);
        }
        return;
      }
      if profile == Standard && lastStandardAt != ZERO_TIME {
        var remaining := Wrap64(MIN_INTERVAL - Sub(now, lastStandardAt));
        if remaining > 0 {
          result := RateLimited(CeilSeconds(remaining));
          return;
        }
      }
      if newId.None? {
        result := Unavailable;
        return;
      }
      ghost var before := View().records;
      var record := new RunRecord(newId.value, profile, now);
      records := records[record.id := record];
      active := record;
      if profile == Standard {
        lastStandardAt := now;
      }
      assert View().records == before[record.id := record.View()];
      result := AuditRuns.Started(StatusOf(record.View(), now));
      spawned := record;
    }

    /** The pointer comparison under which a finished run may touch its record. */
    ghost predicate Owns(record: RunRecord)
      reads this, record
    {
      record.id in records && records[record.id] == record && record.state == Running
    }

    method Complete(record: RunRecord, report: Report, now: Time)
      requires Valid()
      modifies this, record
      ensures Valid()
      ensures View() == if old(Owns(record)) then Settle(old(View()), record.id, Success(report), now) else old(View())
      ensures old(Owns(record)) ==>
                && record.state == Completed && record.report == Some(report) && record.terminalAt == now
                && record.errorCode == old(record.errorCode) && active != record
      ensures !old(Owns(record)) ==> record.View() == old(record.View()) && active == old(active)
    {
      ghost var before := View();
      if record.id in records && records[record.id] == record && record.state == Running {
        record.report := Some(report);
        record.state := Completed;
        record.terminalAt := now;
        if active == record {
          active := null;
        }
        assert View().records == before.records[record.id := record.View()];
        CleanupLocked(now);
      }
    }

    method FinishFailed(record: RunRecord, code: ErrorCode, now: Time)
      requires Valid()
      modifies this, record
      ensures Valid()
      ensures View() == if old(Owns(record)) then Settle(old(View()), record.id, Failure(code), now) else old(View())
      ensures old(Owns(record)) ==>
                && record.state == Failed && record.errorCode == code && record.terminalAt == now
                && record.report == old(record.report) && active != record
      ensures !old(Owns(record)) ==> record.View() == old(record.View()) && active == old(active)
    {
      ghost var before := View();
      if record.id in records && records[record.id] == record && record.state == Running {
        record.state := Failed;
        record.errorCode := code;
        record.terminalAt := now;
        if active == record {
          active := null;
        }
        assert View().records == before.records[record.id := record.View()];
        CleanupLocked(now);
      }
    }

    method Status(id: string, now: Time) returns (answer: Option<AuditRuns.Status>)
      requires Valid()
      modifies this`records
      ensures Valid() && View() == CleanedUp(old(View()), now)
      ensures answer == Lookup(old(View()), id, now)
    {
      CleanupLocked(now);
      if id !in records {
        return None;
      }
      return Some(StatusOf(records[id].View(), now));
    }
  }
}

/** The on-demand audit run coordinator (web/audit_runs.go): one pure transition per lock section, and the ranking by
    which eviction keeps the newest records. Times are nanoseconds counted from Go's zero time. */
module AuditRuns {
  import opened Arithmetic
  import opened Options
  import opened Sorting
  import Strings

  type Time = int

  const ZERO_TIME: Time := 0
  const SECOND := 1_000_000_000
  const RETENTION := 24 * 3600 * SECOND
  const TERMINAL_LIMIT := 100
  const MIN_INTERVAL := 60 * SECOND

  datatype Profile = Fast | Standard | Deep

  datatype RunState = Running | Completed | Failed

  datatype ErrorCode = NoError | RunFailed | PersistFailed

  /** `wellFormed` stands for audit.ValidateReport. */
  datatype Report = Report(auditId: int, profile: Profile, wholeSystem: bool, filtered: bool, wellFormed: bool)

  datatype Record = Record(
    id: string, profile: Profile, state: RunState, startedAt: Time,
    terminalAt: Time, errorCode: ErrorCode, report: Option<Report>)

  datatype Status = Status(
    id: string, profile: Profile, state: RunState, startedAt: Time,
    completedAt: Option<Time>, errorCode: ErrorCode, report: Option<Report>, presentedAt: Option<Time>)

  datatype StartResult =
    | Started(status: Status)
    | Deduplicated(status: Status)
    | Conflict(activeId: string, activeProfile: Profile)
    | RateLimited(retryAfterSeconds: int)
    | Unavailable

  /** What the mutex protects, and whether the lifecycle context has been cancelled. */
  datatype Coordinator = Coordinator(
    records: map<string, Record>, active: Option<string>, lastStandardAt: Time, cancelled: bool)

  const INITIAL := Coordinator(map[], None, ZERO_TIME, false)

  // ----- Durations are 64-bit: Sub saturates, subtraction wraps around -----

  function Sub(t: Time, u: Time): int {
    if t - u < -TWO_63 then -TWO_63 else if t - u >= TWO_63 then TWO_63 - 1 else t - u
  }

  function CeilSeconds(d: int): int { (d + SECOND - 1) / SECOND }

  // ----- Eviction -----

  predicate Expired(r: Record, now: Time) {
    r.terminalAt != ZERO_TIME && Sub(now, r.terminalAt) >= RETENTION
  }

  predicate Unexpired(r: Record, now: Time) { r.state != Running && !Expired(r, now) }

  /** `r` comes after `s` in the eviction order: by terminal time, then by run id. */
  predicate After(r: Record, s: Record) {
    r.terminalAt > s.terminalAt || (r.terminalAt == s.terminalAt && Strings.Less(s.id, r.id))
  }

  /** The unexpired terminal records that outrank `id`. */
  ghost function Newer(m: map<string, Record>, id: string, now: Time): set<string>
    requires id in m
  {
    set x | x in m && Unexpired(m[x], now) && After(m[x], m[id])
  }

  /** A record survives while it runs, and then while it is unexpired and among the newest hundred. */
  ghost predicate Kept(m: map<string, Record>, id: string, now: Time)
    requires id in m
  {
    m[id].state == Running || (!Expired(m[id], now) && |Newer(m, id, now)| < TERMINAL_LIMIT)
  }

  ghost function Cleanup(m: map<string, Record>, now: Time): map<string, Record> {
    map id | id in m && Kept(m, id, now) :: m[id]
  }

  ghost function CleanedUp(c: Coordinator, now: Time): Coordinator {
    c.(records := Cleanup(c.records, now))
  }

  // ----- The lock sections, without the eviction they begin or end with -----

  function StatusOf(r: Record, now: Time): Status {
    var presented := r.state == Completed && r.report.Some?;
    Status(r.id, r.profile, r.state, r.startedAt,
           if r.terminalAt == ZERO_TIME then None else Some(r.terminalAt), r.errorCode,
           if presented then r.report else None, if presented then Some(now) else None)
  }

  function NewRecord(id: string, profile: Profile, now: Time): Record {
    Record(id, profile, Running, now, ZERO_TIME, NoError, None)
  }

  predicate Consistent(c: Coordinator) {
    && (forall id :: id in c.records ==> c.records[id].id == id)
    && (c.active.Some? ==> c.active.value in c.records)
  }

  /** The wait imposed on a standard start, in nanoseconds; at most zero when there is none. */
  function Wait(lastStandardAt: Time, now: Time): int {
    if lastStandardAt == ZERO_TIME then 0 else Wrap64(MIN_INTERVAL - Sub(now, lastStandardAt))
  }

  function Remaining(c: Coordinator, now: Time): int { Wait(c.lastStandardAt, now) }

  /** `newId` is the generated run id, absent when the random source fails. */
  function Admit(c: Coordinator, profile: Profile, now: Time, newId: Option<string>): (Coordinator, StartResult)
    requires Consistent(c)
  {
    if c.active.Some? then
      var r := c.records[c.active.value];
      if r.profile == profile then (c, Deduplicated(StatusOf(r, now))) else (c, Conflict(r.id, r.profile))
    else if profile == Standard && Remaining(c, now) > 0 then
      (c, RateLimited(CeilSeconds(Remaining(c, now))))
    else if newId.None? then (c, Unavailable)
    else
      var r := NewRecord(newId.value, profile, now);
      (c.(records := c.records[r.id := r], active := Some(r.id),
          lastStandardAt := if profile == Standard then now else c.lastStandardAt),
       Started(StatusOf(r, now)))
  }

  datatype Verdict = Success(report: Report) | Failure(code: ErrorCode)

  function Terminal(r: Record, v: Verdict, now: Time): Record {
    match v
    case Success(report) => r.(state := Completed, terminalAt := now, report := Some(report))
    case Failure(code) => r.(state := Failed, terminalAt := now, errorCode := code)
  }

  /** The guard under which execute and finishFailed touch a record. */
  predicate CanSettle(c: Coordinator, id: string) { id in c.records && c.records[id].state == Running }

  function Settled(c: Coordinator, id: string, v: Verdict, now: Time): Coordinator
    requires CanSettle(c, id)
  {
    c.(records := c.records[id := Terminal(c.records[id], v, now)],
       active := if c.active == Some(id) then None else c.active)
  }

  // ----- The lock sections as the program runs them -----

  predicate Accepts(c: Coordinator, profile: Profile) { profile != Deep && !c.cancelled }

  ghost function Start(c: Coordinator, profile: Profile, now: Time, newId: Option<string>): (Coordinator, StartResult)
    requires Consistent(CleanedUp(c, now))
  {
    if Accepts(c, profile) then Admit(CleanedUp(c, now), profile, now, newId) else (c, Unavailable)
  }

  ghost function Settle(c: Coordinator, id: string, v: Verdict, now: Time): Coordinator {
    if CanSettle(c, id) then CleanedUp(Settled(c, id, v, now), now) else c
  }

  ghost function Lookup(c: Coordinator, id: string, now: Time): Option<Status> {
    if id in Cleanup(c.records, now) then Some(StatusOf(c.records[id], now)) else None
  }

  // ----- Sorting ranks the records as eviction does -----

  datatype Key = Key(at: Time, id: string)

  predicate KeyAtMost(a: Key, b: Key) { a.at < b.at || (a.at == b.at && Strings.AtMost(a.id, b.id)) }

  lemma KeyOrder()
    ensures TotalOrder(KeyAtMost)
  {
    forall a: Key, b: Key ensures KeyAtMost(a, b) || KeyAtMost(b, a)
    ensures KeyAtMost(a, b) && KeyAtMost(b, a) ==> a == b {
      Strings.LessTotal(a.id, b.id);
    }
    forall a: Key, b: Key, c: Key | KeyAtMost(a, b) && KeyAtMost(b, c) ensures KeyAtMost(a, c) {
      if Strings.Less(a.id, b.id) && Strings.Less(b.id, c.id) { Strings.LessTransitive(a.id, b.id, c.id); }
    }
  }

  /** `keys` lists the unexpired terminal records of `m`, each once. */
  ghost predicate Lists(keys: seq<Key>, m: map<string, Record>, now: Time) {
    && Distinct(keys)
    && (forall k :: k in keys ==>
          k.id in m && Unexpired(m[k.id], now) && k.at == m[k.id].terminalAt && m[k.id].id == k.id)
    && (forall id :: id in m && Unexpired(m[id], now) ==> Key(m[id].terminalAt, id) in keys)
  }

  lemma OutranksIffLater(keys: seq<Key>, m: map<string, Record>, now: Time, i: nat, j: nat)
    requires Lists(keys, m, now) && Sorted(keys, KeyAtMost) && i < |keys| && j < |keys|
    ensures After(m[keys[j].id], m[keys[i].id]) <==> i < j
  {
    assert keys[i] in keys && keys[j] in keys;
    Strings.LessTotal(keys[i].id, keys[j].id);
    if i < j {
      assert KeyAtMost(keys[i], keys[j]) && keys[i] != keys[j];
    } else if j < i {
      assert KeyAtMost(keys[j], keys[i]) && keys[i] != keys[j];
    }
  }

  ghost function IdsFrom(keys: seq<Key>, i: nat): set<string> {
    set j | i <= j < |keys| :: keys[j].id
  }

  lemma {:induction false} IdsFromCardinality(keys: seq<Key>, m: map<string, Record>, now: Time, i: nat)
    requires Lists(keys, m, now) && i <= |keys|
    ensures |IdsFrom(keys, i)| == |keys| - i
    decreases |keys| - i
  {
    if i < |keys| {
      IdsFromCardinality(keys, m, now, i + 1);
      assert IdsFrom(keys, i) == {keys[i].id} + IdsFrom(keys, i + 1);
      forall j | i + 1 <= j < |keys| ensures keys[j].id != keys[i].id {
        assert keys[i] in keys && keys[j] in keys;
      }
    }
  }

  /** In the sorted list, a record is outranked by exactly the ones listed after it. */
  lemma RankInSortedList(keys: seq<Key>, m: map<string, Record>, now: Time, i: nat)
    requires Lists(keys, m, now) && Sorted(keys, KeyAtMost) && i < |keys|
    ensures |Newer(m, keys[i].id, now)| == |keys| - 1 - i
  {
    assert keys[i] in keys;
    IdsFromCardinality(keys, m, now, i + 1);
    forall x | x in m ensures x in Newer(m, keys[i].id, now) <==> x in IdsFrom(keys, i + 1) {
      if Unexpired(m[x], now) {
        var j :| 0 <= j < |keys| && keys[j] == Key(m[x].terminalAt, x);
        OutranksIffLater(keys, m, now, i, j);
        forall k | 0 <= k < |keys| && keys[k].id == x ensures k == j {
          assert keys[k] in keys;
        }
      }
    }
    assert forall j :: 0 <= j < |keys| ==> keys[j] in keys;
    assert Newer(m, keys[i].id, now) == IdsFrom(keys, i + 1);
  }

  /** Dropping all but the last hundred of the sorted list leaves exactly the kept records. */
  lemma SortedListKeeps(keys: seq<Key>, m: map<string, Record>, now: Time)
    requires Lists(keys, m, now) && Sorted(keys, KeyAtMost)
    ensures forall i :: 0 <= i < |keys| ==> (Kept(m, keys[i].id, now) <==> i >= |keys| - TERMINAL_LIMIT)
  {
    forall i | 0 <= i < |keys| ensures Kept(m, keys[i].id, now) <==> i >= |keys| - TERMINAL_LIMIT {
      RankInSortedList(keys, m, now, i);
      assert keys[i] in keys;
    }
  }

  // ----- The eviction scan: one pass in any order, then a sort -----

  /** The scan has yet to visit `pending`; `left` are the surviving ids, `terminal` the listed ones. */
  ghost predicate Scanned(m: map<string, Record>, now: Time, pending: set<string>,
                          left: set<string>, terminal: seq<Key>) {
    && pending <= m.Keys
    && left == (set id | id in m && (id in pending || m[id].state == Running || !Expired(m[id], now)))
    && Distinct(terminal)
    && (forall k :: k in terminal ==>
          k.id in m && k.id !in pending && Unexpired(m[k.id], now) && k.at == m[k.id].terminalAt)
    && (forall id :: id in m && id !in pending && Unexpired(m[id], now) ==> Key(m[id].terminalAt, id) in terminal)
  }

  lemma ScanStep(m: map<string, Record>, now: Time, pending: set<string>,
                 left: set<string>, terminal: seq<Key>, id: string)
    requires Scanned(m, now, pending, left, terminal) && id in pending
    ensures id in left
    ensures m[id].state == Running ==> Scanned(m, now, pending - {id}, left, terminal)
    ensures m[id].state != Running && Expired(m[id], now) ==> Scanned(m, now, pending - {id}, left - {id}, terminal)
    ensures Unexpired(m[id], now) ==> Scanned(m, now, pending - {id}, left, terminal + [Key(m[id].terminalAt, id)])
  {
    var key := Key(m[id].terminalAt, id);
    assert key !in terminal;
    assert forall k :: k in terminal + [key] <==> k in terminal || k == key;
  }

  ghost function IdsOf(keys: seq<Key>): set<string> { set i | 0 <= i < |keys| :: keys[i].id }

  /** What the sort drops, once everything is scanned. */
  function Dropped(terminal: seq<Key>): seq<Key> {
    if |terminal| <= TERMINAL_LIMIT then []
    else SortPermutes(terminal, KeyAtMost); Sort(terminal, KeyAtMost)[..|terminal| - TERMINAL_LIMIT]
  }

  lemma ScanLists(m: map<string, Record>, now: Time, left: set<string>, terminal: seq<Key>)
    requires forall id :: id in m ==> m[id].id == id
    requires Scanned(m, now, {}, left, terminal)
    ensures var keys := Sort(terminal, KeyAtMost);
      |keys| == |terminal| && Sorted(keys, KeyAtMost) && Lists(keys, m, now)
  {
    KeyOrder();
    var keys := Sort(terminal, KeyAtMost);
    SortPermutes(terminal, KeyAtMost);
    SortSorted(terminal, KeyAtMost);
    DistinctPermutation(terminal, keys);
    forall k ensures k in keys <==> k in terminal {
      assert k in multiset(keys) <==> k in multiset(terminal);
    }
  }

  /** An id is among the dropped ones exactly when its record is listed and not kept. */
  lemma DroppedIffEvicted(m: map<string, Record>, now: Time, keys: seq<Key>, id: string)
    requires Sorted(keys, KeyAtMost) && Lists(keys, m, now) && id in m
    ensures id in IdsOf(if |keys| <= TERMINAL_LIMIT then [] else keys[..|keys| - TERMINAL_LIMIT])
       <==> Unexpired(m[id], now) && !Kept(m, id, now)
  {
    SortedListKeeps(keys, m, now);
    if Unexpired(m[id], now) {
      var i :| 0 <= i < |keys| && keys[i] == Key(m[id].terminalAt, id);
      forall j | 0 <= j < |keys| && keys[j].id == id ensures j == i {
        assert keys[j] in keys;
      }
    } else {
      forall j | 0 <= j < |keys| ensures keys[j].id != id {
        assert keys[j] in keys;
      }
    }
  }

  lemma ScanResult(m: map<string, Record>, now: Time, left: set<string>, terminal: seq<Key>)
    requires forall id :: id in m ==> m[id].id == id
    requires Scanned(m, now, {}, left, terminal)
    ensures left - IdsOf(Dropped(terminal)) == Cleanup(m, now).Keys
  {
    ScanLists(m, now, left, terminal);
    forall id | id in m ensures id in left - IdsOf(Dropped(terminal)) <==> Kept(m, id, now) {
      DroppedIffEvicted(m, now, Sort(terminal, KeyAtMost), id);
    }
  }
}

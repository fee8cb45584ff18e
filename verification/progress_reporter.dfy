/** The semantic progress reporter (internal/app/semantic_progress_reporter.go): a stream of durable snapshots becomes
    bounded, stage-oriented output. Writers are assumed to succeed. Times are nanoseconds. */
module ProgressReporter {
  import opened Options

  const SECOND := 1_000_000_000
  const CHANGE_INTERVAL := 5 * SECOND
  const HEARTBEAT_INTERVAL := 30 * SECOND

  const KNOWN_STAGES := {"projection", "embedding", "flush", "compaction", "verify", "readiness"}

  function KnownStage(stage: string): string { if stage in KNOWN_STAGES then stage else "" }

  /** `body` stands for the counters, debt, work and readiness, which are compared but not interpreted. */
  datatype Snapshot = Snapshot(stage: string, body: int)

  /** A snapshot and the instant it is reported at. */
  datatype Observation = Observation(snapshot: Snapshot, at: int)

  /** A line of output; a progress line remembers the instant it was written for. */
  datatype Line =
    | StageStart(stage: string)
    | Progress(shown: Observation)
    | Terminal(last: Snapshot, success: bool)

  function Last<T>(s: seq<T>): T
    requires s != []
  {
    s[|s| - 1]
  }

  // ----- The reference: cut the observations into runs of one stage, throttle each run, frame it -----

  predicate SameStage(a: Observation, b: Observation) { a.snapshot.stage == b.snapshot.stage }

  /** Where the last run of one stage begins. */
  function RunStart(seen: seq<Observation>): (k: nat)
    requires seen != []
    ensures k < |seen|
  {
    var n := |seen|;
    if n == 1 || !SameStage(seen[n - 2], seen[n - 1]) then n - 1 else RunStart(seen[..n - 1])
  }

  /** It is a run of one stage, and a maximal one: what precedes it is of another stage. */
  lemma {:induction false} RunIsMaximal(seen: seq<Observation>)
    requires seen != []
    ensures var k := RunStart(seen);
      && (forall i :: k <= i < |seen| ==> SameStage(seen[i], seen[|seen| - 1]))
      && (k > 0 ==> !SameStage(seen[k - 1], seen[k]))
  {
    var n := |seen|;
    if n > 1 && SameStage(seen[n - 2], seen[n - 1]) { RunIsMaximal(seen[..n - 1]); }
  }

  function Current(seen: seq<Observation>): seq<Observation>
    requires seen != []
  {
    seen[RunStart(seen)..]
  }

  /** A progress line is due five seconds after the last one if something changed, else thirty. */
  predicate Due(shown: Observation, x: Observation) {
    x.at - shown.at >= if x.snapshot != shown.snapshot then CHANGE_INTERVAL else HEARTBEAT_INTERVAL
  }

  /** The observations of a group that are shown. */
  function Shown(g: seq<Observation>): (shown: seq<Observation>)
    requires g != []
    ensures shown != [] && shown[0] == g[0]
  {
    if |g| == 1 then g
    else
      var before := Shown(g[..|g| - 1]);
      if Due(Last(before), Last(g)) then before + [Last(g)] else before
  }

  function ProgressLines(shown: seq<Observation>): seq<Line> {
    seq(|shown|, i requires 0 <= i < |shown| => Progress(shown[i]))
  }

  function OpenBlock(g: seq<Observation>): seq<Line>
    requires g != []
  {
    [StageStart(g[0].snapshot.stage)] + ProgressLines(Shown(g))
  }

  /** A block: its start, its progress lines and, once it is over, a terminal line with the last observed snapshot. */
  function Block(g: seq<Observation>, ending: Option<bool>): seq<Line>
    requires g != []
  {
    if ending.None? then OpenBlock(g) else OpenBlock(g) + [Terminal(Last(g).snapshot, ending.value)]
  }

  /** One block for each run, so neighbouring blocks are of different stages; every block but the last completed,
      the last one still open or ended as Finish was told. */
  function Output(seen: seq<Observation>, ending: Option<bool>): seq<Line>
    decreases |seen|
  {
    if seen == [] then [] else Output(seen[..RunStart(seen)], Some(true)) + Block(Current(seen), ending)
  }

  // ----- How the reference grows -----

  lemma OutputNewStage(seen: seq<Observation>, x: Observation)
    requires seen == [] || !SameStage(Last(seen), x)
    ensures Output(seen + [x], None) == Output(seen, Some(true)) + [StageStart(x.snapshot.stage), Progress(x)]
    ensures Current(seen + [x]) == [x]
  {
    var all := seen + [x];
    assert all[..|seen|] == seen && RunStart(all) == |seen|;
    assert ProgressLines([x]) == [Progress(x)];
    assert Output(all, None) == Output(seen, Some(true)) + Block([x], None);
  }

  lemma OpenBlockGrows(g: seq<Observation>, x: Observation)
    requires g != []
    ensures var shown := Shown(g);
      && OpenBlock(g + [x]) == OpenBlock(g) + (if Due(Last(shown), x) then [Progress(x)] else [])
      && Last(Shown(g + [x])) == if Due(Last(shown), x) then x else Last(shown)
  {
    assert (g + [x])[..|g|] == g;
    if Due(Last(Shown(g)), x) {
      assert ProgressLines(Shown(g) + [x]) == ProgressLines(Shown(g)) + [Progress(x)];
    }
  }

  ghost function PastOutput(seen: seq<Observation>): seq<Line>
    requires seen != []
  {
    Output(seen[..RunStart(seen)], Some(true))
  }

  lemma OutputOpen(seen: seq<Observation>)
    requires seen != []
    ensures Output(seen, None) == PastOutput(seen) + OpenBlock(Current(seen))
  {}

  lemma OutputEnded(seen: seq<Observation>, success: bool)
    requires seen != []
    ensures Output(seen, Some(success)) == PastOutput(seen)
              + (OpenBlock(Current(seen)) + [Terminal(Last(Current(seen)).snapshot, success)])
  {}

  lemma Appended(past: seq<Line>, more: seq<Line>, last: seq<Line>)
    ensures past + (more + last) == past + more + last
  {}

  lemma OutputSameStage(seen: seq<Observation>, x: Observation)
    requires seen != [] && SameStage(Last(seen), x)
    ensures var shown := Shown(Current(seen));
      && Output(seen + [x], None) == Output(seen, None) + (if Due(Last(shown), x) then [Progress(x)] else [])
      && Last(Shown(Current(seen + [x]))) == if Due(Last(shown), x) then x else Last(shown)
  {
    var all, g, k := seen + [x], Current(seen), RunStart(seen);
    assert Current(all) == g + [x] && PastOutput(all) == PastOutput(seen) by {
      assert all[..|seen|] == seen && RunStart(all) == k;
      assert all[..k] == seen[..k];
    }
    OpenBlockGrows(g, x);
    OutputOpen(seen);
    OutputOpen(all);
    Appended(PastOutput(seen), OpenBlock(g), if Due(Last(Shown(g)), x) then [Progress(x)] else []);
  }

  lemma OutputEnds(seen: seq<Observation>, success: bool)
    requires seen != []
    ensures Output(seen, Some(success)) == Output(seen, None) + [Terminal(Last(seen).snapshot, success)]
  {
    var g := Current(seen);
    assert Last(g) == Last(seen);
    OutputOpen(seen);
    OutputEnded(seen, success);
    Appended(PastOutput(seen), OpenBlock(g), [Terminal(Last(seen).snapshot, success)]);
  }

  // ----- The reporter -----

  class Reporter {
    var started: bool
    var finished: bool
    var lastObserved: Snapshot
    var lastEmitted: Snapshot
    var lastOutputAt: int
    var out: seq<Line>
    ghost var seen: seq<Observation>
    ghost var ending: Option<bool>

    /** The output so far is the reference output for what was observed. */
    ghost predicate Valid()
      reads this
    {
      && out == Output(seen, ending)
      && (started <==> seen != []) && (finished <==> ending.Some?) && (finished ==> started)
      && (started ==>
            && lastObserved == Last(seen).snapshot
            && Observation(lastEmitted, lastOutputAt) == Last(Shown(Current(seen))))
    }

    constructor ()
      ensures Valid() && seen == [] && out == [] && ending == None
    {
      started, finished, lastObserved, lastEmitted := false, false, Snapshot("", 0), Snapshot("", 0);
      lastOutputAt, out, seen, ending := 0, [], [], None;
    }

    method Report(stage: string, body: int, at: int)
      requires Valid()
      modifies this
      ensures Valid() && ending == old(ending)
      ensures old(finished) ==> out == old(out) && seen == old(seen)
      ensures !old(finished) ==> seen == old(seen) + [Observation(Snapshot(KnownStage(stage), body), at)]
    {
      if finished {
        return;
      }
      var snapshot := Snapshot(KnownStage(stage), body);
      ghost var x := Observation(snapshot, at);
      if !started {
        OutputNewStage(seen, x);
        seen := seen + [x];
        out := out + [StageStart(snapshot.stage)];
        out := out + [Progress(Observation(snapshot, at))];
        started, lastObserved, lastEmitted, lastOutputAt := true, snapshot, snapshot, at;
        return;
      }
      if snapshot.stage != lastObserved.stage {
        OutputNewStage(seen, x);
        OutputEnds(seen, true);
        seen := seen + [x];
        out := out + [Terminal(lastObserved, true)];
        out := out + [StageStart(snapshot.stage)];
        out := out + [Progress(Observation(snapshot, at))];
        lastObserved, lastEmitted, lastOutputAt := snapshot, snapshot, at;
        return;
      }
      OutputSameStage(seen, x);
      seen := seen + [x];
      lastObserved := snapshot;
      var elapsed := at - lastOutputAt;
      var changed := snapshot != lastEmitted;
      if changed {
        if elapsed < CHANGE_INTERVAL {
          return;
        }
      } else if elapsed < HEARTBEAT_INTERVAL {
        return;
      }
      out := out + [Progress(Observation(snapshot, at))];
      lastEmitted, lastOutputAt := snapshot, at;
    }

    method Finish(success: bool)
      requires Valid()
      modifies this
      ensures Valid() && seen == old(seen)
      ensures ending == if old(finished) || !old(started) then old(ending) else Some(success)
    {
      if finished || !started {
        return;
      }
      OutputEnds(seen, success);
      out := out + [Terminal(lastObserved, success)];
      finished := true;
      ending := Some(success);
    }
  }

  // ----- Rate -----

  ghost predicate NonDecreasing(g: seq<Observation>) { forall i, j :: 0 <= i < j < |g| ==> g[i].at <= g[j].at }

  /** In any group whose clock does not go backwards the progress lines are at most one, plus one for every full five
      seconds the group lasted. */
  lemma {:induction false} ProgressIsRateLimited(g: seq<Observation>)
    requires g != [] && NonDecreasing(g)
    ensures |Shown(g)| <= 1 + (Last(g).at - g[0].at) / CHANGE_INTERVAL
    ensures g[0].at + (|Shown(g)| - 1) * CHANGE_INTERVAL <= Last(Shown(g)).at <= Last(g).at
  {
    if |g| > 1 {
      ProgressIsRateLimited(g[..|g| - 1]);
    }
  }

  // ----- The output, line by line -----

  /** A changed snapshot is shown after five seconds and not before, an unchanged one after thirty. */
  lemma ShownWhenDue(g: seq<Observation>, x: Observation)
    requires g != []
    ensures var last, waited := Last(Shown(g)), x.at - Last(Shown(g)).at;
      && (x.snapshot != last.snapshot && waited >= 5_000_000_000 ==> Shown(g + [x]) == Shown(g) + [x])
      && (x.snapshot != last.snapshot && waited < 5_000_000_000 ==> Shown(g + [x]) == Shown(g))
      && (x.snapshot == last.snapshot && waited >= 30_000_000_000 ==> Shown(g + [x]) == Shown(g) + [x])
      && (x.snapshot == last.snapshot && waited < 30_000_000_000 ==> Shown(g + [x]) == Shown(g))
  {
    assert (g + [x])[..|g|] == g;
  }

  lemma StageIsKnown(stage: string)
    ensures KnownStage(stage) ==
      if stage == "projection" || stage == "embedding" || stage == "flush" || stage == "compaction" || stage == "verify"
         || stage == "readiness"
      then stage else ""
  {}

  function StageOf(line: Line): string {
    match line
    case StageStart(stage) => stage
    case Progress(shown) => shown.snapshot.stage
    case Terminal(last, _) => last.stage
  }

  /** What may follow a line: progress of its stage after a start, more of it or the end after progress, and the start
      of another stage after the end. */
  predicate Follows(a: Line, b: Line) {
    match a
    case StageStart(stage) => b.Progress? && StageOf(b) == stage
    case Progress(shown) => !b.StageStart? && StageOf(b) == shown.snapshot.stage
    case Terminal(last, success) => b.StageStart? && StageOf(b) != last.stage && success
  }

  ghost predicate Chained(out: seq<Line>) { forall i :: 0 < i < |out| ==> Follows(out[i - 1], out[i]) }

  ghost predicate Bracketed(out: seq<Line>) { Chained(out) && (out != [] ==> out[0].StageStart?) }

  lemma JoinChained(a: seq<Line>, b: seq<Line>)
    requires Chained(a) && Chained(b) && a != [] && b != [] && Follows(Last(a), b[0])
    ensures Chained(a + b)
  {
    var c := a + b;
    forall i | 0 < i < |c| ensures Follows(c[i - 1], c[i]) {
      if i < |a| {
        assert c[i - 1] == a[i - 1] && c[i] == a[i];
      } else if i > |a| {
        assert c[i - 1] == b[i - 1 - |a|] && c[i] == b[i - |a|];
      }
    }
  }

  lemma {:induction false} ShownAreOfGroup(g: seq<Observation>, stage: string)
    requires g != [] && forall i :: 0 <= i < |g| ==> g[i].snapshot.stage == stage
    ensures forall i :: 0 <= i < |Shown(g)| ==> Shown(g)[i].snapshot.stage == stage
  {
    if |g| > 1 { ShownAreOfGroup(g[..|g| - 1], stage); }
  }

  lemma OpenBlockIsBracketed(g: seq<Observation>, stage: string)
    requires g != [] && forall i :: 0 <= i < |g| ==> g[i].snapshot.stage == stage
    ensures var b := OpenBlock(g);
      Bracketed(b) && b[0] == StageStart(stage) && |b| >= 2 && Last(b).Progress? && StageOf(Last(b)) == stage
  {
    ShownAreOfGroup(g, stage);
    var lines := ProgressLines(Shown(g));
    assert forall i :: 0 <= i < |lines| ==> lines[i].Progress? && StageOf(lines[i]) == stage;
    assert OpenBlock(g) == [StageStart(stage)] + lines;
  }

  lemma BlockIsBracketed(g: seq<Observation>, ending: Option<bool>, stage: string)
    requires g != [] && forall i :: 0 <= i < |g| ==> g[i].snapshot.stage == stage
    ensures var b := Block(g, ending);
      && Bracketed(b) && b[0] == StageStart(stage) && |b| >= 2 && StageOf(Last(b)) == stage
      && (if ending.None? then Last(b).Progress? else Last(b) == Terminal(Last(g).snapshot, ending.value))
  {
    OpenBlockIsBracketed(g, stage);
    if ending.Some? { JoinChained(OpenBlock(g), [Terminal(Last(g).snapshot, ending.value)]); }
  }

  /** The whole output: every block starts, shows progress and, if it is over, ends, all of one stage; a block that is
      followed by another completed, and that other is of another stage; the last line is the end that Finish was told
      of, or progress if it was not. */
  lemma {:induction false} OutputIsBracketed(seen: seq<Observation>, ending: Option<bool>)
    ensures Bracketed(Output(seen, ending))
    ensures seen == [] <==> Output(seen, ending) == []
    ensures seen != [] ==> StageOf(Last(Output(seen, ending))) == Last(seen).snapshot.stage
    ensures seen != [] && ending.Some? ==> Last(Output(seen, ending)) == Terminal(Last(seen).snapshot, ending.value)
    ensures seen != [] && ending.None? ==> Last(Output(seen, ending)).Progress?
    decreases |seen|
  {
    if seen != [] {
      var past := seen[..RunStart(seen)];
      CurrentIsOneStage(seen);
      OutputIsBracketed(past, Some(true));
      BlockIsBracketed(Current(seen), ending, Last(seen).snapshot.stage);
      NextBlock(Output(past, Some(true)), Block(Current(seen), ending));
    }
  }

  lemma CurrentIsOneStage(seen: seq<Observation>)
    requires seen != []
    ensures var g, past := Current(seen), seen[..RunStart(seen)];
      && g != [] && Last(g) == Last(seen)
      && (forall i :: 0 <= i < |g| ==> g[i].snapshot.stage == Last(seen).snapshot.stage)
      && (past != [] ==> Last(past).snapshot.stage != Last(seen).snapshot.stage)
  {
    RunIsMaximal(seen);
  }

  lemma NextBlock(past: seq<Line>, block: seq<Line>)
    requires Bracketed(past) && Bracketed(block) && block != [] && (past != [] ==> Follows(Last(past), block[0]))
    ensures Bracketed(past + block) && past + block != [] && Last(past + block) == Last(block)
  {
    if past == [] { assert past + block == block; } else { JoinChained(past, block); }
  }
}

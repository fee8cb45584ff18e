/** What the screening run measures (internal/annbakeoff/run.go): latency percentiles, query sampling,
    batched insertion and recall. Percentile fractions are rationals num / den. */
module Measurements {
  import opened Arithmetic
  import opened Sorting

  // ----- Nearest-rank percentiles -----

  function Count(s: seq<int>, p: int -> bool): (n: nat)
    ensures n <= |s|
  {
    if s == [] then 0 else (if p(s[0]) then 1 else 0) + Count(s[1..], p)
  }

  function AtMost(v: int): int -> bool { x => x <= v }

  function Below(v: int): int -> bool { x => x < v }

  function Ascending(): (int, int) -> bool { (a, b) => a <= b }

  lemma {:induction false} CountInsert(x: int, s: seq<int>, p: int -> bool)
    ensures Count(Insert(x, s, Ascending()), p) == (if p(x) then 1 else 0) + Count(s, p)
  {
    if s != [] && !Ascending()(x, s[0]) {
      CountInsert(x, s[1..], p);
    }
  }

  lemma {:induction false} CountSort(s: seq<int>, p: int -> bool)
    ensures Count(Sort(s, Ascending()), p) == Count(s, p)
  {
    if s != [] {
      CountSort(s[1..], p);
      CountInsert(s[0], Sort(s[1..], Ascending()), p);
    }
  }

  lemma {:induction false} CountSplit(s: seq<int>, i: nat, p: int -> bool)
    requires i <= |s|
    ensures Count(s, p) == Count(s[..i], p) + Count(s[i..], p)
  {
    if i == 0 {
      assert s[0..] == s && s[..0] == [];
    } else {
      CountSplit(s[1..], i - 1, p);
      assert s[..i][1..] == s[1..][..i - 1] && s[1..][i - 1..] == s[i..];
    }
  }

  lemma {:induction false} CountAll(s: seq<int>, p: int -> bool)
    ensures (forall i :: 0 <= i < |s| ==> p(s[i])) ==> Count(s, p) == |s|
    ensures (forall i :: 0 <= i < |s| ==> !p(s[i])) ==> Count(s, p) == 0
  {
    if s != [] { CountAll(s[1..], p); }
  }

  /** Position i of a sorted sample has at least i + 1 samples up to its value and at most i below it. */
  lemma CountAtPosition(s: seq<int>, i: nat)
    requires Sorted(s, Ascending()) && i < |s|
    ensures Count(s, AtMost(s[i])) >= i + 1 && Count(s, Below(s[i])) <= i
  {
    var v := s[i];
    CountSplit(s, i + 1, AtMost(v));
    forall k | 0 <= k <= i ensures s[k] <= v { if k < i { assert Ascending()(s[k], s[i]); } }
    CountAll(s[..i + 1], AtMost(v));
    CountSplit(s, i, Below(v));
    forall k | i <= k < |s| ensures v <= s[k] { if i < k { assert Ascending()(s[i], s[k]); } }
    CountAll(s[i..], Below(v));
  }

  function Ceil(num: int, den: int): int
    requires den > 0
  {
    -((-num) / den)
  }

  /** It is the least integer not below the fraction. */
  lemma CeilExactly(num: int, den: int)
    requires den > 0
    ensures den * (Ceil(num, den) - 1) < num <= den * Ceil(num, den)
  {
    var q := (-num) / den;
    assert den * q <= -num < den * (q + 1);
    assert den * (-q) == -(den * q) && den * (-q - 1) == -(den * (q + 1));
  }

  /** `v` is the nearest-rank value for rank r: r samples reach it, fewer lie below. */
  ghost predicate NearestRank(values: seq<int>, v: int, r: int) {
    Count(values, AtMost(v)) >= r && Count(values, Below(v)) < r
  }

  lemma MulMonotone(d: int, x: int, y: int)
    requires d >= 0 && x <= y
    ensures d * x <= d * y
  {}

  lemma FloorAtLeast(a: int, d: int, k: int)
    requires d > 0 && d * k <= a
    ensures k <= a / d
  {
    var q := a / d;
    assert a < d * (q + 1);
    if q < k { MulMonotone(d, q + 1, k); }
  }

  lemma FloorAtMost(a: int, d: int, k: int)
    requires d > 0 && a < d * (k + 1)
    ensures a / d <= k
  {
    var q := a / d;
    assert d * q <= a;
    if k < q { MulMonotone(d, k + 1, q); }
  }

  lemma CeilBetween(m: int, den: int, n: int)
    requires den > 0 && 1 <= m <= den * n
    ensures 1 <= Ceil(m, den) <= n
  {
    assert den * (-n) == -(den * n);
    FloorAtLeast(-m, den, -n);
    FloorAtMost(-m, den, -1);
  }

  lemma CeilRange(num: int, den: int, n: nat)
    requires 0 < num <= den && n > 0
    ensures 1 <= Ceil(num * n, den) <= n
  {
    MulMonotone(n, 1, num);
    MulMonotone(n, num, den);
    CeilBetween(num * n, den, n);
  }

  method Percentile(values: seq<int>, num: int, den: int) returns (v: int)
    requires den > 0
    ensures values == [] ==> v == 0
    ensures values != [] ==> v in values
    ensures values != [] && 0 < num <= den ==> NearestRank(values, v, Ceil(num * |values|, den))
  {
    if |values| == 0 {
      return 0;
    }
    var sorted := Sort(values, Ascending());
    SortPermutes(values, Ascending());
    SortSorted(values, Ascending());
    var index := Max(0, Min(Ceil(num * |sorted|, den) - 1, |sorted| - 1));
    v := sorted[index];
    assert v in multiset(sorted);
    if 0 < num <= den {
      CeilRange(num, den, |values|);
      CountAtPosition(sorted, index);
      CountSort(values, AtMost(v));
      CountSort(values, Below(v));
    }
  }

  /** A value of a higher rank is not smaller: in particular the median never exceeds the 95th percentile. */
  lemma {:induction false} RanksOrdered(values: seq<int>, v: int, r: int, w: int, q: int)
    requires NearestRank(values, v, r) && NearestRank(values, w, q) && r <= q
    ensures v <= w
  {
    if w < v { CountMonotone(values, AtMost(w), Below(v)); }
  }

  lemma {:induction false} CountMonotone(s: seq<int>, p: int -> bool, q: int -> bool)
    requires forall x :: p(x) ==> q(x)
    ensures Count(s, p) <= Count(s, q)
  {
    if s != [] { CountMonotone(s[1..], p, q); }
  }

  /** A nearest-rank value of the sample is unique, so an unstable sort cannot change the answer. */
  lemma NearestRankUnique(values: seq<int>, v: int, w: int, r: int)
    requires NearestRank(values, v, r) && NearestRank(values, w, r)
    ensures v == w
  {
    RanksOrdered(values, v, r, w, r);
    RanksOrdered(values, w, r, v, r);
  }

  /** The two percentiles of a stage report. */
  method StagePercentiles(samples: seq<int>) returns (p50: int, p95: int)
    ensures p50 <= p95
    ensures samples != [] ==>
              NearestRank(samples, p50, Ceil(|samples|, 2)) && NearestRank(samples, p95, Ceil(19 * |samples|, 20))
  {
    p50 := Percentile(samples, 1, 2);
    p95 := Percentile(samples, 19, 20);
    if samples != [] {
      RanksOrdered(samples, p50, Ceil(|samples|, 2), p95, Ceil(19 * |samples|, 20));
    }
  }

  // ----- Query sampling -----

  function Spread(index: nat, count: nat, queryCount: nat): nat
    requires queryCount > 0
  {
    FloorAtLeast(index * count, queryCount, 0);
    index * count / queryCount
  }

  lemma SpreadInRange(i: nat, count: nat, queryCount: nat)
    requires i < queryCount && count > 0
    ensures Spread(i, count, queryCount) < count
  {
    MulMonotone(count, i + 1, queryCount);
    FloorAtMost(i * count, queryCount, count - 1);
  }

  lemma SpreadIncreases(i: nat, j: nat, count: nat, queryCount: nat)
    requires i < j < queryCount
    ensures Spread(i, count, queryCount) <= Spread(j, count, queryCount)
    ensures queryCount <= count ==> Spread(i, count, queryCount) < Spread(j, count, queryCount)
  {
    var q := Spread(i, count, queryCount);
    assert queryCount * q <= i * count;
    MulMonotone(count, i + 1, j);
    assert i * count + count <= j * count;
    FloorAtLeast(j * count, queryCount, q);
    if queryCount <= count {
      assert queryCount * (q + 1) == queryCount * q + queryCount;
      FloorAtLeast(j * count, queryCount, q + 1);
    }
  }

  method QueryOrdinals(count: nat, queryCount: nat) returns (result: seq<nat>)
    ensures |result| == queryCount
    ensures count > 0 ==> forall i :: 0 <= i < queryCount ==> result[i] < count
    ensures forall i, j :: 0 <= i < j < queryCount ==> result[i] <= result[j]
    ensures queryCount <= count ==> forall i, j :: 0 <= i < j < queryCount ==> result[i] < result[j]
    ensures forall i :: 0 <= i < queryCount ==> queryCount * result[i] <= i * count < queryCount * (result[i] + 1)
  {
    result := [];
    for index := 0 to queryCount
      invariant |result| == index
      invariant forall i :: 0 <= i < index ==> result[i] == Spread(i, count, queryCount)
    {
      result := result + [Spread(index, count, queryCount)];
    }
    forall i, j | 0 <= i < j < queryCount
      ensures result[i] <= result[j] && (queryCount <= count ==> result[i] < result[j])
    {
      SpreadIncreases(i, j, count, queryCount);
    }
    forall i | 0 <= i < queryCount
      ensures queryCount * result[i] <= i * count < queryCount * (result[i] + 1)
      ensures count > 0 ==> result[i] < count
    {
      if count > 0 { SpreadInRange(i, count, queryCount); }
    }
  }

  // ----- Batches -----

  const BATCH_SIZE := 512

  function Flatten(batches: seq<seq<nat>>): seq<nat> {
    if batches == [] then [] else Flatten(batches[..|batches| - 1]) + batches[|batches| - 1]
  }

  function UpTo(n: nat): seq<nat> { seq(n, i requires 0 <= i < n => i) }

  lemma FlattenAppend(batches: seq<seq<nat>>, batch: seq<nat>)
    ensures Flatten(batches + [batch]) == Flatten(batches) + batch
  {
    assert (batches + [batch])[..|batches|] == batches;
  }

  /** What has been handed to the index: full batches except perhaps the last, in order, up to `done`. */
  ghost predicate Delivered(added: seq<seq<nat>>, done: nat) {
    && Flatten(added) == UpTo(done)
    && (forall b :: b in added ==> 0 < |b| <= 512)
    && (forall i :: 0 <= i < |added| - 1 ==> |added[i]| == 512)
  }

  /** Feeds the ordinals to the index in batches; `accepts(k)` is the index's answer to its k-th Add, and
      `live(o)` says the context is not cancelled when ordinal `o` is reached. */
  method AddInBatches(size: nat, accepts: nat -> bool, live: nat -> bool) returns (added: seq<seq<nat>>, ok: bool)
    ensures exists done :: 0 <= done <= size && Delivered(added, done) && (ok ==> done == size)
    ensures forall i :: 0 <= i < |added| - 1 ==> accepts(i)
    ensures ok && added != [] ==> accepts(|added| - 1)
    ensures !ok ==>
              (added != [] && !accepts(|added| - 1)) || exists o :: 0 <= o < size && o % BATCH_SIZE == 0 && !live(o)
  {
    added := [];
    var batch: seq<nat> := [];
    ghost var done: nat := 0;
    for ordinal := 0 to size
      invariant done + |batch| == ordinal && Delivered(added, done)
      invariant |batch| < BATCH_SIZE && batch == UpTo(ordinal)[done..]
      invariant forall b :: b in added ==> |b| == BATCH_SIZE
      invariant forall i :: 0 <= i < |added| ==> accepts(i)
    {
      if ordinal % BATCH_SIZE == 0 {
        if !live(ordinal) {
          return added, false;
        }
      }
      NextInBatch(ordinal, done);
      batch := batch + [ordinal];
      if |batch| == BATCH_SIZE {
        Extend(added, batch, ordinal + 1);
        added := added + [batch];
        done := ordinal + 1;
        if !accepts(|added| - 1) {
          return added, false;
        }
        batch := [];
      }
    }
    if |batch| > 0 {
      Extend(added, batch, size);
      added := added + [batch];
      if !accepts(|added| - 1) {
        return added, false;
      }
    }
    return added, true;
  }

  lemma NextInBatch(ordinal: nat, done: nat)
    requires done <= ordinal
    ensures UpTo(ordinal + 1)[done..] == UpTo(ordinal)[done..] + [ordinal]
  {}

  lemma Extend(added: seq<seq<nat>>, batch: seq<nat>, done: nat)
    requires 0 < |batch| <= Min(BATCH_SIZE, done) && batch == UpTo(done)[done - |batch|..]
    requires Delivered(added, done - |batch|) && forall b :: b in added ==> |b| == BATCH_SIZE
    ensures Delivered(added + [batch], done)
  {
    FlattenAppend(added, batch);
    assert UpTo(done - |batch|) + batch == UpTo(done);
  }

  // ----- Recall -----

  function Matches(exact: seq<nat>, hits: seq<nat>): (n: nat)
    ensures n <= |hits|
  {
    if hits == [] then 0 else (if hits[0] in exact then 1 else 0) + Matches(exact, hits[1..])
  }

  function Common(exact: seq<nat>, hits: seq<nat>): set<nat> { set h | h in hits && h in exact }

  /** No ordinal of the oracle is hit twice. */
  ghost predicate DistinctMatches(exact: seq<nat>, hits: seq<nat>) {
    forall i, j :: 0 <= i < j < |hits| && hits[i] in exact ==> hits[i] != hits[j]
  }

  /** The count of matching hits is the size of the intersection exactly when no match is repeated. */
  lemma {:induction false} MatchesAreCommonIffDistinct(exact: seq<nat>, hits: seq<nat>)
    ensures Matches(exact, hits) >= |Common(exact, hits)|
    ensures Matches(exact, hits) == |Common(exact, hits)| <==> DistinctMatches(exact, hits)
  {
    if hits != [] {
      var h, rest := hits[0], hits[1..];
      MatchesAreCommonIffDistinct(exact, rest);
      assert hits == [h] + rest;
      if h in exact {
        assert Common(exact, hits) == Common(exact, rest) + {h};
        if h in rest {
          var j :| 0 <= j < |rest| && rest[j] == h;
          assert hits[0] == hits[j + 1];
          assert Common(exact, hits) == Common(exact, rest);
        } else {
          assert DistinctMatches(exact, hits) <==> DistinctMatches(exact, rest) by { ConsDistinct(exact, hits); }
        }
      } else {
        assert Common(exact, hits) == Common(exact, rest);
        ConsDistinct(exact, hits);
      }
    }
  }

  lemma ConsDistinct(exact: seq<nat>, hits: seq<nat>)
    requires hits != [] && (hits[0] in exact ==> hits[0] !in hits[1..])
    ensures DistinctMatches(exact, hits) <==> DistinctMatches(exact, hits[1..])
  {
    var rest := hits[1..];
    if DistinctMatches(exact, rest) {
      forall i, j | 0 <= i < j < |hits| && hits[i] in exact ensures hits[i] != hits[j] {
        assert hits[j] == rest[j - 1];
        if i > 0 { assert hits[i] == rest[i - 1]; }
      }
    }
    if DistinctMatches(exact, hits) {
      forall i, j | 0 <= i < j < |rest| && rest[i] in exact ensures rest[i] != rest[j] {
        assert rest[i] == hits[i + 1] && rest[j] == hits[j + 1];
      }
    }
  }

  lemma {:induction false} CommonAtMostExact(exact: seq<nat>, hits: seq<nat>)
    ensures |Common(exact, hits)| <= |exact|
  {
    SetOfSeq(exact, Common(exact, hits));
  }

  lemma {:induction false} SetOfSeq(s: seq<nat>, part: set<nat>)
    requires forall x :: x in part ==> x in s
    ensures |part| <= |s|
  {
    if s == [] {
      assert part == {};
    } else {
      SetOfSeq(s[1..], part - {s[0]});
    }
  }

  lemma FractionInRange(part: nat, whole: nat)
    requires 0 < whole && part <= whole
    ensures 0.0 <= part as real / whole as real <= 1.0
  {}

  method Recall(exact: seq<nat>, hits: seq<nat>) returns (r: real)
    ensures exact == [] ==> r == 1.0
    ensures exact != [] ==> r == Matches(exact, hits) as real / |exact| as real
    ensures exact != [] && DistinctMatches(exact, hits) ==>
              r == |Common(exact, hits)| as real / |exact| as real && 0.0 <= r <= 1.0
  {
    if |exact| == 0 {
      return 1.0;
    }
    var want := set ordinal | ordinal in exact;
    var matched := 0;
    assert hits[0..] == hits;
    for i := 0 to |hits|
      invariant matched + Matches(exact, hits[i..]) == Matches(exact, hits)
    {
      assert hits[i..][1..] == hits[i + 1..];
      if hits[i] in want {
        matched := matched + 1;
      }
    }
    MatchesAreCommonIffDistinct(exact, hits);
    CommonAtMostExact(exact, hits);
    FractionInRange(|Common(exact, hits)|, |exact|);
    r := matched as real / |exact| as real;
  }

  /** An index that reports the same neighbour twice scores above one. */
  lemma RepeatedHitOvercounts()
    ensures Matches([7], [7, 7]) as real / |[7]| as real == 2.0
  {
    assert [7, 7][1..] == [7];
  }
}

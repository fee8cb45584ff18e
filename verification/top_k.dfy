/** The exact oracle of the screening run (internal/annbakeoff/run.go): a bounded buffer, kept sorted by
    binary-search insertion, holds the closest vectors seen so far. Distances are real numbers. */
module TopK {
  import opened Arithmetic
  import opened Sorting

  datatype Scored = Scored(ordinal: nat, distance: real)

  predicate Better(a: Scored, b: Scored) {
    a.distance < b.distance || (a.distance == b.distance && a.ordinal < b.ordinal)
  }

  predicate AtLeastAsGood(a: Scored, b: Scored) { !Better(b, a) }

  lemma RankingOrder()
    ensures TotalOrder(AtLeastAsGood)
  {}

  function Scores(n: nat, distance: nat -> real): seq<Scored> {
    seq(n, i requires 0 <= i < n => Scored(i, distance(i)))
  }

  /** All vectors, closest first, equal distances by ordinal. */
  function Ranking(n: nat, distance: nat -> real): (r: seq<Scored>)
    ensures |r| == n
  {
    SortPermutes(Scores(n, distance), AtLeastAsGood);
    Sort(Scores(n, distance), AtLeastAsGood)
  }

  function Closest(n: nat, distance: nat -> real, limit: nat): seq<Scored> {
    Ranking(n, distance)[..Min(limit, n)]
  }

  /** The ranking really ranks: sorted, and every vector listed once with its own distance. */
  lemma RankingRanks(n: nat, distance: nat -> real)
    ensures Sorted(Ranking(n, distance), AtLeastAsGood) && Distinct(Ranking(n, distance))
    ensures forall i :: 0 <= i < n ==> Scored(i, distance(i)) in Ranking(n, distance)
    ensures forall s :: s in Ranking(n, distance) ==> s.ordinal < n && s.distance == distance(s.ordinal)
  {
    RankingOrder();
    var scores := Scores(n, distance);
    SortPermutes(scores, AtLeastAsGood);
    SortSorted(scores, AtLeastAsGood);
    DistinctPermutation(scores, Ranking(n, distance));
    forall s ensures s in Ranking(n, distance) <==> s in scores {
      assert s in multiset(Ranking(n, distance)) <==> s in multiset(scores);
    }
    forall i | 0 <= i < n ensures Scored(i, distance(i)) in scores { assert scores[i] == Scored(i, distance(i)); }
  }

  /** Said of distances and ordinals alone: the closer vector comes first, and of equally close ones the smaller. */
  lemma RankedByDistance(n: nat, distance: nat -> real)
    ensures var r := Ranking(n, distance);
      forall i, j :: 0 <= i < j < n ==>
        || distance(r[i].ordinal) < distance(r[j].ordinal)
        || (distance(r[i].ordinal) == distance(r[j].ordinal) && r[i].ordinal < r[j].ordinal)
  {
    RankingRanks(n, distance);
    var r := Ranking(n, distance);
    forall i, j | 0 <= i < j < n
      ensures || distance(r[i].ordinal) < distance(r[j].ordinal)
              || (distance(r[i].ordinal) == distance(r[j].ordinal) && r[i].ordinal < r[j].ordinal)
    {
      assert AtLeastAsGood(r[i], r[j]) && r[i] in r && r[j] in r && r[i] != r[j];
    }
  }

  lemma RankingNext(n: nat, distance: nat -> real)
    ensures Ranking(n + 1, distance) == Insert(Scored(n, distance(n)), Ranking(n, distance), AtLeastAsGood)
    ensures Sorted(Ranking(n, distance), AtLeastAsGood)
  {
    RankingOrder();
    assert Scores(n + 1, distance) == Scores(n, distance) + [Scored(n, distance(n))];
    SortAppend(Scores(n, distance), Scored(n, distance(n)), AtLeastAsGood);
    SortSorted(Scores(n, distance), AtLeastAsGood);
  }

  /** The insertion point found in the buffer: nothing from it on is at least as good as the candidate. */
  ghost predicate InsertionPoint(best: seq<Scored>, x: Scored, at: nat) {
    at <= |best| && forall i :: 0 <= i < |best| ==> (Better(x, best[i]) <==> at <= i)
  }

  /** Inserting into the buffer and cutting it to the limit is inserting into the whole ranking and cutting that. */
  lemma InsertThenTruncate(n: nat, distance: nat -> real, limit: nat, at: nat)
    requires InsertionPoint(Closest(n, distance, limit), Scored(n, distance(n)), at)
    ensures var best := Closest(n, distance, limit);
      Closest(n + 1, distance, limit)
        == (best[..at] + [Scored(n, distance(n))] + best[at..])[..Min(limit, n + 1)]
  {
    RankingNext(n, distance);
    RankingRanks(n, distance);
    CutOfInserted(Scored(n, distance(n)), Ranking(n, distance), at, limit);
  }

  lemma {:induction false} InsertedBeyond(x: Scored, s: seq<Scored>, k: nat)
    requires k <= |s| && x !in s && forall i :: 0 <= i < k ==> !Better(x, s[i])
    ensures k <= |Insert(x, s, AtLeastAsGood)| && Insert(x, s, AtLeastAsGood)[..k] == s[..k]
  {
    InsertPermutes(x, s, AtLeastAsGood);
    if k > 0 {
      assert Better(s[0], x) by { assert x != s[0]; }
      InsertedBeyond(x, s[1..], k - 1);
      assert s[..k] == [s[0]] + s[1..][..k - 1];
    }
  }

  lemma CutOfInserted(x: Scored, all: seq<Scored>, at: nat, limit: nat)
    requires Sorted(all, AtLeastAsGood) && x !in all && InsertionPoint(all[..Min(limit, |all|)], x, at)
    ensures var best := all[..Min(limit, |all|)];
      && |Insert(x, all, AtLeastAsGood)| == |all| + 1
      && Insert(x, all, AtLeastAsGood)[..Min(limit, |all| + 1)] ==
         (best[..at] + [x] + best[at..])[..Min(limit, |all| + 1)]
  {
    var best := all[..Min(limit, |all|)];
    InsertPermutes(x, all, AtLeastAsGood);
    if at < limit {
      InsertedWithin(x, all, at, limit);
      assert best[..at] == all[..at];
    } else {
      InsertedBeyond(x, all, limit);
    }
  }

  lemma InsertedWithin(x: Scored, all: seq<Scored>, at: nat, limit: nat)
    requires Sorted(all, AtLeastAsGood) && at < limit && InsertionPoint(all[..Min(limit, |all|)], x, at)
    ensures Insert(x, all, AtLeastAsGood) == all[..at] + [x] + all[at..]
  {
    RankingOrder();
    InsertedAt(x, all, at, AtLeastAsGood);
  }

  /** sort.Search over the first `len` buffer entries. */
  method Search(best: array<Scored>, len: nat, x: Scored) returns (at: nat)
    requires len <= best.Length && Sorted(best[..len], AtLeastAsGood)
    ensures InsertionPoint(best[..len], x, at)
  {
    var i, j := 0, len;
    ghost var s := best[..len];
    while i < j
      invariant 0 <= i <= j <= len
      invariant forall k :: 0 <= k < i ==> !Better(x, s[k])
      invariant forall k :: j <= k < len ==> Better(x, s[k])
    {
      var h := (i + j) / 2;
      assert best[h] == s[h];
      if !Better(x, best[h]) {
        assert forall k :: 0 <= k < h ==> AtLeastAsGood(s[k], s[h]);
        i := h + 1;
      } else {
        assert forall k :: h < k < len ==> AtLeastAsGood(s[h], s[k]);
        j := h;
      }
    }
    at := i;
  }

  /** Opens a gap at `at` by moving the tail up one place, and fills it. */
  method InsertAt(best: array<Scored>, len: nat, at: nat, x: Scored)
    requires at <= len < best.Length
    modifies best
    ensures best[..len + 1] == old(best[..at]) + [x] + old(best[at..len])
  {
    var j := len;
    while j > at
      invariant at <= j <= len
      invariant forall k :: 0 <= k < j ==> best[k] == old(best[k])
      invariant forall k :: j < k <= len ==> best[k] == old(best[k - 1])
    {
      best[j] := best[j - 1];
      j := j - 1;
    }
    best[at] := x;
  }

  /** One candidate: skipped when the full buffer beats it, otherwise inserted and the buffer cut to the limit. */
  method Consider(best: array<Scored>, len: nat, candidate: Scored, limit: nat, ghost distance: nat -> real)
    returns (len': nat)
    requires best.Length == limit + 1 && len == Min(limit, candidate.ordinal)
    requires candidate.distance == distance(candidate.ordinal)
    requires best[..len] == Closest(candidate.ordinal, distance, limit)
    modifies best
    ensures len' == Min(limit, candidate.ordinal + 1)
    ensures best[..len'] == Closest(candidate.ordinal + 1, distance, limit)
  {
    ghost var n, before := candidate.ordinal, best[..len];
    RankingNext(n, distance);
    var at := Search(best, len, candidate);
    InsertThenTruncate(n, distance, limit, at);
    if at == len && len == limit {
      assert before[..at] + [candidate] + before[at..] == before + [candidate];
      return len;
    }
    InsertAt(best, len, at, candidate);
    assert best[..len + 1] == before[..at] + [candidate] + before[at..];
    len' := len + 1;
    if len' > limit {
      len' := limit;
    }
    assert best[..len'] == best[..len + 1][..len'];
  }

  /** What is at a place of the ranking comes before all that is not further in front. */
  lemma ClosestFirst(n: nat, distance: nat -> real, result: seq<nat>, i: nat, other: nat)
    requires i < |result| <= n && other < n && other !in result
    requires forall k :: 0 <= k < |result| ==> result[k] == Ranking(n, distance)[k].ordinal
    ensures distance(result[i]) < distance(other) || (distance(result[i]) == distance(other) && result[i] < other)
  {
    RankingRanks(n, distance);
    RankedByDistance(n, distance);
    var r := Ranking(n, distance);
    var j :| 0 <= j < n && r[j] == Scored(other, distance(other));
    forall k | 0 <= k < |result| ensures r[k].ordinal != other { assert result[k] in result; }
  }

  /** The ordinals of the closest `limit` vectors, in the order of the full ranking: closer first, of equally close ones
      the smaller, and nothing left out comes before anything returned. */
  method ExactTopK(n: nat, distance: nat -> real, limit: nat) returns (result: seq<nat>)
    ensures |result| == Min(limit, n)
    ensures forall i :: 0 <= i < |result| ==> result[i] < n && result[i] == Ranking(n, distance)[i].ordinal
    ensures forall i, j :: 0 <= i < j < |result| ==>
              || distance(result[i]) < distance(result[j])
              || (distance(result[i]) == distance(result[j]) && result[i] < result[j])
    ensures forall i, other: nat :: 0 <= i < |result| && other < n && other !in result ==>
              || distance(result[i]) < distance(other)
              || (distance(result[i]) == distance(other) && result[i] < other)
  {
    var best := new Scored[limit + 1](_ => Scored(0, 0.0));
    var len := 0;
    for ordinal := 0 to n
      invariant len == Min(limit, ordinal) && best[..len] == Closest(ordinal, distance, limit)
    {
      len := Consider(best, len, Scored(ordinal, distance(ordinal)), limit, distance);
    }
    result := [];
    for i := 0 to len
      invariant |result| == i && forall k :: 0 <= k < i ==> result[k] == best[k].ordinal
    {
      result := result + [best[i].ordinal];
    }
    assert forall i :: 0 <= i < len ==> best[i] == best[..len][i];
    RankingRanks(n, distance);
    RankedByDistance(n, distance);
    assert forall i :: 0 <= i < len ==> Ranking(n, distance)[i] in Ranking(n, distance);
    forall i, other: nat | 0 <= i < len && other < n && other !in result
      ensures distance(result[i]) < distance(other) || (distance(result[i]) == distance(other) && result[i] < other)
    {
      ClosestFirst(n, distance, result, i, other);
    }
  }
}

/** Bounded edit distance (internal/app/categorize_vocab.go): the two-row dynamic program decides
    whether some script of single-element edits, no longer than the bound, turns one word into the other. */
module EditDistance {

  import opened Arithmetic
  import opened Options

  /** One edit of a word: positions refer to the word the edit is applied to. */
  datatype Edit<T> =
    | Insert(pos: nat, item: T)
    | Delete(pos: nat)
    | Substitute(pos: nat, item: T)

  function ApplyEdit<T>(e: Edit<T>, s: seq<T>): Option<seq<T>> {
    match e
    case Insert(p, x) => if p <= |s| then Some(s[..p] + [x] + s[p..]) else None
    case Delete(p) => if p < |s| then Some(s[..p] + s[p + 1..]) else None
    case Substitute(p, x) => if p < |s| then Some(s[..p] + [x] + s[p + 1..]) else None
  }

  function ApplyScript<T>(script: seq<Edit<T>>, s: seq<T>): Option<seq<T>> {
    if script == [] then Some(s)
    else
      match ApplyEdit(script[0], s)
      case None => None
      case Some(s') => ApplyScript(script[1..], s')
  }

  /** Some script of at most `bound` edits turns `a` into `b`. */
  ghost predicate Reachable<T(!new)>(a: seq<T>, b: seq<T>, bound: int) {
    exists script: seq<Edit<T>> :: |script| <= bound && ApplyScript(script, a) == Some(b)
  }

  function Front<T>(s: seq<T>): seq<T>
    requires s != []
  {
    s[..|s| - 1]
  }

  function Last<T>(s: seq<T>): T
    requires s != []
  {
    s[|s| - 1]
  }

  function Cost<T(==)>(x: T, y: T): nat { if x != y then 1 else 0 }

  /** The recurrence over prefixes that the table rows tabulate. */
  function Distance<T(==)>(a: seq<T>, b: seq<T>): nat
    decreases |a| + |b|
  {
    if a == [] then |b|
    else if b == [] then |a|
    else
      Min(Min(Distance(a, Front(b)) + 1, Distance(Front(a), b) + 1),
          Distance(Front(a), Front(b)) + Cost(Last(a), Last(b)))
  }

  // ----- The recurrence is a lower bound on every script -----

  /** Appending `x` on the left changes the distance by at most one. */
  lemma {:induction false} DistanceDropLast<T>(a: seq<T>, x: T, b: seq<T>)
    ensures Distance(a, b) <= Distance(a + [x], b) + 1
    decreases |b|
  {
    assert Front(a + [x]) == a;
    if b != [] {
      DistanceDropLast(a, x, Front(b));
      DistanceAppendRight(a, b);
    }
  }

  lemma {:induction false} DistanceAppendRight<T>(a: seq<T>, b: seq<T>)
    requires b != []
    ensures Distance(a, b) <= Distance(a, Front(b)) + 1
  {}

  /** Replacing the last element changes the distance by at most one. */
  lemma {:induction false} DistanceReplaceLast<T>(p: seq<T>, x: T, y: T, b: seq<T>)
    ensures Distance(p + [x], b) <= Distance(p + [y], b) + 1
    decreases |b|
  {
    assert Front(p + [x]) == p && Front(p + [y]) == p;
    if b != [] {
      DistanceReplaceLast(p, x, y, Front(b));
    }
  }

  /** A change of at most one in a prefix stays at most one after a common last element. */
  lemma {:induction false} DistanceCommonLast<T>(p: seq<T>, q: seq<T>, z: T, b: seq<T>)
    requires forall k :: 0 <= k <= |b| ==> Distance(p, b[..k]) <= Distance(q, b[..k]) + 1
    requires |p| <= |q| + 1
    ensures Distance(p + [z], b) <= Distance(q + [z], b) + 1
    decreases |b|
  {
    assert Front(p + [z]) == p && Front(q + [z]) == q;
    if b != [] {
      var c := Front(b);
      forall k | 0 <= k <= |c| ensures Distance(p, c[..k]) <= Distance(q, c[..k]) + 1 {
        assert c[..k] == b[..k];
      }
      DistanceCommonLast(p, q, z, c);
      assert b[..|b|] == b && b[..|c|] == c;
    }
  }

  /** An edit before the last element leaves that element where it is, at the end. */
  lemma EditInFront<T>(e: Edit<T>, s: seq<T>)
    requires ApplyEdit(e, s).Some? && s != [] && e.pos < if e.Insert? then |s| else |s| - 1
    ensures ApplyEdit(e, Front(s)).Some? && ApplyEdit(e, s).value == ApplyEdit(e, Front(s)).value + [Last(s)]
  {
    var p, k := Front(s), if e.Insert? then e.pos else e.pos + 1;
    assert s[..e.pos] == p[..e.pos] && s[k..] == p[k..] + [Last(s)];
  }

  lemma {:induction false} EditChangesDistanceByOne<T>(e: Edit<T>, s: seq<T>, b: seq<T>)
    requires ApplyEdit(e, s).Some?
    ensures Distance(s, b) <= Distance(ApplyEdit(e, s).value, b) + 1
    decreases |s|
  {
    var t := ApplyEdit(e, s).value;
    if e.pos == |s| {
      assert t == s + [e.item];
      DistanceDropLast(s, e.item, b);
    } else if e.pos == |s| - 1 && !e.Insert? {
      assert s == Front(s) + [Last(s)];
      if e.Substitute? {
        assert t == Front(s) + [e.item];
        DistanceReplaceLast(Front(s), Last(s), e.item, b);
      } else {
        assert t == Front(s);
      }
    } else {
      var p := Front(s);
      EditInFront(e, s);
      var q := ApplyEdit(e, p).value;
      assert s == p + [Last(s)];
      forall k | 0 <= k <= |b| ensures Distance(p, b[..k]) <= Distance(q, b[..k]) + 1 {
        EditChangesDistanceByOne(e, p, b[..k]);
      }
      DistanceCommonLast(p, q, Last(s), b);
    }
  }

  lemma {:induction false} DistanceToSelf<T>(a: seq<T>)
    ensures Distance(a, a) == 0
  {
    if a != [] { DistanceToSelf(Front(a)); }
  }

  lemma {:induction false} ScriptAtLeastDistance<T>(script: seq<Edit<T>>, a: seq<T>, b: seq<T>)
    requires ApplyScript(script, a) == Some(b)
    ensures Distance(a, b) <= |script|
  {
    if script == [] {
      DistanceToSelf(a);
    } else {
      EditChangesDistanceByOne(script[0], a, b);
      ScriptAtLeastDistance(script[1..], ApplyEdit(script[0], a).value, b);
    }
  }

  // ----- The recurrence is attained by a script -----

  lemma {:induction false} ApplyScriptThen<T>(script: seq<Edit<T>>, e: Edit<T>, a: seq<T>, m: seq<T>)
    requires ApplyScript(script, a) == Some(m)
    ensures ApplyScript(script + [e], a) == ApplyEdit(e, m)
  {
    if script == [] {
      assert (script + [e])[1..] == [];
    } else {
      assert (script + [e])[1..] == script[1..] + [e];
      ApplyScriptThen(script[1..], e, ApplyEdit(script[0], a).value, m);
    }
  }

  /** A script that works on a word works on the word followed by one more element. */
  lemma {:induction false} ApplyScriptBefore<T>(script: seq<Edit<T>>, p: seq<T>, q: seq<T>, z: T)
    requires ApplyScript(script, p) == Some(q)
    ensures ApplyScript(script, p + [z]) == Some(q + [z])
  {
    if script != [] {
      var p' := ApplyEdit(script[0], p).value;
      assert ApplyEdit(script[0], p + [z]).value == p' + [z];
      ApplyScriptBefore(script[1..], p', q, z);
    }
  }

  lemma EditAtEnd<T>(w: seq<T>, z: T, x: T)
    ensures ApplyEdit(Insert(|w|, x), w) == Some(w + [x])
    ensures ApplyEdit(Delete(|w|), w + [z]) == Some(w)
    ensures ApplyEdit(Substitute(|w|, x), w + [z]) == Some(w + [x])
  {
    assert w[..|w|] + [x] + w[|w|..] == w + [x];
    assert (w + [z])[..|w|] + (w + [z])[|w| + 1..] == w;
  }

  lemma InsertAfter<T>(script: seq<Edit<T>>, a: seq<T>, b: seq<T>)
    requires b != [] && ApplyScript(script, a) == Some(Front(b))
    ensures ApplyScript(script + [Insert(|b| - 1, Last(b))], a) == Some(b)
  {
    EditAtEnd(Front(b), Last(b), Last(b));
    ApplyScriptThen(script, Insert(|b| - 1, Last(b)), a, Front(b));
    assert b == Front(b) + [Last(b)];
  }

  lemma {:induction false} DistanceAttained<T>(a: seq<T>, b: seq<T>) returns (script: seq<Edit<T>>)
    ensures |script| == Distance(a, b) && ApplyScript(script, a) == Some(b)
    decreases |a| + |b|, 1
  {
    if a == [] && b == [] {
      script := [];
    } else if b != [] && Distance(a, b) == Distance(a, Front(b)) + 1 {
      var s := DistanceAttained(a, Front(b));
      script := s + [Insert(|b| - 1, Last(b))];
      InsertAfter(s, a, b);
    } else if a != [] && Distance(a, b) == Distance(Front(a), b) + 1 {
      var s := DistanceAttained(Front(a), b);
      EditAtEnd(Front(a), Last(a), Last(a));
      assert a == Front(a) + [Last(a)];
      script := [Delete(|a| - 1)] + s;
      assert script[1..] == s;
    } else {
      script := DiagonalAttained(a, b);
    }
  }

  lemma {:induction false} DiagonalAttained<T>(a: seq<T>, b: seq<T>) returns (script: seq<Edit<T>>)
    requires a != [] && b != []
    ensures |script| == Distance(Front(a), Front(b)) + Cost(Last(a), Last(b)) && ApplyScript(script, a) == Some(b)
    decreases |a| + |b|, 0
  {
    var s := DistanceAttained(Front(a), Front(b));
    ApplyScriptBefore(s, Front(a), Front(b), Last(a));
    assert a == Front(a) + [Last(a)] && b == Front(b) + [Last(b)];
    if Last(a) == Last(b) {
      script := s;
    } else {
      var e := Substitute(|b| - 1, Last(b));
      EditAtEnd(Front(b), Last(a), Last(b));
      ApplyScriptThen(s, e, a, Front(b) + [Last(a)]);
      script := s + [e];
    }
  }

  /** The recurrence is the length of a shortest script, for all words and every bound. */
  lemma ReachableIffDistance<T(!new)>(a: seq<T>, b: seq<T>, bound: int)
    ensures Reachable(a, b, bound) <==> Distance(a, b) <= bound
  {
    if Reachable(a, b, bound) {
      var script :| |script| <= bound && ApplyScript(script, a) == Some(b);
      ScriptAtLeastDistance(script, a, b);
    }
    if Distance(a, b) <= bound {
      var script := DistanceAttained(a, b);
    }
  }

  // ----- Soundness of the two prunes -----

  lemma {:induction false} LengthGapBelowDistance<T>(a: seq<T>, b: seq<T>)
    ensures |a| - |b| <= Distance(a, b) && |b| - |a| <= Distance(a, b)
    decreases |a| + |b|
  {
    if a != [] && b != [] {
      LengthGapBelowDistance(a, Front(b));
      LengthGapBelowDistance(Front(a), b);
      LengthGapBelowDistance(Front(a), Front(b));
    }
  }

  /** Every row of the table holds an entry no larger than the final distance. */
  lemma {:induction false} RowMinimumBelowDistance<T>(a: seq<T>, b: seq<T>, i: nat) returns (j: nat)
    requires i <= |a|
    ensures j <= |b| && Distance(a[..i], b[..j]) <= Distance(a, b)
    decreases |a| + |b|
  {
    if i == |a| {
      j := |b|;
      assert a[..i] == a && b[..j] == b;
    } else if b == [] {
      j := 0;
    } else if Distance(a, b) == Distance(a, Front(b)) + 1 {
      j := RowMinimumBelowDistance(a, Front(b), i);
      assert Front(b)[..j] == b[..j];
    } else {
      var b' := if Distance(a, b) == Distance(Front(a), b) + 1 then b else Front(b);
      j := RowMinimumBelowDistance(Front(a), b', i);
      assert Front(a)[..i] == a[..i] && b'[..j] == b[..j];
    }
  }

  function Abs(v: int): int { if v < 0 then -v else v }

  /** Entry (i, j) of the table: the distance between the two prefixes. */
  ghost function Entry<T>(a: seq<T>, b: seq<T>, i: int, j: int): nat
    requires 0 <= i <= |a| && 0 <= j <= |b|
  {
    Distance(a[..i], b[..j])
  }

  /** One table entry from its three neighbours. */
  lemma EntryRecurrence<T>(a: seq<T>, b: seq<T>, i: nat, j: nat)
    requires 0 < i <= |a| && 0 < j <= |b|
    ensures Entry(a, b, i, j)
         == Min(Min(Entry(a, b, i, j - 1) + 1, Entry(a, b, i - 1, j) + 1),
               Entry(a, b, i - 1, j - 1) + Cost(a[i - 1], b[j - 1]))
  {
    var p, q := a[..i], b[..j];
    assert Front(p) == a[..i - 1] && Front(q) == b[..j - 1];
    assert Last(p) == a[i - 1] && Last(q) == b[j - 1];
  }

  /** One row of the table from the row before it, and the smallest entry of the new row. */
  method FillRow<T(==)>(a: seq<T>, b: seq<T>, i: nat, prev: array<int>) returns (cur: array<int>, rowMin: int)
    requires 0 < i <= |a| && prev.Length == |b| + 1
    requires forall k :: 0 <= k <= |b| ==> prev[k] == Entry(a, b, i - 1, k)
    ensures fresh(cur) && cur.Length == |b| + 1
    ensures forall k :: 0 <= k <= |b| ==> cur[k] == Entry(a, b, i, k) && rowMin <= cur[k]
    ensures exists k :: 0 <= k <= |b| && rowMin == cur[k]
  {
    cur := new int[|b| + 1];
    cur[0] := i;
    rowMin := cur[0];
    for j := 1 to |b| + 1
      invariant forall k :: 0 <= k < j ==> cur[k] == Entry(a, b, i, k) && rowMin <= cur[k]
      invariant exists k :: 0 <= k < j && rowMin == cur[k]
    {
      var cost := if a[i - 1] != b[j - 1] then 1 else 0;
      EntryRecurrence(a, b, i, j);
      cur[j] := Min(Min(cur[j - 1] + 1, prev[j] + 1), prev[j - 1] + cost);
      if cur[j] < rowMin {
        rowMin := cur[j];
      }
    }
  }

  method EditDistanceWithin<T(==, !new)>(a: seq<T>, b: seq<T>, maxDistance: int) returns (within: bool)
    ensures within <==> Reachable(a, b, maxDistance)
  {
    ReachableIffDistance(a, b, maxDistance);
    LengthGapBelowDistance(a, b);
    if Abs(|a| - |b|) > maxDistance {
      return false;
    }
    var prev := new int[|b| + 1];
    for j := 0 to |b| + 1
      invariant forall k :: 0 <= k < j ==> prev[k] == k
    {
      prev[j] := j;
    }
    for i := 1 to |a| + 1
      invariant prev.Length == |b| + 1
      invariant forall k :: 0 <= k <= |b| ==> prev[k] == Entry(a, b, i - 1, k)
    {
      var cur, rowMin := FillRow(a, b, i, prev);
      if rowMin > maxDistance {
        var k := RowMinimumBelowDistance(a, b, i);
        assert cur[k] == Entry(a, b, i, k);
        return false;
      }
      prev := cur;
    }
    assert a[..|a|] == a && b[..|b|] == b;
    return prev[|b|] <= maxDistance;
  }
}

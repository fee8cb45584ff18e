/** Classification of scheduled sync failures (internal/app/notify_classify.go) over arbitrary trees of
    wrapped and joined errors. Error values are never nil inside a tree, as the errors package guarantees. */
module ErrorTrees {
  import opened Options
  import Sorting

  datatype Boundary =
    | ConfigResolution | MetricsOpen | MetricsClose | StoreOpen | StoreClose | OptionsSetup | Output

  /** `Plain` is an error without a cause; `cancelled` and `permission` say whether it is context.Canceled or
      fs.ErrPermission. */
  datatype Error =
    | Plain(cancelled: bool, permission: bool)
    | Wrapped(cause: Error)
    | StageError(stage: string, cause: Error)
    | BoundaryError(boundary: Boundary, cause: Error)
    | RefreshError(code: string, under: Option<Error>)
    | Joined(children: seq<Error>)

  datatype FailureType =
    | BoundaryFailure(boundary: Boundary)
    | AppleNotesPermission
    | StageFailure(stage: string)
    | SemanticFailure(code: string)
    | Unknown

  const CANCELLED := "semantic_refresh_cancelled"

  const KNOWN_STAGES := [
    "apple_notes", "safari_tabs", "bluesky_bookmarks", "mastodon_bookmarks", "x_frontier", "x_media", "x_photo_ocr",
    "github", "youtube", "feeds", "sources", "categorize", "media_archive", "okf_export"]

  const KNOWN_CODES := [
    "semantic_backend_broken", "semantic_run_conflict", "semantic_projection_failed", "semantic_embedding_failed",
    "semantic_embedding_circuit_open", "semantic_flush_failed", "semantic_compaction_failed", "semantic_verify_failed",
    "semantic_native_root_failed", "semantic_readiness_not_ready", "semantic_lock_unavailable"]

  // ----- errors.Is and errors.As: depth first, a node before what it wraps -----

  predicate Any(e: Error, p: Error -> bool) {
    p(e) ||
    match e
    case Plain(_, _) => false
    case Wrapped(c) => Any(c, p)
    case StageError(_, c) => Any(c, p)
    case BoundaryError(_, c) => Any(c, p)
    case RefreshError(_, c) => c.Some? && Any(c.value, p)
    case Joined(cs) => exists i :: 0 <= i < |cs| && Any(cs[i], p)
  }

  function First(e: Error, p: Error -> bool): (r: Option<Error>)
    ensures r.Some? ==> p(r.value)
  {
    if p(e) then Some(e) else
    match e
    case Plain(_, _) => None
    case Wrapped(c) => First(c, p)
    case StageError(_, c) => First(c, p)
    case BoundaryError(_, c) => First(c, p)
    case RefreshError(_, c) => if c.Some? then First(c.value, p) else None
    case Joined(cs) => FirstOf(cs, p)
  }

  function FirstOf(es: seq<Error>, p: Error -> bool): (r: Option<Error>)
    ensures r.Some? ==> p(r.value)
  {
    if es == [] then None
    else if First(es[0], p).Some? then First(es[0], p)
    else FirstOf(es[1..], p)
  }

  // ----- Cancellation -----

  predicate IsCancellationOnly(e: Error) {
    match e
    case Joined(cs) => cs != [] && forall i :: 0 <= i < |cs| ==> IsCancellationOnly(cs[i])
    case RefreshError(code, _) => code == CANCELLED
    case Plain(cancelled, _) => cancelled
    case Wrapped(c) => IsCancellationOnly(c)
    case StageError(_, c) => IsCancellationOnly(c)
    case BoundaryError(_, c) => IsCancellationOnly(c)
  }

  /** The errors a cancellation check ends on: refresh errors are not looked into. */
  function Leaves(e: Error): seq<Error> {
    match e
    case Joined(cs) => LeavesOf(cs)
    case RefreshError(_, _) => [e]
    case Plain(_, _) => [e]
    case Wrapped(c) => Leaves(c)
    case StageError(_, c) => Leaves(c)
    case BoundaryError(_, c) => Leaves(c)
  }

  function LeavesOf(es: seq<Error>): seq<Error> {
    if es == [] then [] else Leaves(es[0]) + LeavesOf(es[1..])
  }

  predicate HasEmptyJoin(e: Error) {
    match e
    case Joined(cs) => cs == [] || exists i :: 0 <= i < |cs| && HasEmptyJoin(cs[i])
    case RefreshError(_, _) => false
    case Plain(_, _) => false
    case Wrapped(c) => HasEmptyJoin(c)
    case StageError(_, c) => HasEmptyJoin(c)
    case BoundaryError(_, c) => HasEmptyJoin(c)
  }

  predicate CancelledLeaf(e: Error) { (e.Plain? && e.cancelled) || (e.RefreshError? && e.code == CANCELLED) }

  lemma LeafCancelled(e: Error)
    requires e.RefreshError? || e.Plain?
    ensures IsCancellationOnly(e) <==> CancelledLeaf(e)
    ensures !HasEmptyJoin(e) && ((forall x :: x in Leaves(e) ==> CancelledLeaf(x)) <==> CancelledLeaf(e))
  {
    var leaves := Leaves(e);
    assert leaves == [e] && leaves[0] == e;
  }

  /** An error is a cancellation and nothing else exactly when all its leaves are cancellations and no join is empty. */
  lemma {:induction false} CancellationOnlyIff(e: Error)
    ensures IsCancellationOnly(e) <==> !HasEmptyJoin(e) && forall x :: x in Leaves(e) ==> CancelledLeaf(x)
  {
    match e
    case Joined(cs) =>
      CancellationOnlyOf(cs);
    case Wrapped(c) => CancellationOnlyIff(c);
    case StageError(_, c) => CancellationOnlyIff(c);
    case BoundaryError(_, c) => CancellationOnlyIff(c);
    case RefreshError(_, _) => LeafCancelled(e);
    case Plain(_, _) => LeafCancelled(e);
  }

  lemma {:induction false} CancellationOnlyOf(es: seq<Error>)
    ensures (forall i :: 0 <= i < |es| ==> IsCancellationOnly(es[i]))
       <==> (forall i :: 0 <= i < |es| ==> !HasEmptyJoin(es[i])) && forall x :: x in LeavesOf(es) ==> CancelledLeaf(x)
  {
    if es != [] {
      CancellationOnlyIff(es[0]);
      CancellationOnlyOf(es[1..]);
      var rest := es[1..];
      assert forall i :: 1 <= i < |es| ==> es[i] == rest[i - 1];
    }
  }

  // ----- One failure type -----

  predicate IsStage(e: Error) { e.StageError? }

  predicate IsBoundary(e: Error) { e.BoundaryError? }

  predicate IsRefresh(e: Error) { e.RefreshError? }

  predicate IsPermission(e: Error) { e.Plain? && e.permission }

  /** classifyScheduledFailure: the first known failure of a join; otherwise stage, then boundary, then refresh. */
  function Classify(e: Error): FailureType {
    if e.Joined? then FirstKnown(e.children)
    else
      var stage := First(e, IsStage);
      if stage.Some? && stage.value.stage == "apple_notes" && Any(e, IsPermission) then AppleNotesPermission
      else if stage.Some? && stage.value.stage in KNOWN_STAGES then StageFailure(stage.value.stage)
      else
        var boundary := First(e, IsBoundary);
        if boundary.Some? then BoundaryFailure(boundary.value.boundary)
        else
          var refresh := First(e, IsRefresh);
          if refresh.Some? && refresh.value.code in KNOWN_CODES then SemanticFailure(refresh.value.code) else Unknown
  }

  function FirstKnown(es: seq<Error>): FailureType {
    if es == [] then Unknown
    else if Classify(es[0]) != Unknown then Classify(es[0])
    else FirstKnown(es[1..])
  }

  /** Wrapping is transparent for anything but a join. */
  lemma WrappingIsTransparentExceptForJoins(e: Error)
    requires !e.Joined?
    ensures Classify(Wrapped(e)) == Classify(e)
  {}

  /** The classes of single errors: the permission counts only under Apple Notes, and unknown names do not count. */
  lemma SimpleClasses(stage: string, boundary: Boundary, code: string, cancelled: bool, permission: bool)
    ensures var plain := Plain(cancelled, permission);
      && Classify(plain) == Unknown
      && Classify(StageError(stage, plain)) ==
         (if stage == "apple_notes" && permission then AppleNotesPermission
          else if stage in KNOWN_STAGES then StageFailure(stage) else Unknown)
      && Classify(BoundaryError(boundary, plain)) == BoundaryFailure(boundary)
      && Classify(RefreshError(code, None)) == (if code in KNOWN_CODES then SemanticFailure(code) else Unknown)
  {
    assert "apple_notes" == KNOWN_STAGES[0];
    var plain := Plain(cancelled, permission);
    var staged := StageError(stage, plain);
    assert First(staged, IsStage) == Some(staged);
    assert Any(plain, IsPermission) == permission;
    assert Any(staged, IsPermission) == (IsPermission(staged) || Any(plain, IsPermission)) == permission;
  }

  /** A stage goes before a boundary, whichever is outside. */
  lemma StageBeforeBoundary(stage: string, boundary: Boundary, plain: Error)
    requires plain.Plain? && stage in KNOWN_STAGES && stage != "apple_notes"
    ensures Classify(BoundaryError(boundary, StageError(stage, plain))) == StageFailure(stage)
    ensures Classify(StageError(stage, BoundaryError(boundary, plain))) == StageFailure(stage)
  {
    var staged := StageError(stage, plain);
    assert First(staged, IsStage) == Some(staged);
    assert First(BoundaryError(boundary, staged), IsStage) == Some(staged);
  }

  /** And a boundary goes before a refresh. */
  lemma BoundaryBeforeRefresh(boundary: Boundary, code: string, plain: Error)
    requires plain.Plain?
    ensures Classify(BoundaryError(boundary, RefreshError(code, None))) == BoundaryFailure(boundary)
    ensures Classify(RefreshError(code, Some(BoundaryError(boundary, plain)))) == BoundaryFailure(boundary)
  {
    var refresh, bounded := RefreshError(code, None), BoundaryError(boundary, plain);
    assert First(plain, IsStage) == None;
    assert First(refresh, IsStage) == None && First(bounded, IsStage) == None;
    assert First(bounded, IsBoundary) == Some(bounded);
    assert First(BoundaryError(boundary, refresh), IsStage) == None;
    assert First(RefreshError(code, Some(bounded)), IsStage) == None;
  }

  // ----- All failure types -----

  /** Appends what is not there yet, in order. */
  function AppendNew<T(==)>(acc: seq<T>, xs: seq<T>): seq<T>
    decreases xs
  {
    if xs == [] then acc
    else AppendNew(if xs[0] in acc then acc else acc + [xs[0]], xs[1..])
  }

  /** First occurrences only. */
  function Dedup<T(==)>(xs: seq<T>): seq<T> { AppendNew([], xs) }

  function FailureTypes(e: Error): seq<FailureType> {
    if IsCancellationOnly(e) then []
    else if e.Joined? then FailureTypesOf(e.children, [])
    else [Classify(e)]
  }

  function FailureTypesOf(es: seq<Error>, acc: seq<FailureType>): seq<FailureType> {
    if es == [] then acc else FailureTypesOf(es[1..], AppendNew(acc, FailureTypes(es[0])))
  }

  /** classifyScheduledFailureTypes, with its two loops. */
  method ClassifyFailureTypes(e: Error) returns (types: seq<FailureType>)
    ensures types == FailureTypes(e)
  {
    if IsCancellationOnly(e) {
      return [];
    }
    if !e.Joined? {
      return [Classify(e)];
    }
    types := [];
    var cs := e.children;
    for i := 0 to |cs|
      invariant FailureTypesOf(cs[i..], types) == FailureTypesOf(cs, [])
    {
      var found := ClassifyFailureTypes(cs[i]);
      ghost var before := types;
      for j := 0 to |found|
        invariant AppendNew(types, found[j..]) == AppendNew(before, found)
      {
        if found[j] !in types {
          types := types + [found[j]];
        }
      }
      assert cs[i..][1..] == cs[i + 1..];
    }
  }

  /** The join branches of an error, however the joins are nested; anything that is not a join is one branch. */
  function Branches(e: Error): seq<Error> {
    if e.Joined? then BranchesOf(e.children) else [e]
  }

  function BranchesOf(es: seq<Error>): seq<Error> {
    if es == [] then [] else Branches(es[0]) + BranchesOf(es[1..])
  }

  /** The classes of the branches that are not mere cancellations. */
  function Classes(branches: seq<Error>): seq<FailureType> {
    if branches == [] then []
    else (if IsCancellationOnly(branches[0]) then [] else [Classify(branches[0])]) + Classes(branches[1..])
  }

  lemma {:induction false} AppendNewConcat<T>(acc: seq<T>, xs: seq<T>, ys: seq<T>)
    ensures AppendNew(acc, xs + ys) == AppendNew(AppendNew(acc, xs), ys)
    decreases xs
  {
    if xs == [] {
      assert xs + ys == ys;
    } else {
      assert (xs + ys)[1..] == xs[1..] + ys;
      AppendNewConcat(if xs[0] in acc then acc else acc + [xs[0]], xs[1..], ys);
    }
  }

  /** Removing repetitions beforehand makes no difference. */
  lemma {:induction false} AppendNewOfDedup<T>(acc: seq<T>, seen: seq<T>, xs: seq<T>)
    requires forall x :: x in seen ==> x in acc
    ensures seen <= AppendNew(seen, xs)
    ensures AppendNew(acc, xs) == AppendNew(acc, AppendNew(seen, xs)[|seen|..])
    decreases xs
  {
    if xs != [] {
      var x, acc', seen' := xs[0], if xs[0] in acc then acc else acc + [xs[0]],
        if xs[0] in seen then seen else seen + [xs[0]];
      AppendNewOfDedup(acc', seen', xs[1..]);
      var all := AppendNew(seen', xs[1..]);
      if x in seen {
      } else {
        assert all[|seen|] == x by { assert seen'[|seen|] == x; }
        assert all[|seen|..][1..] == all[|seen'|..];
      }
    } else {
      assert seen[|seen|..] == [];
    }
  }

  lemma {:induction false} ClassesConcat(a: seq<Error>, b: seq<Error>)
    ensures Classes(a + b) == Classes(a) + Classes(b)
  {
    if a == [] {
      assert a + b == b;
    } else {
      assert (a + b)[1..] == a[1..] + b;
      ClassesConcat(a[1..], b);
    }
  }

  lemma {:induction false} CancelledBranches(e: Error)
    requires IsCancellationOnly(e)
    ensures Classes(Branches(e)) == []
    decreases e, 1
  {
    if e.Joined? { CancelledBranchesOf(e.children); }
  }

  lemma {:induction false} CancelledBranchesOf(es: seq<Error>)
    requires forall i :: 0 <= i < |es| ==> IsCancellationOnly(es[i])
    ensures Classes(BranchesOf(es)) == []
    decreases es, 0
  {
    if es != [] {
      CancelledBranches(es[0]);
      CancelledBranchesOf(es[1..]);
      ClassesConcat(Branches(es[0]), BranchesOf(es[1..]));
    }
  }

  /** The flat reading: the failure types are the first occurrences among the classes of the join branches that are
      not cancellations. Nesting of joins does not matter. */
  lemma {:induction false} FailureTypesAreFlat(e: Error)
    ensures FailureTypes(e) == Dedup(Classes(Branches(e)))
    decreases e, 1
  {
    if IsCancellationOnly(e) {
      CancelledBranches(e);
    } else if e.Joined? {
      FailureTypesOfAreFlat(e.children, []);
    } else {
      var c := Classify(e);
      assert [e][1..] == [] && [c][1..] == [];
      assert Classes([e]) == [c] && AppendNew([], [c]) == AppendNew([] + [c], []);
    }
  }

  lemma {:induction false} FailureTypesOfAreFlat(es: seq<Error>, acc: seq<FailureType>)
    ensures FailureTypesOf(es, acc) == AppendNew(acc, Classes(BranchesOf(es)))
    decreases es, 0
  {
    if es != [] {
      var classes := Classes(Branches(es[0]));
      FailureTypesAreFlat(es[0]);
      AppendNewOfDedup(acc, [], classes);
      FailureTypesOfAreFlat(es[1..], AppendNew(acc, FailureTypes(es[0])));
      ClassesConcat(Branches(es[0]), BranchesOf(es[1..]));
      AppendNewConcat(acc, classes, Classes(BranchesOf(es[1..])));
    }
  }

  lemma NestingIrrelevant(e: Error, f: Error)
    requires Branches(e) == Branches(f)
    ensures FailureTypes(e) == FailureTypes(f)
  {
    FailureTypesAreFlat(e);
    FailureTypesAreFlat(f);
  }

  /** What deduplication promises: no repetitions, and the same elements. */
  lemma {:induction false} AppendNewKeeps<T(!new)>(acc: seq<T>, xs: seq<T>)
    requires Sorting.Distinct(acc)
    ensures Sorting.Distinct(AppendNew(acc, xs)) && acc <= AppendNew(acc, xs)
    ensures forall x :: x in AppendNew(acc, xs) <==> x in acc || x in xs
    decreases xs
  {
    if xs != [] { AppendNewKeeps(if xs[0] in acc then acc else acc + [xs[0]], xs[1..]); }
  }

  /** Joining more errors behind one keeps that one's failure types in front: the primary failure wins. */
  lemma PrimaryFailureFirst(primary: Error, whole: Error)
    requires Branches(primary) <= Branches(whole)
    ensures FailureTypes(primary) <= FailureTypes(whole)
  {
    FailureTypesAreFlat(primary);
    FailureTypesAreFlat(whole);
    var rest := Branches(whole)[|Branches(primary)|..];
    assert Branches(whole) == Branches(primary) + rest;
    ClassesConcat(Branches(primary), rest);
    AppendNewConcat([], Classes(Branches(primary)), Classes(rest));
    AppendNewKeeps([], Classes(Branches(primary)));
    AppendNewKeeps(Dedup(Classes(Branches(primary))), Classes(rest));
  }

  // ----- A join and the same join in a wrapper -----

  predicate Holds(e: Error, p: Error -> bool) { First(e, p).Some? }

  /** errors.Is and errors.As agree on whether there is such an error. */
  lemma {:induction false} FirstIffAny(e: Error, p: Error -> bool)
    ensures Holds(e, p) <==> Any(e, p)
    decreases e, 1
  {
    match e
    case Plain(_, _) =>
    case Wrapped(c) => FirstIffAny(c, p);
    case StageError(_, c) => FirstIffAny(c, p);
    case BoundaryError(_, c) => FirstIffAny(c, p);
    case RefreshError(_, c) => if c.Some? { FirstIffAny(c.value, p); }
    case Joined(cs) => FirstOfIffAny(cs, p);
  }

  lemma {:induction false} FirstOfIffAny(es: seq<Error>, p: Error -> bool)
    ensures FirstOf(es, p).Some? <==> exists i :: 0 <= i < |es| && Any(es[i], p)
    decreases es, 0
  {
    if es != [] {
      FirstIffAny(es[0], p);
      FirstOfIffAny(es[1..], p);
      assert forall i :: 1 <= i < |es| ==> es[i] == es[1..][i - 1];
    }
  }

  lemma {:induction false} FirstOfConcat(a: seq<Error>, b: seq<Error>, p: Error -> bool)
    ensures FirstOf(a + b, p) == if FirstOf(a, p).Some? then FirstOf(a, p) else FirstOf(b, p)
  {
    if a == [] {
      assert a + b == b;
    } else {
      assert (a + b)[1..] == a[1..] + b;
      FirstOfConcat(a[1..], b, p);
    }
  }

  lemma {:induction false} FirstKnownConcat(a: seq<Error>, b: seq<Error>)
    ensures FirstKnown(a + b) == if FirstKnown(a) != Unknown then FirstKnown(a) else FirstKnown(b)
  {
    if a == [] {
      assert a + b == b;
    } else {
      assert (a + b)[1..] == a[1..] + b;
      FirstKnownConcat(a[1..], b);
    }
  }

  /** A search that no join answers itself visits the branches in order. */
  lemma {:induction false} FirstOverBranches(e: Error, p: Error -> bool)
    requires forall x: Error :: x.Joined? ==> !p(x)
    ensures First(e, p) == FirstOf(Branches(e), p)
    decreases e, 1
  {
    if e.Joined? {
      FirstOfOverBranches(e.children, p);
    } else {
      assert [e][1..] == [];
    }
  }

  lemma {:induction false} FirstOfOverBranches(es: seq<Error>, p: Error -> bool)
    requires forall x: Error :: x.Joined? ==> !p(x)
    ensures FirstOf(es, p) == FirstOf(BranchesOf(es), p)
    decreases es, 0
  {
    if es != [] {
      FirstOverBranches(es[0], p);
      FirstOfOverBranches(es[1..], p);
      FirstOfConcat(Branches(es[0]), BranchesOf(es[1..]), p);
    }
  }

  /** The class of a join is that of its first known branch, however joins are nested. */
  lemma {:induction false} ClassOverBranches(e: Error)
    ensures Classify(e) == FirstKnown(Branches(e))
    decreases e, 1
  {
    if e.Joined? {
      FirstKnownOverBranches(e.children);
    } else {
      assert [e][1..] == [];
    }
  }

  lemma {:induction false} FirstKnownOverBranches(es: seq<Error>)
    ensures FirstKnown(es) == FirstKnown(BranchesOf(es))
    decreases es, 0
  {
    if es != [] {
      ClassOverBranches(es[0]);
      FirstKnownOverBranches(es[1..]);
      FirstKnownConcat(Branches(es[0]), BranchesOf(es[1..]));
    }
  }

  /** Branch `i` is the first that holds such an error. */
  predicate FirstHolder(bs: seq<Error>, p: Error -> bool, i: nat) {
    i < |bs| && Holds(bs[i], p) && forall j :: 0 <= j < i ==> !Holds(bs[j], p)
  }

  lemma {:induction false} FirstOfAt(bs: seq<Error>, p: Error -> bool)
    ensures forall i: nat :: FirstHolder(bs, p, i) ==> FirstOf(bs, p) == First(bs[i], p)
    ensures FirstOf(bs, p).Some? ==> exists i: nat :: FirstHolder(bs, p, i)
    ensures FirstOf(bs, p).None? <==> forall i :: 0 <= i < |bs| ==> !Holds(bs[i], p)
  {
    if bs != [] {
      var rest := bs[1..];
      FirstOfAt(rest, p);
      forall i: nat | FirstHolder(bs, p, i) ensures FirstOf(bs, p) == First(bs[i], p) {
        if i > 0 {
          assert FirstHolder(rest, p, i - 1) by { assert forall j :: 0 <= j < i - 1 ==> rest[j] == bs[j + 1]; }
        }
      }
      if FirstOf(bs, p).Some? {
        if Holds(bs[0], p) {
          assert FirstHolder(bs, p, 0);
        } else {
          var i: nat :| FirstHolder(rest, p, i);
          assert FirstHolder(bs, p, i + 1) by { assert forall j :: 1 <= j < |bs| ==> bs[j] == rest[j - 1]; }
        }
      }
      assert forall j :: 1 <= j < |bs| ==> bs[j] == rest[j - 1];
    }
  }

  /** Branch `i` is the first whose class is known: the primary failure. */
  predicate Primary(bs: seq<Error>, i: nat) {
    i < |bs| && Classify(bs[i]) != Unknown && forall j :: 0 <= j < i ==> Classify(bs[j]) == Unknown
  }

  lemma {:induction false} FirstKnownAt(bs: seq<Error>)
    ensures forall i: nat :: Primary(bs, i) ==> FirstKnown(bs) == Classify(bs[i])
    ensures FirstKnown(bs) != Unknown ==> exists i: nat :: Primary(bs, i)
    ensures FirstKnown(bs) == Unknown ==> forall i :: 0 <= i < |bs| ==> Classify(bs[i]) == Unknown
  {
    if bs != [] {
      var rest := bs[1..];
      FirstKnownAt(rest);
      assert forall j :: 1 <= j < |bs| ==> bs[j] == rest[j - 1];
      forall i: nat | Primary(bs, i) ensures FirstKnown(bs) == Classify(bs[i]) {
        if i > 0 { assert Primary(rest, i - 1) by { assert forall j :: 0 <= j < i - 1 ==> rest[j] == bs[j + 1]; } }
      }
      if FirstKnown(bs) != Unknown {
        if Classify(bs[0]) != Unknown {
          assert Primary(bs, 0);
        } else {
          var i: nat :| Primary(rest, i);
          assert Primary(bs, i + 1);
        }
      }
    }
  }

  /** Branch `i`, or an earlier one, holds the first error of its kind. */
  predicate NoneBefore(bs: seq<Error>, i: nat, p: Error -> bool)
    requires i <= |bs|
  {
    forall j :: 0 <= j < i ==> !Holds(bs[j], p)
  }

  predicate NowhereIn(bs: seq<Error>, p: Error -> bool) { NoneBefore(bs, |bs|, p) }

  /** The first stage failure of all branches, if there is one, is of an unknown stage. */
  ghost predicate NoKnownStageFirst(bs: seq<Error>) {
    forall i: nat :: FirstHolder(bs, IsStage, i) ==> First(bs[i], IsStage).value.stage !in KNOWN_STAGES
  }

  /** Searched by kind, the branches give way to the primary failure of branch `i`: before it no branch holds an error
      of its kind, and no branch holds one of a kind that goes first (stage, boundary, refresh; an unknown stage in
      front does not count). For an Apple Notes failure no branch may add a permission error. */
  ghost predicate NotDisplaced(bs: seq<Error>, i: nat)
    requires i < |bs|
  {
    match Classify(bs[i])
    case AppleNotesPermission => NoneBefore(bs, i, IsStage)
    case StageFailure(stage) => NoneBefore(bs, i, IsStage) && (stage == "apple_notes" ==> NowhereIn(bs, IsPermission))
    case BoundaryFailure(_) => NoKnownStageFirst(bs)
    case SemanticFailure(_) =>
      NoKnownStageFirst(bs) && NowhereIn(bs, IsBoundary) && NoneBefore(bs, i, IsRefresh)
    case Unknown => true
  }

  /** A wrapped error keeps its class exactly when its primary failure, if it has one, is not displaced. */
  lemma WrappingKeepsClassIff(e: Error)
    ensures Classify(Wrapped(e)) == Classify(e)
       <==> forall i: nat :: Primary(Branches(e), i) ==> NotDisplaced(Branches(e), i)
  {
    var bs := Branches(e);
    WrappedByKind(e);
    ClassOverBranches(e);
    FirstKnownAt(bs);
    NoBranchIsJoin(e);
    if FirstKnown(bs) == Unknown {
      AllUnknown(bs);
    } else {
      var i: nat :| Primary(bs, i);
      assert forall k: nat :: Primary(bs, k) ==> k == i;
      assert UnknownUpTo(bs, i);
      PrimaryByKind(bs, i);
    }
  }

  /** Classification by kind over a list of branches. */
  function ByKind(bs: seq<Error>): FailureType {
    var stage, boundary, refresh := FirstOf(bs, IsStage), FirstOf(bs, IsBoundary), FirstOf(bs, IsRefresh);
    if stage.Some? && stage.value.stage == "apple_notes" && !NowhereIn(bs, IsPermission) then AppleNotesPermission
    else if stage.Some? && stage.value.stage in KNOWN_STAGES then StageFailure(stage.value.stage)
    else if boundary.Some? then BoundaryFailure(boundary.value.boundary)
    else if refresh.Some? && refresh.value.code in KNOWN_CODES then SemanticFailure(refresh.value.code)
    else Unknown
  }

  lemma WrappedByKind(e: Error)
    ensures Classify(Wrapped(e)) == ByKind(Branches(e))
  {
    var bs := Branches(e);
    FirstOverBranches(e, IsStage);
    FirstOverBranches(e, IsBoundary);
    FirstOverBranches(e, IsRefresh);
    FirstOverBranches(e, IsPermission);
    FirstIffAny(Wrapped(e), IsPermission);
    FirstOfAt(bs, IsPermission);
  }

  lemma {:induction false} NoBranchIsJoin(e: Error)
    ensures forall b :: b in Branches(e) ==> !b.Joined?
    decreases e, 1
  {
    if e.Joined? { NoBranchOfIsJoin(e.children); }
  }

  lemma {:induction false} NoBranchOfIsJoin(es: seq<Error>)
    ensures forall b :: b in BranchesOf(es) ==> !b.Joined?
    decreases es, 0
  {
    if es != [] {
      NoBranchIsJoin(es[0]);
      NoBranchOfIsJoin(es[1..]);
    }
  }

  /** What an unknown branch may hold: no boundary, and only unknown stages and codes in front. */
  lemma UnknownBranch(b: Error)
    requires !b.Joined? && Classify(b) == Unknown
    ensures !Holds(b, IsBoundary)
    ensures Holds(b, IsStage) ==> First(b, IsStage).value.stage !in KNOWN_STAGES
    ensures Holds(b, IsRefresh) ==> First(b, IsRefresh).value.code !in KNOWN_CODES
  {
    assert "apple_notes" == KNOWN_STAGES[0];
  }

  ghost predicate UnknownUpTo(bs: seq<Error>, n: nat) {
    n <= |bs| && forall j :: 0 <= j < n ==> !bs[j].Joined? && Classify(bs[j]) == Unknown
  }

  lemma UnknownBranches(bs: seq<Error>, n: nat)
    requires UnknownUpTo(bs, n)
    ensures NoneBefore(bs, n, IsBoundary)
    ensures forall j: nat :: j < n && FirstHolder(bs, IsStage, j) ==> First(bs[j], IsStage).value.stage !in KNOWN_STAGES
    ensures forall j: nat :: j < n && FirstHolder(bs, IsRefresh, j) ==>
              First(bs[j], IsRefresh).value.code !in KNOWN_CODES
  {
    forall j | 0 <= j < n
      ensures !Holds(bs[j], IsBoundary)
      ensures Holds(bs[j], IsStage) ==> First(bs[j], IsStage).value.stage !in KNOWN_STAGES
      ensures Holds(bs[j], IsRefresh) ==> First(bs[j], IsRefresh).value.code !in KNOWN_CODES
    {
      UnknownBranch(bs[j]);
    }
  }

  lemma AppleNotesIsKnown()
    ensures "apple_notes" in KNOWN_STAGES
  {
    assert "apple_notes" == KNOWN_STAGES[0];
  }

  lemma AllUnknown(bs: seq<Error>)
    requires UnknownUpTo(bs, |bs|)
    ensures ByKind(bs) == Unknown
  {
    AppleNotesIsKnown();
    UnknownBranches(bs, |bs|);
    FirstOfAt(bs, IsStage);
    FirstOfAt(bs, IsBoundary);
    FirstOfAt(bs, IsRefresh);
  }

  /** Before the primary failure there is no known stage, so the search for a stage finds either the primary's own or
      an unknown one. */
  lemma StagePrimary(bs: seq<Error>, i: nat)
    requires UnknownUpTo(bs, i) && i < |bs| && !bs[i].Joined?
    requires Classify(bs[i]) == AppleNotesPermission || Classify(bs[i]).StageFailure?
    ensures ByKind(bs) == Classify(bs[i]) <==> NotDisplaced(bs, i)
  {
    AppleNotesIsKnown();
    UnknownBranches(bs, i);
    FirstOfAt(bs, IsStage);
    FirstIffAny(bs[i], IsPermission);
    if NoneBefore(bs, i, IsStage) {
      assert FirstHolder(bs, IsStage, i);
    } else {
      var k: nat :| FirstHolder(bs, IsStage, k);
      assert k < i;
    }
  }

  /** A known stage found anywhere goes before boundaries and refreshes. */
  lemma KnownStageGoesFirst(bs: seq<Error>)
    ensures NoKnownStageFirst(bs) <==> ByKind(bs) != AppleNotesPermission && !ByKind(bs).StageFailure?
  {
    AppleNotesIsKnown();
    FirstOfAt(bs, IsStage);
    if FirstOf(bs, IsStage).Some? {
      var k: nat :| FirstHolder(bs, IsStage, k);
      assert forall j: nat :: FirstHolder(bs, IsStage, j) ==> j == k;
    }
  }

  lemma BoundaryPrimary(bs: seq<Error>, i: nat)
    requires UnknownUpTo(bs, i) && i < |bs| && !bs[i].Joined? && Classify(bs[i]).BoundaryFailure?
    ensures ByKind(bs) == Classify(bs[i]) <==> NotDisplaced(bs, i)
  {
    KnownStageGoesFirst(bs);
    UnknownBranches(bs, i);
    FirstOfAt(bs, IsBoundary);
    assert FirstHolder(bs, IsBoundary, i);
  }

  lemma SemanticPrimary(bs: seq<Error>, i: nat)
    requires UnknownUpTo(bs, i) && i < |bs| && !bs[i].Joined? && Classify(bs[i]).SemanticFailure?
    ensures ByKind(bs) == Classify(bs[i]) <==> NotDisplaced(bs, i)
  {
    KnownStageGoesFirst(bs);
    UnknownBranches(bs, i);
    FirstOfAt(bs, IsBoundary);
    FirstOfAt(bs, IsRefresh);
    if NoneBefore(bs, i, IsRefresh) {
      assert FirstHolder(bs, IsRefresh, i);
    } else {
      var k: nat :| FirstHolder(bs, IsRefresh, k);
      assert k < i;
    }
  }

  lemma PrimaryByKind(bs: seq<Error>, i: nat)
    requires UnknownUpTo(bs, i) && i < |bs| && !bs[i].Joined? && Classify(bs[i]) != Unknown
    ensures ByKind(bs) == Classify(bs[i]) <==> NotDisplaced(bs, i)
  {
    match Classify(bs[i]) {
      case BoundaryFailure(_) => BoundaryPrimary(bs, i);
      case SemanticFailure(_) => SemanticPrimary(bs, i);
      case _ => StagePrimary(bs, i);
    }
  }

  /** A cleanup's stage failure displaces the boundary failure that came first; without the wrapper it does not. */
  lemma WrappedJoinCanLoseThePrimary()
    ensures var stage, boundary :=
              StageError("feeds", Plain(false, false)), BoundaryError(StoreClose, Plain(false, false));
      && Classify(Joined([boundary, stage])) == BoundaryFailure(StoreClose)
      && Classify(Wrapped(Joined([boundary, stage]))) == StageFailure("feeds")
  {
    var plain := Plain(false, false);
    var stage, boundary := StageError("feeds", plain), BoundaryError(StoreClose, plain);
    var join := Joined([boundary, stage]);
    assert [boundary, stage][1..] == [stage];
    assert "feeds" == KNOWN_STAGES[9];
    assert First(plain, IsStage) == None && First(boundary, IsStage) == None && First(stage, IsStage) == Some(stage);
    assert FirstOf([stage], IsStage) == Some(stage);
    assert First(join, IsStage) == FirstOf([boundary, stage], IsStage) == Some(stage);
    assert First(boundary, IsBoundary) == Some(boundary);
    assert FirstKnown([boundary, stage]) == Classify(boundary);
  }

  /** The types stand in the order in which they first occur. */
  lemma {:induction false} DedupKeepsOrder<T(!new)>(xs: seq<T>, i: nat, j: nat) returns (k: nat)
    requires i < j < |Dedup(xs)|
    ensures k < |xs| && xs[k] == Dedup(xs)[i] && Dedup(xs)[j] !in xs[..k + 1]
  {
    var front, last := xs[..|xs| - 1], xs[|xs| - 1];
    assert xs == front + [last] && [last][1..] == [];
    AppendNewConcat([], front, [last]);
    AppendNewKeeps([], front);
    var before := Dedup(front);
    if j < |before| {
      k := DedupKeepsOrder(front, i, j);
      assert xs[..k + 1] == front[..k + 1];
    } else {
      assert before[i] in front;
      k :| 0 <= k < |front| && front[k] == before[i];
      forall x | x in xs[..k + 1] ensures x in front { assert xs[..k + 1] == front[..k + 1]; }
    }
  }

  // ----- Outcomes -----

  datatype SyncStatus = Ok | Cancelled | Failed

  datatype Outcome = Success | CancelledOutcome | FailureOutcome(failure: FailureType)

  function ClassifyOutcomes(status: SyncStatus, err: Option<Error>): seq<Outcome> {
    if status == Ok then [Success]
    else if status == Cancelled || (err.Some? && IsCancellationOnly(err.value)) then [CancelledOutcome]
    else
      var types := if err.Some? then FailureTypes(err.value) else [];
      FailureOutcomes(if types == [] then [Unknown] else types)
  }

  function FailureOutcomes(types: seq<FailureType>): seq<Outcome> {
    seq(|types|, i requires 0 <= i < |types| => FailureOutcome(types[i]))
  }

  predicate HasEmptyTopJoin(e: Error) {
    e.Joined? && (e.children == [] || exists i :: 0 <= i < |e.children| && HasEmptyTopJoin(e.children[i]))
  }

  lemma {:induction false} NoClassesMeans(e: Error)
    ensures Classes(Branches(e)) == [] && !HasEmptyTopJoin(e) ==> IsCancellationOnly(e)
    ensures IsCancellationOnly(e) ==> !HasEmptyTopJoin(e)
    decreases e, 1
  {
    if e.Joined? { NoClassesOfMeans(e.children); }
  }

  lemma {:induction false} NoClassesOfMeans(es: seq<Error>)
    ensures Classes(BranchesOf(es)) == [] && (forall i :: 0 <= i < |es| ==> !HasEmptyTopJoin(es[i])) ==>
              forall i :: 0 <= i < |es| ==> IsCancellationOnly(es[i])
    ensures forall i :: 0 <= i < |es| && IsCancellationOnly(es[i]) ==> !HasEmptyTopJoin(es[i])
    decreases es, 0
  {
    if es != [] {
      NoClassesMeans(es[0]);
      NoClassesOfMeans(es[1..]);
      ClassesConcat(Branches(es[0]), BranchesOf(es[1..]));
      assert forall i :: 1 <= i < |es| ==> es[i] == es[1..][i - 1];
    }
  }

  lemma {:induction false} NoClassesIffCancelled(branches: seq<Error>)
    ensures Classes(branches) == [] <==> forall b :: b in branches ==> IsCancellationOnly(b)
  {
    if branches != [] {
      NoClassesIffCancelled(branches[1..]);
      assert branches[0] in branches;
      assert branches == [branches[0]] + branches[1..];
    }
  }

  /** A failed run falls back to the unknown type without any classified branch exactly when it carries no error, or
      an error whose branches are all cancellations while some join is empty. */
  lemma FallbackReachedIff(err: Option<Error>)
    ensures (err.None? || (!IsCancellationOnly(err.value) && FailureTypes(err.value) == []))
       <==> (err.None? || (HasEmptyTopJoin(err.value) &&
              forall b :: b in Branches(err.value) ==> IsCancellationOnly(b)))
  {
    if err.Some? {
      FailureTypesAreFlat(err.value);
      AppendNewKeeps([], Classes(Branches(err.value)));
      NoClassesMeans(err.value);
      NoClassesIffCancelled(Branches(err.value));
      var classes := Classes(Branches(err.value));
      if classes != [] { assert classes[0] in Dedup(classes); }
    }
  }

  /** The fallback is real: a cancelled branch beside an empty join, or an empty join alone. */
  lemma EmptyJoinsFallBack()
    ensures ClassifyOutcomes(Failed, Some(Joined([]))) == [FailureOutcome(Unknown)]
    ensures ClassifyOutcomes(Failed, Some(Joined([Plain(true, false), Joined([])]))) == [FailureOutcome(Unknown)]
  {
    var cancelled, empty := Plain(true, false), Joined([]);
    assert [cancelled, empty][1..] == [empty] && [empty][1..] == [];
    assert !IsCancellationOnly(empty) && [cancelled, empty][1] == empty;
    assert FailureTypesOf([empty], []) == [];
    assert FailureTypes(cancelled) == [];
  }

  // ----- A whole run's outcomes -----

  /** The status a run is given when it ends. */
  function RunStatus(err: Option<Error>): SyncStatus {
    if err.None? then Ok else if IsCancellationOnly(err.value) then Cancelled else Failed
  }

  /** Some branch that is not a mere cancellation has class `c`. */
  ghost predicate HasClass(branches: seq<Error>, c: FailureType) {
    exists b :: b in branches && !IsCancellationOnly(b) && Classify(b) == c
  }

  lemma {:induction false} ClassOfBranch(branches: seq<Error>, c: FailureType)
    ensures c in Classes(branches) <==> HasClass(branches, c)
  {
    if branches != [] {
      var first, rest := branches[0], branches[1..];
      ClassOfBranch(rest, c);
      assert branches == [first] + rest;
      if HasClass(branches, c) {
        var b :| b in branches && !IsCancellationOnly(b) && Classify(b) == c;
        assert b == first || b in rest;
      }
      if HasClass(rest, c) {
        var b :| b in rest && !IsCancellationOnly(b) && Classify(b) == c;
        assert b in branches;
      }
    }
  }

  lemma TypesAreClasses(e: Error)
    ensures Sorting.Distinct(FailureTypes(e))
    ensures forall c :: c in FailureTypes(e) <==> HasClass(Branches(e), c)
  {
    FailureTypesAreFlat(e);
    AppendNewKeeps([], Classes(Branches(e)));
    forall c ensures c in FailureTypes(e) <==> HasClass(Branches(e), c) { ClassOfBranch(Branches(e), c); }
  }

  /** Success without an error; one cancelled outcome for a mere cancellation; otherwise failures only, one for each
      class among the branches that are not cancellations, or the unknown failure if there is none. */
  lemma OutcomesOfRun(err: Option<Error>)
    ensures err.None? ==> ClassifyOutcomes(RunStatus(err), err) == [Success]
    ensures err.Some? && IsCancellationOnly(err.value) ==> ClassifyOutcomes(RunStatus(err), err) == [CancelledOutcome]
    ensures err.Some? && !IsCancellationOnly(err.value) ==>
              var outcomes := ClassifyOutcomes(RunStatus(err), err);
              && outcomes != [] && Sorting.Distinct(outcomes)
              && (forall i :: 0 <= i < |outcomes| ==> outcomes[i].FailureOutcome?)
              && (forall c :: HasClass(Branches(err.value), c) ==> FailureOutcome(c) in outcomes)
              && (forall c :: FailureOutcome(c) in outcomes ==>
                    HasClass(Branches(err.value), c) || (c == Unknown && outcomes == [FailureOutcome(Unknown)]))
  {
    if err.Some? && !IsCancellationOnly(err.value) {
      var types := FailureTypes(err.value);
      TypesAreClasses(err.value);
      OutcomesOfTypes(if types == [] then [Unknown] else types);
    }
  }

  lemma OutcomesOfTypes(types: seq<FailureType>)
    requires Sorting.Distinct(types)
    ensures Sorting.Distinct(FailureOutcomes(types)) && |FailureOutcomes(types)| == |types|
    ensures forall c :: FailureOutcome(c) in FailureOutcomes(types) <==> c in types
  {
    forall c ensures FailureOutcome(c) in FailureOutcomes(types) <==> c in types {
      if c in types {
        var i :| 0 <= i < |types| && types[i] == c;
        assert FailureOutcomes(types)[i] == FailureOutcome(c);
      }
    }
  }
}

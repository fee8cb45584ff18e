/** Which vocabulary aliases are safe (internal/app/categorize_vocab.go): words that are known aliases, differ only in
    number, or are long and within two edits of each other. A char stands for a byte. */
module AliasSafety {
  import opened Arithmetic
  import opened EditDistance

  const REPLACEMENTS := map[
    "-tools" := "-tool", "-libraries" := "-library", "-projects" := "-project", "-models" := "-model",
    "-agents" := "-agent", "-apps" := "-app", "-utilities" := "-utility"]

  predicate HasSuffix(s: string, suffix: string) { |suffix| <= |s| && s[|s| - |suffix|..] == suffix }

  function TrimSuffix(s: string, suffix: string): string { if HasSuffix(s, suffix) then s[..|s| - |suffix|] else s }

  /** The two general rules, without the table of replacements. */
  function Singular(t: string): string {
    if HasSuffix(t, "ies") && |t| > 4 then TrimSuffix(t, "ies") + "y"
    else if HasSuffix(t, "s") && !HasSuffix(t, "ss") && |t| > 3 then TrimSuffix(t, "s")
    else t
  }

  lemma EndsIn(t: string)
    ensures HasSuffix(t, "s") <==> |t| > 0 && t[|t| - 1] == 's'
    ensures HasSuffix(t, "ss") <==> |t| > 1 && t[|t| - 2] == 's' && t[|t| - 1] == 's'
    ensures HasSuffix(t, "ies") <==> |t| > 2 && t[|t| - 3] == 'i' && t[|t| - 2] == 'e' && t[|t| - 1] == 's'
  {}

  lemma DropsFinalS(t: string, stem: string)
    requires |stem| >= 3 && stem[|stem| - 1] != 's' && stem[|stem| - 1] != 'e' && HasSuffix(t, stem + "s")
    ensures TrimSuffix(t, stem + "s") + stem == Singular(t)
  {
    var n := |stem| + 1;
    EndsIn(t);
    assert (stem + "s")[n - 1] == t[|t| - 1] && (stem + "s")[n - 2] == t[|t| - 2];
    assert t == t[..|t| - n] + (stem + "s");
  }

  lemma TurnsIesIntoY(t: string, stem: string)
    requires |stem| >= 2 && HasSuffix(t, stem + "ies")
    ensures TrimSuffix(t, stem + "ies") + (stem + "y") == Singular(t)
  {
    var n := |stem| + 3;
    EndsIn(t);
    assert (stem + "ies")[n - 1] == t[|t| - 1] && (stem + "ies")[n - 2] == t[|t| - 2]
      && (stem + "ies")[n - 3] == t[|t| - 3];
    assert t == t[..|t| - n] + (stem + "ies");
  }

  /** Every row of the table does what the general rules would have done. */
  lemma TableAgrees(t: string, suffix: string)
    requires suffix in REPLACEMENTS && HasSuffix(t, suffix)
    ensures TrimSuffix(t, suffix) + REPLACEMENTS[suffix] == Singular(t)
  {
    if suffix == "-libraries" {
      assert suffix == "-librar" + "ies" && REPLACEMENTS[suffix] == "-librar" + "y";
      TurnsIesIntoY(t, "-librar");
    } else if suffix == "-utilities" {
      assert suffix == "-utilit" + "ies" && REPLACEMENTS[suffix] == "-utilit" + "y";
      TurnsIesIntoY(t, "-utilit");
    } else {
      assert suffix == REPLACEMENTS[suffix] + "s";
      DropsFinalS(t, REPLACEMENTS[suffix]);
    }
  }

  /** The table is visited in any order, and neither the order nor the table matters. */
  method SingularForm(token: string) returns (singular: string)
    ensures singular == Singular(token)
  {
    var pending := REPLACEMENTS.Keys;
    while pending != {}
      invariant pending <= REPLACEMENTS.Keys
    {
      var suffix :| suffix in pending;
      pending := pending - {suffix};
      if HasSuffix(token, suffix) {
        TableAgrees(token, suffix);
        return TrimSuffix(token, suffix) + REPLACEMENTS[suffix];
      }
    }
    if HasSuffix(token, "ies") && |token| > 4 {
      return TrimSuffix(token, "ies") + "y";
    }
    if HasSuffix(token, "s") && !HasSuffix(token, "ss") && |token| > 3 {
      return TrimSuffix(token, "s");
    }
    return token;
  }

  /** What becomes of each ending: "ies" turns into "y" after two letters or more, a lone "s" goes after three, and
      every other word stays. */
  lemma SingularByEnding(stem: string)
    ensures |stem| >= 2 ==> Singular(stem + "ies") == stem + "y"
    ensures |stem| == 1 ==> Singular(stem + "ies") == stem + "ie"
    ensures Singular("ies") == "ies"
    ensures |stem| >= 3 && stem[|stem| - 1] != 's' && !HasSuffix(stem + "s", "ies") ==> Singular(stem + "s") == stem
    ensures |stem| < 3 ==> Singular(stem + "s") == stem + "s"
    ensures Singular(stem + "ss") == stem + "ss"
    ensures stem == "" || stem[|stem| - 1] != 's' ==> Singular(stem) == stem
  {
    EndsIn(stem);
    EndsIn(stem + "s");
    EndsIn(stem + "ss");
    EndsIn(stem + "ies");
    EndsIn("ies");
    assert (stem + "ies")[..|stem|] == stem && (stem + "s")[..|stem|] == stem;
    assert (stem + "ies")[..|stem| + 2] == stem + "ie";
  }

  /** A singular stays as it is, so equal singular forms pick one representative for every class of words. */
  lemma SingularIsFixed(t: string)
    ensures Singular(Singular(t)) == Singular(t)
  {
    EndsIn(t);
    EndsIn(Singular(t));
  }

  ghost predicate Safe(from: string, to: string, known: map<string, string>) {
    from != "" && to != "" && from != to &&
    (|| (from in known && known[from] == to)
     || Singular(from) == Singular(to)
     || (Reachable(from, to, 2) && |from| >= 6 && |to| >= 6))
  }

  method SafeAlias(from: string, to: string, known: map<string, string>) returns (safe: bool)
    ensures safe <==> Safe(from, to, known)
    ensures safe <==>
              && from != "" && to != "" && from != to
              && (|| (from in known && known[from] == to)
                  || Singular(from) == Singular(to)
                  || (|from| >= 6 && |to| >= 6 && Reachable(from, to, 2)))
  {
    if from == "" || to == "" || from == to {
      return false;
    }
    if from in known && known[from] == to {
      return true;
    }
    var a := SingularForm(from);
    var b := SingularForm(to);
    if a == b {
      return true;
    }
    var close := EditDistanceWithin(from, to, 2);
    return close && Min(|from|, |to|) >= 6;
  }

  lemma {:induction false} DistanceSymmetric<T>(a: seq<T>, b: seq<T>)
    ensures Distance(a, b) == Distance(b, a)
    decreases |a| + |b|
  {
    if a != [] && b != [] {
      DistanceSymmetric(a, Front(b));
      DistanceSymmetric(Front(a), b);
      DistanceSymmetric(Front(a), Front(b));
    }
  }

  /** Apart from the known aliases safety has no direction: what may replace a word may be replaced by it. */
  lemma SafeBothWays(from: string, to: string, known: map<string, string>)
    requires !(from in known && known[from] == to) && !(to in known && known[to] == from)
    ensures Safe(from, to, known) <==> Safe(to, from, known)
  {
    ReachableIffDistance(from, to, 2);
    ReachableIffDistance(to, from, 2);
    DistanceSymmetric(from, to);
  }
}

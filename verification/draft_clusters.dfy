/** The draft vocabulary (internal/app/categorize_analyze_draft.go): frequent tokens are clustered by their normal key,
    the most frequent form of each cluster becomes canonical, and every token is listed in exactly one role. */
module DraftClusters {
  import opened Options
  import opened Sorting
  import Strings

  datatype Entry = Entry(token: string, count: int)

  /** Highest count first, then token order. */
  predicate ListedBefore(a: Entry, b: Entry) {
    a.count > b.count || (a.count == b.count && Strings.AtMost(a.token, b.token))
  }

  lemma ListingOrder()
    ensures TotalOrder(ListedBefore)
  {
    forall a: Entry, b: Entry ensures ListedBefore(a, b) || ListedBefore(b, a)
    ensures ListedBefore(a, b) && ListedBefore(b, a) ==> a == b {
      Strings.LessTotal(a.token, b.token);
    }
    forall a: Entry, b: Entry, c: Entry | ListedBefore(a, b) && ListedBefore(b, c) ensures ListedBefore(a, c) {
      if Strings.Less(a.token, b.token) && Strings.Less(b.token, c.token) {
        Strings.LessTransitive(a.token, b.token, c.token);
      }
    }
  }

  function Without(s: string, c: char): string {
    if s == [] then [] else (if s[0] == c then [] else [s[0]]) + Without(s[1..], c)
  }

  /** `lower` is the library's lower-casing. */
  function NormKey(lower: string -> string, token: string): string {
    Without(Without(Without(lower(token), ' '), '-'), '_')
  }

  // ----- What the key keeps: everything but spaces, hyphens and underscores -----

  predicate Separator(c: char) { c == ' ' || c == '-' || c == '_' }

  /** The characters of a string that are not separators, in order. */
  function Letters(s: string): string {
    if s == [] then [] else (if Separator(s[0]) then [] else [s[0]]) + Letters(s[1..])
  }

  lemma {:induction false} LettersConcat(a: string, b: string)
    ensures Letters(a + b) == Letters(a) + Letters(b)
  {
    if a == [] {
      assert a + b == b;
    } else {
      assert (a + b)[1..] == a[1..] + b;
      LettersConcat(a[1..], b);
    }
  }

  /** A string with a separator put anywhere has the same letters, and a string without separators is its letters. */
  lemma LettersIgnoreSeparators(a: string, c: char, b: string)
    requires c == ' ' || c == '-' || c == '_'
    ensures Letters(a + [c] + b) == Letters(a + b)
    ensures (forall i :: 0 <= i < |a| ==> a[i] != ' ' && a[i] != '-' && a[i] != '_') ==> Letters(a) == a
  {
    LettersConcat(a, [c]);
    LettersConcat(a + [c], b);
    LettersConcat(a, b);
    assert Letters([c]) == [] by { assert [c][1..] == []; }
    LettersOfPlain(a);
  }

  lemma {:induction false} LettersOfPlain(s: string)
    ensures (forall i :: 0 <= i < |s| ==> s[i] != ' ' && s[i] != '-' && s[i] != '_') ==> Letters(s) == s
    ensures forall i :: 0 <= i < |Letters(s)| ==>
              Letters(s)[i] != ' ' && Letters(s)[i] != '-' && Letters(s)[i] != '_'
  {
    if s != [] { LettersOfPlain(s[1..]); }
  }

  lemma WithoutCons(x: char, rest: string, c: char)
    ensures Without([x] + rest, c) == if x == c then Without(rest, c) else [x] + Without(rest, c)
  {
    assert ([x] + rest)[1..] == rest && [] + Without(rest, c) == Without(rest, c);
  }

  lemma {:induction false} WithoutAll(s: string)
    ensures Without(Without(Without(s, ' '), '-'), '_') == Letters(s)
  {
    if s != [] {
      var x, rest := s[0], s[1..];
      WithoutAll(rest);
      assert s == [x] + rest && [] + Letters(rest) == Letters(rest);
      WithoutCons(x, rest, ' ');
      WithoutCons(x, Without(rest, ' '), '-');
      WithoutCons(x, Without(Without(rest, ' '), '-'), '_');
    }
  }

  /** The key of a token is its lower-case form with exactly the separators removed. */
  lemma KeyIsLetters(lower: string -> string, token: string)
    ensures NormKey(lower, token) == Letters(lower(token))
    ensures forall i :: 0 <= i < |NormKey(lower, token)| ==>
              NormKey(lower, token)[i] != ' ' && NormKey(lower, token)[i] != '-' && NormKey(lower, token)[i] != '_'
  {
    WithoutAll(lower(token));
    LettersOfPlain(lower(token));
  }

  /** Spellings that differ by one separator have one key; so, step by step, do all that differ only in separators. */
  lemma SeparatorsDoNotCount(lower: string -> string, t: string, u: string, a: string, c: char, b: string)
    requires lower(t) == a + b && lower(u) == a + [c] + b && (c == ' ' || c == '-' || c == '_')
    ensures NormKey(lower, t) == NormKey(lower, u)
  {
    KeyIsLetters(lower, t);
    KeyIsLetters(lower, u);
    LettersIgnoreSeparators(a, c, b);
  }

  datatype Cluster = Cluster(canonical: string, aliases: seq<string>)

  datatype Draft = Draft(clusters: seq<Cluster>, frequency: seq<Entry>)

  /** The eligible tokens, each once, in listing order. */
  ghost predicate Lists(es: seq<Entry>, counts: map<string, int>, minCount: int) {
    && Sorted(es, ListedBefore)
    && (forall i, j :: 0 <= i < j < |es| ==> es[i].token != es[j].token)
    && (forall e :: e in es <==> e.token in counts && counts[e.token] == e.count && e.count >= minCount)
  }

  // ----- The reference: clusters are the tokens of one key in listing order -----

  function Members(lower: string -> string, es: seq<Entry>, key: string): seq<string> {
    if es == [] then []
    else
      var last := es[|es| - 1];
      Members(lower, es[..|es| - 1], key) + if NormKey(lower, last.token) == key then [last.token] else []
  }

  /** The keys in order of first appearance. */
  function Keys(lower: string -> string, es: seq<Entry>): seq<string> {
    if es == [] then []
    else
      var before, key := Keys(lower, es[..|es| - 1]), NormKey(lower, es[|es| - 1].token);
      if key in before then before else before + [key]
  }

  function ClustersOf(lower: string -> string, es: seq<Entry>, keys: seq<string>): seq<Cluster> {
    if keys == [] then []
    else
      var members := Members(lower, es, keys[|keys| - 1]);
      ClustersOf(lower, es, keys[..|keys| - 1]) + if |members| > 1 then [Cluster(members[0], members[1..])] else []
  }

  function Alone(lower: string -> string, es: seq<Entry>, some: seq<Entry>): seq<Entry> {
    if some == [] then []
    else
      var last := some[|some| - 1];
      Alone(lower, es, some[..|some| - 1]) +
      if Members(lower, es, NormKey(lower, last.token)) == [last.token] then [last] else []
  }

  function DraftOf(lower: string -> string, es: seq<Entry>): Draft {
    Draft(ClustersOf(lower, es, Keys(lower, es)), Alone(lower, es, es))
  }

  // ----- The program -----

  method CollectEntries(counts: map<string, int>, minCount: int) returns (es: seq<Entry>)
    ensures Lists(es, counts, minCount)
  {
    es := [];
    var pending := counts.Keys;
    while pending != {}
      invariant pending <= counts.Keys
      invariant forall i, j :: 0 <= i < j < |es| ==> es[i].token != es[j].token
      invariant forall e :: e in es <==>
                  e.token in counts && e.token !in pending && counts[e.token] == e.count && e.count >= minCount
    {
      var token :| token in pending;
      pending := pending - {token};
      if counts[token] >= minCount {
        es := es + [Entry(token, counts[token])];
      }
    }
    ghost var collected := es;
    ListingOrder();
    SortPermutes(es, ListedBefore);
    SortSorted(es, ListedBefore);
    DistinctPermutation(es, Sort(es, ListedBefore));
    es := Sort(es, ListedBefore);
    forall e ensures e in es <==> e in collected { assert e in multiset(es) <==> e in multiset(collected); }
    forall i, j | 0 <= i < j < |es| ensures es[i].token != es[j].token { assert es[i] in es && es[j] in es; }
  }

  /** The clustering table after some entries. */
  ghost predicate Tabulates(lower: string -> string, es: seq<Entry>, byNorm: map<string, Cluster>) {
    forall key ::
      && (key in byNorm <==> Members(lower, es, key) != [])
      && (key in byNorm ==> [byNorm[key].canonical] + byNorm[key].aliases == Members(lower, es, key))
  }

  lemma {:induction false} KeysHaveMembers(lower: string -> string, es: seq<Entry>, key: string)
    ensures key in Keys(lower, es) <==> Members(lower, es, key) != []
  {
    if es != [] { KeysHaveMembers(lower, es[..|es| - 1], key); }
  }

  /** The table after one more entry: an alias for a key it holds, otherwise a cluster of its own. */
  function Tabulated(byNorm: map<string, Cluster>, key: string, token: string): map<string, Cluster> {
    byNorm[key := if key in byNorm then byNorm[key].(aliases := byNorm[key].aliases + [token]) else Cluster(token, [])]
  }

  lemma TabulateNext(lower: string -> string, es: seq<Entry>, i: nat, byNorm: map<string, Cluster>)
    requires i < |es| && Tabulates(lower, es[..i], byNorm)
    ensures Tabulates(lower, es[..i + 1], Tabulated(byNorm, NormKey(lower, es[i].token), es[i].token))
  {
    TableGrows(lower, es, i);
    var token, k := es[i].token, NormKey(lower, es[i].token);
    var next := Tabulated(byNorm, k, token);
    forall key
      ensures key in next <==> Members(lower, es[..i + 1], key) != []
      ensures key in next ==> [next[key].canonical] + next[key].aliases == Members(lower, es[..i + 1], key)
    {
      assert Members(lower, es[..i + 1], key) == Members(lower, es[..i], key) + if k == key then [token] else [];
    }
  }

  lemma NextKey(lower: string -> string, es: seq<Entry>, i: nat, byNorm: map<string, Cluster>)
    requires i < |es| && Tabulates(lower, es[..i], byNorm)
    ensures var key := NormKey(lower, es[i].token);
      Keys(lower, es[..i + 1]) == Keys(lower, es[..i]) + if key in byNorm then [] else [key]
  {
    assert es[..i + 1][..i] == es[..i];
    KeysHaveMembers(lower, es[..i], NormKey(lower, es[i].token));
  }

  /** The next entry joins the members of its own key and of no other. */
  lemma TableGrows(lower: string -> string, es: seq<Entry>, i: nat)
    requires i < |es|
    ensures forall key :: Members(lower, es[..i + 1], key) ==
              Members(lower, es[..i], key) + if NormKey(lower, es[i].token) == key then [es[i].token] else []
  {
    assert es[..i + 1][..i] == es[..i];
  }

  method Group(lower: string -> string, es: seq<Entry>) returns (byNorm: map<string, Cluster>, order: seq<string>)
    ensures Tabulates(lower, es, byNorm) && order == Keys(lower, es)
  {
    byNorm, order := map[], [];
    for i := 0 to |es|
      invariant Tabulates(lower, es[..i], byNorm) && order == Keys(lower, es[..i])
    {
      var e := es[i];
      var k := NormKey(lower, e.token);
      TabulateNext(lower, es, i, byNorm);
      NextKey(lower, es, i, byNorm);
      if k in byNorm {
        byNorm := byNorm[k := byNorm[k].(aliases := byNorm[k].aliases + [e.token])];
      } else {
        byNorm := byNorm[k := Cluster(e.token, [])];
        order := order + [k];
      }
    }
    assert es[..|es|] == es;
  }

  method WriteDraft(lower: string -> string, counts: map<string, int>, minCount: int) returns (d: Draft)
    ensures exists es :: Lists(es, counts, minCount) && d == DraftOf(lower, es)
  {
    var entries := CollectEntries(counts, minCount);
    var byNorm, order := Group(lower, entries);
    var clusters := PrintClusters(lower, entries, byNorm, order);
    var frequency := PrintFrequency(lower, entries, byNorm);
    d := Draft(clusters, frequency);
  }

  /** There is only one such listing, so the draft does not depend on the order in which tokens were counted. */
  lemma ListingIsUnique(es: seq<Entry>, fs: seq<Entry>, counts: map<string, int>, minCount: int)
    requires Lists(es, counts, minCount) && Lists(fs, counts, minCount)
    ensures es == fs
  {
    ListingOrder();
    forall e ensures multiset(es)[e] == multiset(fs)[e] {
      DistinctMultiplicity(es, e);
      DistinctMultiplicity(fs, e);
      assert e in es <==> e in fs;
    }
    assert multiset(es) == multiset(fs);
    SortedPermutationUnique(es, fs, ListedBefore);
  }

  method PrintClusters(lower: string -> string, ghost es: seq<Entry>, byNorm: map<string, Cluster>, order: seq<string>)
    returns (clusters: seq<Cluster>)
    requires Tabulates(lower, es, byNorm) && order == Keys(lower, es)
    ensures clusters == ClustersOf(lower, es, order)
  {
    clusters := [];
    for i := 0 to |order|
      invariant clusters == ClustersOf(lower, es, order[..i])
    {
      KeysHaveMembers(lower, es, order[i]);
      var cl := byNorm[order[i]];
      assert order[..i + 1][..i] == order[..i];
      assert Members(lower, es, order[i])[1..] == cl.aliases;
      if |cl.aliases| == 0 {
        continue;
      }
      clusters := clusters + [cl];
    }
    assert order[..|order|] == order;
  }

  method PrintFrequency(lower: string -> string, es: seq<Entry>, byNorm: map<string, Cluster>)
    returns (frequency: seq<Entry>)
    requires Tabulates(lower, es, byNorm)
    ensures frequency == Alone(lower, es, es)
  {
    frequency := [];
    for i := 0 to |es|
      invariant frequency == Alone(lower, es, es[..i])
    {
      var e := es[i];
      var k := NormKey(lower, e.token);
      assert es[..i + 1][..i] == es[..i];
      MemberOfItsKey(lower, es, i);
      if byNorm[k].canonical != e.token {
        continue;
      }
      if |byNorm[k].aliases| > 0 {
        continue;
      }
      frequency := frequency + [e];
    }
    assert es[..|es|] == es;
  }

  lemma {:induction false} MemberOfItsKey(lower: string -> string, es: seq<Entry>, i: nat)
    requires i < |es|
    ensures es[i].token in Members(lower, es, NormKey(lower, es[i].token))
  {
    if i < |es| - 1 { MemberOfItsKey(lower, es[..|es| - 1], i); }
  }

  // ----- The listing is a partition -----

  ghost predicate Eligible(counts: map<string, int>, minCount: int, t: string) { t in counts && counts[t] >= minCount }

  function TokensOf(cl: Cluster): seq<string> { [cl.canonical] + cl.aliases }

  ghost predicate IsAlias(d: Draft, t: string) { exists i :: 0 <= i < |d.clusters| && t in d.clusters[i].aliases }

  ghost predicate IsCanonical(d: Draft, t: string) { exists i :: 0 <= i < |d.clusters| && t == d.clusters[i].canonical }

  ghost predicate InFrequencyList(d: Draft, t: string) {
    exists i :: 0 <= i < |d.frequency| && t == d.frequency[i].token
  }

  lemma {:induction false} MembersExactly(lower: string -> string, es: seq<Entry>, key: string, t: string)
    ensures t in Members(lower, es, key) <==> NormKey(lower, t) == key && exists i :: 0 <= i < |es| && es[i].token == t
  {
    if es != [] {
      var front, last := es[..|es| - 1], es[|es| - 1];
      MembersExactly(lower, front, key, t);
      if exists i :: 0 <= i < |front| && front[i].token == t {
        var i :| 0 <= i < |front| && front[i].token == t;
        assert es[i].token == t;
      }
      if exists i :: 0 <= i < |es| && es[i].token == t {
        var i :| 0 <= i < |es| && es[i].token == t;
        assert i < |front| ==> front[i].token == t;
      }
    }
  }

  /** Members keep the listing order and are not repeated. */
  lemma {:induction false} MembersOrdered(
    lower: string -> string, es: seq<Entry>, counts: map<string, int>, minCount: int, key: string)
    requires Lists(es, counts, minCount)
    ensures Distinct(Members(lower, es, key))
    ensures forall i :: 0 <= i < |Members(lower, es, key)| ==> Eligible(counts, minCount, Members(lower, es, key)[i])
    ensures forall i, j :: 0 <= i < j < |Members(lower, es, key)| ==>
              Precedes(counts, minCount, Members(lower, es, key)[i], Members(lower, es, key)[j])
  {
    PrefixMembersOrdered(lower, es, counts, minCount, key, |es|);
    assert es[..|es|] == es;
  }

  /** `a` is more frequent than `b`, or as frequent and smaller. */
  ghost predicate Precedes(counts: map<string, int>, minCount: int, a: string, b: string) {
    Eligible(counts, minCount, a) && Eligible(counts, minCount, b)
    && (counts[a] > counts[b] || (counts[a] == counts[b] && Strings.Less(a, b)))
  }

  lemma {:induction false} PrefixMembersOrdered(
    lower: string -> string, es: seq<Entry>, counts: map<string, int>, minCount: int, key: string, n: nat)
    requires Lists(es, counts, minCount) && n <= |es|
    ensures var m := Members(lower, es[..n], key);
      && Distinct(m)
      && (forall i :: 0 <= i < |m| ==> Eligible(counts, minCount, m[i]))
      && (forall i, j :: 0 <= i < j < |m| ==> Precedes(counts, minCount, m[i], m[j]))
  {
    if n > 0 {
      PrefixMembersOrdered(lower, es, counts, minCount, key, n - 1);
      var last, before := es[n - 1], Members(lower, es[..n - 1], key);
      assert es[..n][..n - 1] == es[..n - 1] && last in es;
      forall i | 0 <= i < |before|
        ensures Precedes(counts, minCount, before[i], last.token) && before[i] != last.token {
        MembersExactly(lower, es[..n - 1], key, before[i]);
        var j :| 0 <= j < n - 1 && es[j].token == before[i];
        assert es[j] in es && ListedBefore(es[j], last);
      }
    }
  }

  /** The canonical form has the highest count of its cluster, the smallest token winning ties. */
  lemma CanonicalIsMostFrequent(
    lower: string -> string, es: seq<Entry>, counts: map<string, int>, minCount: int, i: nat, t: string)
    requires Lists(es, counts, minCount) && i < |DraftOf(lower, es).clusters|
&& t in DraftOf(lower, es).clusters[i].aliases
    ensures Precedes(counts, minCount, DraftOf(lower, es).clusters[i].canonical, t)
  {
    var key := ClusterKey(lower, es, Keys(lower, es), i);
    var m := Members(lower, es, key);
    MembersOrdered(lower, es, counts, minCount, key);
    var j :| 0 <= j < |m[1..]| && m[1..][j] == t;
    assert m[j + 1] == t;
  }

  /** Every printed cluster is the cluster of some key. */
  lemma {:induction false} ClusterKey(lower: string -> string, es: seq<Entry>, keys: seq<string>, i: nat)
    returns (key: string)
    requires i < |ClustersOf(lower, es, keys)|
    ensures key in keys && |Members(lower, es, key)| > 1
    ensures ClustersOf(lower, es, keys)[i] == Cluster(Members(lower, es, key)[0], Members(lower, es, key)[1..])
  {
    var front := ClustersOf(lower, es, keys[..|keys| - 1]);
    if i < |front| {
      key := ClusterKey(lower, es, keys[..|keys| - 1], i);
    } else {
      key := keys[|keys| - 1];
    }
  }

  /** The tokens of a printed cluster are all the members of its key. */
  lemma ClusterTokens(lower: string -> string, es: seq<Entry>, i: nat) returns (key: string)
    requires i < |DraftOf(lower, es).clusters|
    ensures TokensOf(DraftOf(lower, es).clusters[i]) == Members(lower, es, key) && |Members(lower, es, key)| > 1
  {
    key := ClusterKey(lower, es, Keys(lower, es), i);
  }

  /** Every key with several tokens has its printed cluster. */
  lemma {:induction false} KeyCluster(lower: string -> string, es: seq<Entry>, keys: seq<string>, key: string)
    returns (i: nat)
    requires key in keys && |Members(lower, es, key)| > 1
    ensures i < |ClustersOf(lower, es, keys)|
    ensures ClustersOf(lower, es, keys)[i] == Cluster(Members(lower, es, key)[0], Members(lower, es, key)[1..])
  {
    var front, last := keys[..|keys| - 1], keys[|keys| - 1];
    if key == last {
      i := |ClustersOf(lower, es, front)|;
    } else {
      assert key in front;
      i := KeyCluster(lower, es, front, key);
    }
  }

  lemma {:induction false} AloneExactly(lower: string -> string, es: seq<Entry>, some: seq<Entry>, e: Entry)
    ensures e in Alone(lower, es, some) <==> e in some && Members(lower, es, NormKey(lower, e.token)) == [e.token]
  {
    if some != [] {
      AloneExactly(lower, es, some[..|some| - 1], e);
      assert some == some[..|some| - 1] + [some[|some| - 1]];
    }
  }

  /** A token printed in a cluster belongs to a key shared by several tokens. */
  lemma ClusteredTokens(lower: string -> string, es: seq<Entry>, t: string)
    ensures var d, m := DraftOf(lower, es), Members(lower, es, NormKey(lower, t));
      && (IsCanonical(d, t) <==> t in m && |m| > 1 && t == m[0])
      && (IsAlias(d, t) <==> t in m && |m| > 1 && t in m[1..])
  {
    var d, keys, key := DraftOf(lower, es), Keys(lower, es), NormKey(lower, t);
    var m := Members(lower, es, key);
    if IsAlias(d, t) {
      var i :| 0 <= i < |d.clusters| && t in d.clusters[i].aliases;
      var k := ClusterKey(lower, es, keys, i);
      MembersExactly(lower, es, k, t);
    }
    if IsCanonical(d, t) {
      var i :| 0 <= i < |d.clusters| && t == d.clusters[i].canonical;
      var k := ClusterKey(lower, es, keys, i);
      MembersExactly(lower, es, k, t);
    }
    KeysHaveMembers(lower, es, key);
    if |m| > 1 { var i := KeyCluster(lower, es, keys, key); }
  }

  /** Every eligible token is printed in exactly one role, and no other token is printed. */
  lemma ExactlyOneRole(lower: string -> string, es: seq<Entry>, counts: map<string, int>, minCount: int, t: string)
    requires Lists(es, counts, minCount)
    ensures var d := DraftOf(lower, es);
      && (Eligible(counts, minCount, t) <==> IsAlias(d, t) || IsCanonical(d, t) || InFrequencyList(d, t))
      && !(IsAlias(d, t) && IsCanonical(d, t)) && !(IsAlias(d, t) && InFrequencyList(d, t))
      && !(IsCanonical(d, t) && InFrequencyList(d, t))
  {
    var key := NormKey(lower, t);
    ClusteredTokens(lower, es, t);
    ListedTokens(lower, es, t);
    MembersExactly(lower, es, key, t);
    MembersOrdered(lower, es, counts, minCount, key);
    if Eligible(counts, minCount, t) { assert Entry(t, counts[t]) in es; }
    OneOfThree(Members(lower, es, key), t);
  }

  /** A token of a list without repetition is the only one, the first of several, or a later one. */
  lemma OneOfThree(m: seq<string>, t: string)
    requires Distinct(m)
    ensures t in m <==> m == [t] || (|m| > 1 && t == m[0]) || (|m| > 1 && t in m[1..])
    ensures |m| > 1 ==> m[0] !in m[1..]
  {}

  /** A token of the frequency list is the only one of its key. */
  lemma ListedTokens(lower: string -> string, es: seq<Entry>, t: string)
    ensures InFrequencyList(DraftOf(lower, es), t) <==> Members(lower, es, NormKey(lower, t)) == [t]
  {
    var d := DraftOf(lower, es);
    if InFrequencyList(d, t) {
      var i :| 0 <= i < |d.frequency| && t == d.frequency[i].token;
      AloneExactly(lower, es, es, d.frequency[i]);
    }
    if Members(lower, es, NormKey(lower, t)) == [t] {
      MembersExactly(lower, es, NormKey(lower, t), t);
      var j :| 0 <= j < |es| && es[j].token == t;
      AloneExactly(lower, es, es, es[j]);
      var i :| 0 <= i < |d.frequency| && d.frequency[i] == es[j];
    }
  }

  lemma {:induction false} KeysDistinct(lower: string -> string, es: seq<Entry>)
    ensures Distinct(Keys(lower, es))
  {
    if es != [] { KeysDistinct(lower, es[..|es| - 1]); }
  }

  lemma {:induction false} ClustersDisjoint(
    lower: string -> string, es: seq<Entry>, keys: seq<string>, i: nat, j: nat, t: string)
    requires Distinct(keys) && i < j < |ClustersOf(lower, es, keys)|
    requires t in TokensOf(ClustersOf(lower, es, keys)[i])
    ensures t !in TokensOf(ClustersOf(lower, es, keys)[j])
  {
    var front, last := keys[..|keys| - 1], keys[|keys| - 1];
    var before := ClustersOf(lower, es, front);
    if j < |before| {
      ClustersDisjoint(lower, es, front, i, j, t);
    } else {
      var k := ClusterKey(lower, es, front, i);
      assert TokensOf(before[i]) == Members(lower, es, k);
      assert TokensOf(ClustersOf(lower, es, keys)[j]) == Members(lower, es, last);
      MembersExactly(lower, es, k, t);
      MembersExactly(lower, es, last, t);
      var n :| 0 <= n < |front| && front[n] == k;
      assert keys[n] != last;
    }
  }

  lemma {:induction false} AloneDistinct(lower: string -> string, es: seq<Entry>, some: seq<Entry>)
    requires Distinct(some)
    ensures Distinct(Alone(lower, es, some))
  {
    if some != [] {
      var front, last := some[..|some| - 1], some[|some| - 1];
      AloneDistinct(lower, es, front);
      AloneExactly(lower, es, front, last);
    }
  }

  /** And in that role it is printed once. */
  lemma PrintedOnce(lower: string -> string, es: seq<Entry>, counts: map<string, int>, minCount: int)
    requires Lists(es, counts, minCount)
    ensures var d := DraftOf(lower, es);
      && (forall i :: 0 <= i < |d.clusters| ==> Distinct(TokensOf(d.clusters[i])))
      && (forall i, j, t :: 0 <= i < j < |d.clusters| && t in TokensOf(d.clusters[i]) ==> t !in TokensOf(d.clusters[j]))
      && Distinct(d.frequency)
  {
    var d, keys := DraftOf(lower, es), Keys(lower, es);
    KeysDistinct(lower, es);
    AloneDistinct(lower, es, es);
    forall i | 0 <= i < |d.clusters| ensures Distinct(TokensOf(d.clusters[i])) {
      var key := ClusterTokens(lower, es, i);
      MembersOrdered(lower, es, counts, minCount, key);
    }
    forall i, j, t | 0 <= i < j < |d.clusters| && t in TokensOf(d.clusters[i]) ensures t !in TokensOf(d.clusters[j]) {
      ClustersDisjoint(lower, es, keys, i, j, t);
    }
  }

  /** Two eligible tokens are in the same printed cluster, or are the same token, exactly when their lower-case forms
      have the same letters. */
  lemma SameClusterIffSameKey(
    lower: string -> string, es: seq<Entry>, counts: map<string, int>, minCount: int, t: string, u: string)
    requires Lists(es, counts, minCount) && Eligible(counts, minCount, t) && Eligible(counts, minCount, u)
    ensures Letters(lower(t)) == Letters(lower(u)) <==>
              t == u || exists i :: 0 <= i < |DraftOf(lower, es).clusters|
                          && t in TokensOf(DraftOf(lower, es).clusters[i])
                          && u in TokensOf(DraftOf(lower, es).clusters[i])
  {
    var d := DraftOf(lower, es);
    KeyIsLetters(lower, t);
    KeyIsLetters(lower, u);
    assert Entry(t, counts[t]) in es && Entry(u, counts[u]) in es;
    if NormKey(lower, t) == NormKey(lower, u) && t != u {
      var i := SharedCluster(lower, es, t, u);
    }
    if exists i :: 0 <= i < |d.clusters| && t in TokensOf(d.clusters[i]) && u in TokensOf(d.clusters[i]) {
      var i :| 0 <= i < |d.clusters| && t in TokensOf(d.clusters[i]) && u in TokensOf(d.clusters[i]);
      var k := ClusterTokens(lower, es, i);
      MembersExactly(lower, es, k, t);
      MembersExactly(lower, es, k, u);
    }
  }

  lemma SharedCluster(lower: string -> string, es: seq<Entry>, t: string, u: string) returns (i: nat)
    requires NormKey(lower, t) == NormKey(lower, u) && t != u
    requires (exists n :: 0 <= n < |es| && es[n].token == t) && (exists n :: 0 <= n < |es| && es[n].token == u)
    ensures i < |DraftOf(lower, es).clusters|
    ensures t in TokensOf(DraftOf(lower, es).clusters[i]) && u in TokensOf(DraftOf(lower, es).clusters[i])
  {
    var key := NormKey(lower, t);
    var m := Members(lower, es, key);
    MembersExactly(lower, es, key, t);
    MembersExactly(lower, es, key, u);
    KeysHaveMembers(lower, es, key);
    i := KeyCluster(lower, es, Keys(lower, es), key);
    assert TokensOf(DraftOf(lower, es).clusters[i]) == m;
  }

  // ----- The order of what is printed -----

  /** A cluster's tokens are printed most frequent first, the canonical form in front, and equal counts by token. */
  lemma ClusterOrdered(lower: string -> string, es: seq<Entry>, counts: map<string, int>, minCount: int,
                       k: nat, i: nat, j: nat)
    requires Lists(es, counts, minCount) && k < |DraftOf(lower, es).clusters|
    requires i < j < |TokensOf(DraftOf(lower, es).clusters[k])|
    ensures var tokens := TokensOf(DraftOf(lower, es).clusters[k]); Precedes(counts, minCount, tokens[i], tokens[j])
  {
    var key := ClusterTokens(lower, es, k);
    MembersOrdered(lower, es, counts, minCount, key);
  }

  /** Where a key's first member stands in the listing. */
  lemma {:induction false} FirstMemberAt(lower: string -> string, es: seq<Entry>, key: string) returns (at: nat)
    requires Members(lower, es, key) != []
    ensures at < |es| && es[at].token == Members(lower, es, key)[0] && NormKey(lower, es[at].token) == key
    ensures forall i :: 0 <= i < at ==> NormKey(lower, es[i].token) != key
  {
    var front := es[..|es| - 1];
    if Members(lower, front, key) != [] {
      at := FirstMemberAt(lower, front, key);
    } else {
      at := |es| - 1;
      forall i | 0 <= i < at ensures NormKey(lower, es[i].token) != key {
        if NormKey(lower, es[i].token) == key {
          assert front[i] == es[i];
          MembersExactly(lower, front, key, es[i].token);
        }
      }
    }
  }

  /** The keys are listed in the order in which their first members are. */
  lemma {:induction false} KeysInOrder(lower: string -> string, es: seq<Entry>, i: nat, j: nat) returns (a: nat, b: nat)
    requires i < j < |Keys(lower, es)|
    ensures a < b < |es| && Members(lower, es, Keys(lower, es)[i]) != [] && Members(lower, es, Keys(lower, es)[j]) != []
    ensures es[a].token == Members(lower, es, Keys(lower, es)[i])[0]
    ensures es[b].token == Members(lower, es, Keys(lower, es)[j])[0]
  {
    var front, key := es[..|es| - 1], NormKey(lower, es[|es| - 1].token);
    var before := Keys(lower, front);
    if j < |before| {
      a, b := KeysInOrder(lower, front, i, j);
    } else {
      KeysHaveMembers(lower, front, before[i]);
      KeysHaveMembers(lower, front, key);
      a := FirstMemberAt(lower, front, before[i]);
      b := |es| - 1;
    }
  }

  /** The clusters are printed by their canonical forms, most frequent first and equal counts by token. */
  lemma ClustersOrdered(lower: string -> string, es: seq<Entry>, counts: map<string, int>, minCount: int,
                        i: nat, j: nat)
    requires Lists(es, counts, minCount) && i < j < |DraftOf(lower, es).clusters|
    ensures var clusters := DraftOf(lower, es).clusters;
      Precedes(counts, minCount, clusters[i].canonical, clusters[j].canonical)
  {
    var m, n := ClusterPlaces(lower, es, Keys(lower, es), i, j);
    var a, b := KeysInOrder(lower, es, m, n);
    assert es[a] in es && es[b] in es && ListedBefore(es[a], es[b]);
  }

  lemma {:induction false} ClusterPlaces(lower: string -> string, es: seq<Entry>, keys: seq<string>, i: nat, j: nat)
    returns (m: nat, n: nat)
    requires i < j < |ClustersOf(lower, es, keys)|
    ensures m < n < |keys| && |Members(lower, es, keys[m])| > 1 && |Members(lower, es, keys[n])| > 1
    ensures ClustersOf(lower, es, keys)[i].canonical == Members(lower, es, keys[m])[0]
    ensures ClustersOf(lower, es, keys)[j].canonical == Members(lower, es, keys[n])[0]
  {
    var front := keys[..|keys| - 1];
    var before := ClustersOf(lower, es, front);
    if j < |before| {
      m, n := ClusterPlaces(lower, es, front, i, j);
    } else {
      var key := ClusterKey(lower, es, front, i);
      m :| 0 <= m < |front| && front[m] == key;
      n := |keys| - 1;
    }
  }

  /** Where two entries of the frequency list stand in the listing. */
  lemma {:induction false} AlonePlaces(lower: string -> string, es: seq<Entry>, some: seq<Entry>, i: nat, j: nat)
    returns (m: nat, n: nat)
    requires i <= j < |Alone(lower, es, some)|
    ensures m <= n < |some| && (i < j ==> m < n)
    ensures some[m] == Alone(lower, es, some)[i] && some[n] == Alone(lower, es, some)[j]
  {
    var front := some[..|some| - 1];
    var before := Alone(lower, es, front);
    if j < |before| {
      m, n := AlonePlaces(lower, es, front, i, j);
    } else {
      n := |some| - 1;
      m := n;
      if i < |before| {
        var k, _ := AlonePlaces(lower, es, front, i, i);
        m := k;
      }
    }
  }

  /** The frequency list keeps the listing order, with each token's own count. */
  lemma FrequencyOrdered(lower: string -> string, es: seq<Entry>, counts: map<string, int>, minCount: int,
                         i: nat, j: nat)
    requires Lists(es, counts, minCount) && i < j < |DraftOf(lower, es).frequency|
    ensures var list := DraftOf(lower, es).frequency;
      && Precedes(counts, minCount, list[i].token, list[j].token)
      && list[i].count == counts[list[i].token] && list[j].count == counts[list[j].token]
  {
    var m, n := AlonePlaces(lower, es, es, i, j);
    assert es[m] in es && es[n] in es && ListedBefore(es[m], es[n]);
  }
}

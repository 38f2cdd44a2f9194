/** The Solana reader's intersections: signature lists and program accounts are
    accepted by counting how often an entry occurs. */
module Intersection {
  import opened Quorum

  ghost function Occ<S>(l: seq<S>, s: S): nat {
    multiset(l)[s]
  }

  function Elements<S(==)>(l: seq<S>): set<S> {
    set s | s in l
  }

  ghost predicate NoDup<S>(l: seq<S>) {
    forall i, j :: 0 <= i < j < |l| ==> l[i] != l[j]
  }

  /** An insertion-ordered map of counts. */
  datatype IndexMap<S> = IndexMap(keys: seq<S>, counts: map<S, nat>)

  /** The entries of l in the order of their first occurrences. */
  ghost function Firsts<S>(l: seq<S>): seq<S> {
    if l == [] then [] else
      var below := Firsts(l[..|l| - 1]);
      if l[|l| - 1] in l[..|l| - 1] then below else below + [l[|l| - 1]]
  }

  /** Those that occur n times. */
  ghost function WithCount<S>(keys: seq<S>, l: seq<S>, n: nat): seq<S> {
    if keys == [] then []
    else if Occ(l, keys[0]) == n then [keys[0]] + WithCount(keys[1..], l, n)
    else WithCount(keys[1..], l, n)
  }

  /** The map after counting l. */
  ghost predicate Counts<S(!new)>(m: IndexMap<S>, l: seq<S>) {
    && m.keys == Firsts(l)
    && (forall s :: s in m.counts <==> s in l)
    && (forall s :: s in m.counts ==> m.counts[s] == Occ(l, s))
  }

  lemma OneMoreOcc<S(!new)>(l: seq<S>, s: S)
    ensures forall x :: Occ(l + [s], x) == Occ(l, x) + if x == s then 1 else 0
    ensures s !in l ==> Occ(l, s) == 0
  {}

  method Bump<S(==, !new)>(m: IndexMap<S>, ghost l: seq<S>, s: S) returns (r: IndexMap<S>)
    requires Counts(m, l)
    ensures Counts(r, l + [s])
  {
    hide Occ;
    assert (l + [s])[..|l|] == l;
    OneMoreOcc(l, s);
    r := if s in m.counts then IndexMap(m.keys, m.counts[s := m.counts[s] + 1])
      else IndexMap(m.keys + [s], m.counts[s := 1]);
  }

  method KeysWithCount<S(==, !new)>(m: IndexMap<S>, ghost l: seq<S>, n: nat) returns (r: seq<S>)
    requires Counts(m, l)
    ensures r == WithCount(Firsts(l), l, n)
  {
    FirstsOccur(l);
    r := [];
    var i := |m.keys|;
    assert m.keys[i..] == [];
    while i > 0
      invariant 0 <= i <= |m.keys| && r == WithCount(m.keys[i..], l, n)
    {
      i := i - 1;
      assert m.keys[i..] == [m.keys[i]] + m.keys[i + 1..];
      assert m.keys[i] in m.keys;
      if m.counts[m.keys[i]] == n {
        r := [m.keys[i]] + r;
      }
    }
    assert m.keys[0..] == m.keys;
  }

  lemma {:induction false} FirstsOccur<S(!new)>(l: seq<S>)
    ensures forall s :: s in Firsts(l) <==> s in l
    ensures NoDup(Firsts(l))
  {
    if l != [] {
      FirstsOccur(l[..|l| - 1]);
      assert l == l[..|l| - 1] + [l[|l| - 1]];
    }
  }

  lemma {:induction false} WithCountMeans<S(!new)>(keys: seq<S>, l: seq<S>, n: nat)
    ensures forall s :: s in WithCount(keys, l, n) <==> s in keys && Occ(l, s) == n
    ensures NoDup(keys) ==> NoDup(WithCount(keys, l, n))
  {
    if keys != [] {
      WithCountMeans(keys[1..], l, n);
      assert keys == [keys[0]] + keys[1..];
    }
  }

  // ---------- the providers' lists ----------

  /** How often an entry occurs in all lists together. */
  ghost function TotalOcc<S>(lists: map<string, seq<S>>, s: S): nat {
    Total(map k | k in lists :: Occ(lists[k], s))
  }

  lemma TotalOccWithout<S>(lists: map<string, seq<S>>, s: S, k: string)
    requires k in lists
    ensures TotalOcc(lists, s) == Occ(lists[k], s) + TotalOcc(lists - {k}, s)
  {
    var counts := map j | j in lists :: Occ(lists[j], s);
    TotalWithout(counts, k);
    assert counts - {k} == map j | j in lists - {k} :: Occ((lists - {k})[j], s);
  }

  lemma OccConcat<S>(a: seq<S>, b: seq<S>, s: S)
    ensures Occ(a + b, s) == Occ(a, s) + Occ(b, s)
  {}

  lemma NothingCounted<S(!new)>()
    ensures Counts(IndexMap<S>.IndexMap([], map[]), [])
    ensures forall s: S :: Occ([], s) == 0
  {}

  /** For any lists and any iteration order: each entry at most once, and exactly
      those that occur as often as there are lists. */
  method DealLists<S(==, !new)>(lists: map<string, seq<S>>) returns (r: seq<S>)
    ensures NoDup(r)
    ensures forall s :: s in r <==> TotalOcc(lists, s) == |lists| && lists != map[]
  {
    hide Occ, Counts, Firsts, TotalOcc;
    var seen: IndexMap<S> := IndexMap([], map[]);
    NothingCounted<S>();
    var rest := lists;
    ghost var flat: seq<S> := [];
    while rest != map[]
      invariant rest.Keys <= lists.Keys && forall k :: k in rest ==> rest[k] == lists[k]
      invariant Counts(seen, flat)
      invariant forall s :: Occ(flat, s) + TotalOcc(rest, s) == TotalOcc(lists, s)
      decreases |rest|
    {
      var from :| from in rest;
      ghost var before := flat;
      seen := BumpAll(seen, flat, rest[from]);
      flat := flat + rest[from];
      forall s
        ensures Occ(flat, s) + TotalOcc(rest - {from}, s) == TotalOcc(lists, s)
      {
        TotalOccWithout(rest, s, from);
        OccConcat(before, rest[from], s);
      }
      rest := rest - {from};
    }
    r := KeysWithCount(seen, flat, |lists|);
    FirstsOccur(flat);
    WithCountMeans(Firsts(flat), flat, |lists|);
    forall s
      ensures s in r <==> TotalOcc(lists, s) == |lists| && lists != map[]
    {
      OccMeans(flat, s);
      NothingTotal(s);
    }
  }

  lemma NothingTotal<S>(s: S)
    ensures TotalOcc(map[], s) == 0
  {}

  method BumpAll<S(==, !new)>(m: IndexMap<S>, ghost l: seq<S>, more: seq<S>) returns (r: IndexMap<S>)
    requires Counts(m, l)
    ensures Counts(r, l + more)
  {
    hide Counts;
    r := m;
    assert l + more[..0] == l;
    for i := 0 to |more|
      invariant Counts(r, l + more[..i])
    {
      r := Bump(r, l + more[..i], more[i]);
      assert l + more[..i + 1] == l + more[..i] + [more[i]];
    }
    assert more[..|more|] == more;
  }

  ghost predicate InAll<S>(lists: map<string, seq<S>>, s: S) {
    forall k :: k in lists ==> s in lists[k]
  }

  lemma OccMeans<S>(l: seq<S>, s: S)
    ensures Occ(l, s) > 0 <==> s in l
    ensures NoDup(l) ==> Occ(l, s) <= 1
  {
    if NoDup(l) {
      NoDupOcc(l, s);
    }
  }

  lemma {:induction false} NoDupOcc<S>(l: seq<S>, s: S)
    requires NoDup(l)
    ensures Occ(l, s) <= 1
  {
    if l != [] {
      var n := |l| - 1;
      assert l == l[..n] + [l[n]];
      NoDupOcc(l[..n], s);
    }
  }

  /** The providers that do not have an entry. */
  ghost function Lacking<S>(lists: map<string, seq<S>>, s: S): set<string> {
    set k | k in lists && s !in lists[k]
  }

  ghost function Repeats<S>(l: seq<S>, s: S): nat {
    if Occ(l, s) > 1 then Occ(l, s) - 1 else 0
  }

  /** How often an entry is repeated: its occurrences beyond the first of each list. */
  ghost function Surplus<S>(lists: map<string, seq<S>>, s: S): nat {
    Total(map k | k in lists :: Repeats(lists[k], s))
  }

  lemma SurplusWithout<S>(lists: map<string, seq<S>>, s: S, k: string)
    requires k in lists
    ensures Surplus(lists, s) == Repeats(lists[k], s) + Surplus(lists - {k}, s)
  {
    var counts := map j | j in lists :: Repeats(lists[j], s);
    TotalWithout(counts, k);
    assert counts - {k} == map j | j in lists - {k} :: Repeats((lists - {k})[j], s);
  }

  lemma LackingWithout<S>(lists: map<string, seq<S>>, s: S, k: string)
    requires k in lists
    ensures |Lacking(lists, s)| == |Lacking(lists - {k}, s)| + if s in lists[k] then 0 else 1
  {
    assert Lacking(lists, s) ==
      if s in lists[k] then Lacking(lists - {k}, s) else Lacking(lists - {k}, s) + {k};
  }

  lemma NothingBalances<S>(s: S)
    ensures TotalOcc(map[], s) == Surplus(map[], s) == |Lacking<S>(map[], s)| == 0
  {}

  /** Every repetition makes up for one provider that lacks the entry. */
  lemma {:induction false} CountBalance<S>(lists: map<string, seq<S>>, s: S)
    ensures TotalOcc(lists, s) + |Lacking(lists, s)| == |lists| + Surplus(lists, s)
    decreases |lists|
  {
    hide TotalOcc, Surplus, Lacking, Occ;
    if lists == map[] {
      NothingBalances(s);
    } else {
      var k :| k in lists;
      TotalOccWithout(lists, s, k);
      SurplusWithout(lists, s, k);
      LackingWithout(lists, s, k);
      CountBalance(lists - {k}, s);
      OccMeans(lists[k], s);
      assert |lists - {k}| == |lists| - 1;
    }
  }

  lemma InAllMeans<S>(lists: map<string, seq<S>>, s: S)
    ensures InAll(lists, s) <==> |Lacking(lists, s)| == 0
  {
    if InAll(lists, s) {
      assert Lacking(lists, s) == {};
    }
    if |Lacking(lists, s)| == 0 {
      forall k | k in lists
        ensures s in lists[k]
      {
        assert k !in Lacking(lists, s);
      }
    }
  }

  /** Counting is right about an entry: it never errs if nobody repeats it, and
      else unless nobody lacks it or exactly as many providers lack it as there
      are repetitions. */
  ghost predicate CountsRight<S>(lists: map<string, seq<S>>, s: S) {
    Surplus(lists, s) == 0 || |Lacking(lists, s)| !in {0, Surplus(lists, s)}
  }

  /** Exactly when an entry occurs as often as there are providers iff all of
      them have it. */
  lemma CountingIsExact<S>(lists: map<string, seq<S>>, s: S)
    ensures (TotalOcc(lists, s) == |lists| <==> InAll(lists, s)) <==> CountsRight(lists, s)
  {
    CountBalance(lists, s);
    InAllMeans(lists, s);
  }

  /** When no list repeats an entry, counting finds the intersection. */
  lemma CountingIsIntersection<S>(lists: map<string, seq<S>>, s: S)
    requires forall k :: k in lists ==> NoDup(lists[k])
    ensures TotalOcc(lists, s) <= |lists|
    ensures TotalOcc(lists, s) == |lists| <==> InAll(lists, s)
  {
    forall k | k in lists
      ensures Occ(lists[k], s) <= 1
    {
      OccMeans(lists[k], s);
    }
    NoSurplus(lists, s);
    CountBalance(lists, s);
    InAllMeans(lists, s);
  }

  lemma {:induction false} NoSurplus<S>(lists: map<string, seq<S>>, s: S)
    requires forall k :: k in lists ==> Occ(lists[k], s) <= 1
    ensures Surplus(lists, s) == 0
    decreases |lists|
  {
    if lists != map[] {
      var k :| k in lists;
      SurplusWithout(lists, s, k);
      NoSurplus(lists - {k}, s);
    }
  }

  /** Of two providers one repeats an entry: it passes although the other lacks
      it, and it is dropped although the other has it. */
  lemma RepeatedEntryMisleads<S>(s: S)
    ensures var lists := map["a" := [s, s], "b" := []];
      TotalOcc(lists, s) == |lists| && !InAll(lists, s)
    ensures var lists := map["a" := [s, s], "b" := [s]];
      TotalOcc(lists, s) != |lists| && InAll(lists, s)
  {
    TwoProviders([s, s], [], s);
    TwoProviders([s, s], [s], s);
    var lists: map<string, seq<S>> := map["a" := [s, s], "b" := []];
    assert "b" in lists && s !in lists["b"];
  }

  lemma TwoProviders<S>(a: seq<S>, b: seq<S>, s: S)
    ensures TotalOcc(map["a" := a, "b" := b], s) == Occ(a, s) + Occ(b, s)
  {
    var lists := map["a" := a, "b" := b];
    TotalOccWithout(lists, s, "a");
    assert lists - {"a"} == map["b" := b];
    TotalOccWithout(lists - {"a"}, s, "b");
    assert lists - {"a"} - {"b"} == map[];
  }

  // ---------- the judge's list ----------

  /** The subsequence of l that lies in good. */
  function Keep<S(==)>(l: seq<S>, good: set<S>): seq<S> {
    if l == [] then []
    else if l[0] in good then [l[0]] + Keep(l[1..], good)
    else Keep(l[1..], good)
  }

  /** Counts the judge's entries and then the providers', and keeps what was
      counted twice, in the order of first occurrence. */
  method CountedTwice<S(==, !new)>(l: seq<S>) returns (r: seq<S>)
    ensures r == WithCount(Firsts(l), l, 2)
  {
    NothingCounted<S>();
    var m := BumpAll(IndexMap([], map[]), [], l);
    assert [] + l == l;
    r := KeysWithCount(m, l, 2);
  }

  /** What is counted twice lies in the judge's list and comes in the order in
      which it first occurs there. */
  lemma TwiceInJudgeOrder<S(!new)>(judge: seq<S>, extra: seq<S>, good: set<S>)
    requires NoDup(extra)
    requires forall s :: s in judge ==> (Occ(judge + extra, s) == 2 <==> s in good)
    ensures WithCount(Firsts(judge + extra), judge + extra, 2) == Keep(Firsts(judge), good)
  {
    var l, other := judge + extra, Keep(extra, Elements(extra) - Elements(judge));
    FirstsConcat(judge, extra, |extra|);
    assert extra[..|extra|] == extra;
    WithCountConcat(Firsts(judge), other, l, 2);
    FirstsOccur(judge);
    CountIsKeep(Firsts(judge), l, good);
    KeepMeans(extra, Elements(extra) - Elements(judge));
    forall s | s in other
      ensures Occ(l, s) != 2
    {
      OccConcat(judge, extra, s);
      OccMeans(judge, s);
      OccMeans(extra, s);
    }
    NoneCounted(other, l, 2);
  }

  /** The accepted entries come once each, in the order in which the judge first
      has them. */
  lemma KeptInOrder<S(!new)>(l: seq<S>, good: set<S>)
    ensures var kept := Keep(Firsts(l), good);
      && NoDup(kept)
      && (forall s :: s in kept <==> s in l && s in good)
      && forall i, j :: 0 <= i < j < |kept| ==> HasBefore(l, kept[i], kept[j])
  {
    FirstsOccur(l);
    FirstsInOrder(l);
    KeepMeans(Firsts(l), good);
    KeepIsSubsequence(Firsts(l), good);
    var firsts, kept := Firsts(l), Keep(Firsts(l), good);
    forall i, j | 0 <= i < j < |kept|
      ensures kept[i] != kept[j] && HasBefore(l, kept[i], kept[j])
    {
      assert Before(firsts, kept[i], kept[j]);
      var p, q :| 0 <= p < q < |firsts| && firsts[p] == kept[i] && firsts[q] == kept[j];
      assert HasBefore(l, firsts[p], firsts[q]);
    }
  }

  /** l has a somewhere, and b not before that. */
  ghost predicate HasBefore<S>(l: seq<S>, a: S, b: S) {
    exists p :: 0 <= p < |l| && l[p] == a && forall q :: 0 <= q <= p ==> l[q] != b
  }

  lemma {:induction false} FirstsInOrder<S(!new)>(l: seq<S>)
    ensures forall i, j :: 0 <= i < j < |Firsts(l)| ==> HasBefore(l, Firsts(l)[i], Firsts(l)[j])
  {
    if l != [] {
      var n := |l| - 1;
      var below := Firsts(l[..n]);
      FirstsInOrder(l[..n]);
      FirstsOccur(l[..n]);
      forall i, j | 0 <= i < j < |Firsts(l)|
        ensures HasBefore(l, Firsts(l)[i], Firsts(l)[j])
      {
        if j < |below| {
          assert HasBefore(l[..n], below[i], below[j]);
          var p :| 0 <= p < n && l[..n][p] == below[i] && forall q :: 0 <= q <= p ==> l[..n][q] != below[j];
          assert l[p] == below[i] && forall q :: 0 <= q <= p ==> l[q] == l[..n][q];
        } else {
          assert below[i] in l[..n];
          var p :| 0 <= p < n && l[..n][p] == below[i];
          assert l[p] == below[i] && forall q :: 0 <= q <= p ==> l[q] == l[..n][q];
        }
      }
    }
  }

  ghost predicate Before<S>(l: seq<S>, a: S, b: S) {
    exists p, q :: 0 <= p < q < |l| && l[p] == a && l[q] == b
  }

  lemma {:induction false} KeepIsSubsequence<S(!new)>(l: seq<S>, good: set<S>)
    ensures forall i, j :: 0 <= i < j < |Keep(l, good)| ==> Before(l, Keep(l, good)[i], Keep(l, good)[j])
  {
    if l != [] {
      var rest, d := Keep(l[1..], good), if l[0] in good then 1 else 0;
      KeepIsSubsequence(l[1..], good);
      KeepMeans(l[1..], good);
      forall i, j | 0 <= i < j < |Keep(l, good)|
        ensures Before(l, Keep(l, good)[i], Keep(l, good)[j])
      {
        if i >= d {
          assert Before(l[1..], rest[i - d], rest[j - d]);
          var p, q :| 0 <= p < q < |l[1..]| && l[1..][p] == rest[i - d] && l[1..][q] == rest[j - d];
          assert l[p + 1] == rest[i - d] && l[q + 1] == rest[j - d];
        } else {
          assert rest[j - 1] in rest;
          var q :| 0 <= q < |l[1..]| && l[1..][q] == rest[j - 1];
          assert l[0] == Keep(l, good)[0] && l[q + 1] == rest[j - 1];
        }
      }
    }
  }

  lemma {:induction false} FirstsOfNoDup<S(!new)>(l: seq<S>)
    requires NoDup(l)
    ensures Firsts(l) == l
  {
    if l != [] {
      FirstsOfNoDup(l[..|l| - 1]);
      assert l == l[..|l| - 1] + [l[|l| - 1]];
    }
  }

  lemma {:induction false} FirstsConcat<S(!new)>(a: seq<S>, b: seq<S>, n: nat)
    requires NoDup(b) && n <= |b|
    ensures Firsts(a + b[..n]) == Firsts(a) + Keep(b[..n], Elements(b) - Elements(a))
  {
    hide Keep, Occ;
    var other := Elements(b) - Elements(a);
    if n == 0 {
      KeepNothing(b[..0], other);
      assert a + b[..0] == a;
    } else {
      FirstsConcat(a, b, n - 1);
      var l := a + b[..n];
      assert l[..|l| - 1] == a + b[..n - 1];
      assert b[..n] == b[..n - 1] + [b[n - 1]];
      KeepConcat(b[..n - 1], [b[n - 1]], other);
      KeepOne(b[n - 1], other);
      assert b[n - 1] !in b[..n - 1];
      assert Firsts(a) + (Keep(b[..n - 1], other) + [b[n - 1]]) == Firsts(a) + Keep(b[..n - 1], other) + [b[n - 1]];
    }
  }

  lemma KeepNothing<S>(l: seq<S>, good: set<S>)
    requires l == []
    ensures Keep(l, good) == []
  {}

  lemma KeepOne<S>(s: S, good: set<S>)
    ensures Keep([s], good) == if s in good then [s] else []
  {}

  lemma {:induction false} KeepConcat<S>(a: seq<S>, b: seq<S>, good: set<S>)
    ensures Keep(a + b, good) == Keep(a, good) + Keep(b, good)
  {
    if a == [] {
      assert a + b == b;
    } else {
      KeepConcat(a[1..], b, good);
      assert (a + b)[1..] == a[1..] + b;
    }
  }

  lemma {:induction false} KeepMeans<S>(l: seq<S>, good: set<S>)
    ensures forall s :: s in Keep(l, good) <==> s in l && s in good
  {
    if l != [] {
      KeepMeans(l[1..], good);
      assert l == [l[0]] + l[1..];
    }
  }

  lemma {:induction false} WithCountConcat<S>(a: seq<S>, b: seq<S>, l: seq<S>, n: nat)
    ensures WithCount(a + b, l, n) == WithCount(a, l, n) + WithCount(b, l, n)
  {
    hide Occ;
    if a == [] {
      assert a + b == b;
    } else {
      WithCountConcat(a[1..], b, l, n);
      assert (a + b)[1..] == a[1..] + b;
    }
  }

  lemma {:induction false} CountIsKeep<S(!new)>(keys: seq<S>, l: seq<S>, good: set<S>)
    requires forall s :: s in keys ==> (Occ(l, s) == 2 <==> s in good)
    ensures WithCount(keys, l, 2) == Keep(keys, good)
  {
    if keys != [] {
      assert keys[0] in keys;
      CountIsKeep(keys[1..], l, good);
    }
  }

  lemma {:induction false} NoneCounted<S>(keys: seq<S>, l: seq<S>, n: nat)
    requires forall s :: s in keys ==> Occ(l, s) != n
    ensures WithCount(keys, l, n) == []
  {
    if keys != [] {
      assert keys[0] in keys;
      NoneCounted(keys[1..], l, n);
    }
  }

  /** The entries that every provider has. */
  ghost function Common<S>(lists: map<string, seq<S>>): set<S>
    requires lists != map[]
  {
    var k :| k in lists;
    set s | s in lists[k] && InAll(lists, s)
  }

  /** For all inputs: what is accepted is counted twice, in the judge's list and
      in the list of entries that occur as often as there are providers. */
  ghost predicate Accepted<S>(judge: seq<S>, lists: map<string, seq<S>>, s: S) {
    Occ(judge, s) + (if TotalOcc(lists, s) == |lists| then 1 else 0) == 2
  }

  ghost function AcceptedSet<S>(judge: seq<S>, lists: map<string, seq<S>>): set<S> {
    set s | s in judge && Accepted(judge, lists, s)
  }

  /** When accepting is right about an entry, by how often the judge has it:
      never wrong if not at all; as good as the counting if once; right only
      where the counting is wrong if twice; and else right only about entries
      that some provider lacks. */
  ghost predicate AcceptsRight<S>(judge: seq<S>, lists: map<string, seq<S>>, s: S) {
    var n := Occ(judge, s);
    if n == 0 then true
    else if n == 1 then CountsRight(lists, s)
    else if n == 2 then !CountsRight(lists, s)
    else |Lacking(lists, s)| > 0
  }

  /** Exactly when an entry is accepted iff the judge and all providers have it. */
  lemma AcceptingIsExact<S>(judge: seq<S>, lists: map<string, seq<S>>, s: S)
    ensures (Accepted(judge, lists, s) <==> s in judge && InAll(lists, s)) <==> AcceptsRight(judge, lists, s)
  {
    OccMeans(judge, s);
    CountingIsExact(lists, s);
    InAllMeans(lists, s);
  }

  /** An entry that the judge has twice passes although no provider has it, and
      is dropped when all of them have it once. */
  lemma RepeatedJudgeEntryMisleads<S>(judge: seq<S>, lists: map<string, seq<S>>, s: S)
    requires lists != map[] && Occ(judge, s) == 2
    ensures |Lacking(lists, s)| == |lists| ==> Accepted(judge, lists, s) && !InAll(lists, s)
    ensures InAll(lists, s) && Surplus(lists, s) == 0 ==> !Accepted(judge, lists, s)
  {
    CountBalance(lists, s);
    InAllMeans(lists, s);
    if |Lacking(lists, s)| == |lists| {
      assert |lists.Keys| == |lists| && lists.Keys == Lacking(lists, s) + (lists.Keys - Lacking(lists, s));
      assert |lists.Keys - Lacking(lists, s)| == 0;
      forall k | k in lists
        ensures Occ(lists[k], s) <= 1
      {
        assert k in Lacking(lists, s);
        OccMeans(lists[k], s);
      }
      NoSurplus(lists, s);
    }
  }

  /** What the providers' lists amount to: the entries that occur as often as
      there are lists, each once. */
  ghost predicate Deals<S(!new)>(lists: map<string, seq<S>>, sigs: seq<S>) {
    NoDup(sigs) && forall s :: s in sigs <==> TotalOcc(lists, s) == |lists|
  }

  /** Counting to two accepts exactly the accepted entries, in the judge's order. */
  lemma TwiceIsAccepted<S(!new)>(judge: seq<S>, extra: seq<S>, lists: map<string, seq<S>>)
    requires Deals(lists, extra)
    ensures WithCount(Firsts(judge + extra), judge + extra, 2) == Keep(Firsts(judge), AcceptedSet(judge, lists))
  {
    forall s | s in judge
      ensures Occ(judge + extra, s) == 2 <==> s in AcceptedSet(judge, lists)
    {
      OccConcat(judge, extra, s);
      OccMeans(extra, s);
    }
    TwiceInJudgeOrder(judge, extra, AcceptedSet(judge, lists));
  }

  /** Without repetitions that is the judge's list, in the judge's order, cut down
      to what every provider has. */
  lemma AcceptedIsCommon<S(!new)>(judge: seq<S>, lists: map<string, seq<S>>)
    requires lists != map[] && NoDup(judge) && forall k :: k in lists ==> NoDup(lists[k])
    ensures Keep(Firsts(judge), AcceptedSet(judge, lists)) == Keep(judge, Common(lists))
  {
    FirstsOfNoDup(judge);
    forall s | s in judge
      ensures s in AcceptedSet(judge, lists) <==> s in Common(lists)
    {
      OccMeans(judge, s);
      CountingIsIntersection(lists, s);
    }
    KeepSame(judge, AcceptedSet(judge, lists), Common(lists));
  }

  lemma {:induction false} KeepSame<S(!new)>(l: seq<S>, a: set<S>, b: set<S>)
    requires forall s :: s in l ==> (s in a <==> s in b)
    ensures Keep(l, a) == Keep(l, b)
  {
    if l != [] {
      assert l[0] in l;
      KeepSame(l[1..], a, b);
    }
  }

  /** The signature list: the judge's newest entry without a check, and then, in
      the judge's order, what is accepted of the others. */
  method GetSignatures<S(==, !new)>(judge: seq<S>, sigs: seq<S>, ghost lists: map<string, seq<S>>)
    returns (r: seq<S>)
    requires judge != [] && Deals(lists, sigs)
    ensures r == [judge[0]] + Keep(Firsts(judge[1..]), AcceptedSet(judge[1..], lists))
    ensures NoDup(r[1..]) && forall s :: s in r[1..] <==> s in judge[1..] && Accepted(judge[1..], lists, s)
    ensures forall i, j :: 1 <= i < j < |r| ==> HasBefore(judge[1..], r[i], r[j])
  {
    var common := CountedTwice(judge[1..] + sigs);
    TwiceIsAccepted(judge[1..], sigs, lists);
    r := [judge[0]] + common;
    KeptInOrder(judge[1..], AcceptedSet(judge[1..], lists));
    assert r[1..] == common;
  }

  /** Program accounts: the same without the exception for the first entry, and
      without an order. */
  method GetProgramAccounts<S(==, !new)>(judge: seq<S>, accounts: seq<S>, ghost lists: map<string, seq<S>>)
    returns (r: set<S>)
    requires Deals(lists, accounts)
    ensures r == AcceptedSet(judge, lists)
  {
    var common := CountedTwice(judge + accounts);
    TwiceIsAccepted(judge, accounts, lists);
    FirstsOccur(judge);
    KeepMeans(Firsts(judge), AcceptedSet(judge, lists));
    r := Elements(common);
  }
}

/** Median time past: the middle of the last eleven timestamps. */
module MedianTime {
  import opened Wrappers
  import opened Chain
  import opened HeaderLists

  const MTP_SPAN: nat := 11

  /** How many elements are below x. */
  function CountBelow(s: seq<int>, x: int): (n: nat)
    ensures n <= |s|
  {
    if s == [] then 0 else CountBelow(s[..|s| - 1], x) + if s[|s| - 1] < x then 1 else 0
  }

  /** x is what stands at position k once s is sorted. */
  ghost predicate IsRank(s: seq<int>, k: nat, x: int) {
    CountBelow(s, x) <= k < CountBelow(s, x + 1)
  }

  lemma {:induction false} CountMonotone(s: seq<int>, x: int, y: int)
    requires x <= y
    ensures CountBelow(s, x) <= CountBelow(s, y)
  {
    if s != [] {
      CountMonotone(s[..|s| - 1], x, y);
    }
  }

  /** Only one value has a rank, and it is one of the elements. */
  lemma RankIsUnique(s: seq<int>, k: nat, x: int, y: int)
    requires IsRank(s, k, x) && IsRank(s, k, y)
    ensures x == y && x in s
  {
    if x < y {
      CountMonotone(s, x + 1, y);
    } else if y < x {
      CountMonotone(s, y + 1, x);
    }
    CountedIsElement(s, x);
  }

  lemma {:induction false} CountedIsElement(s: seq<int>, x: int)
    requires CountBelow(s, x) < CountBelow(s, x + 1)
    ensures x in s
  {
    if s[|s| - 1] != x {
      CountedIsElement(s[..|s| - 1], x);
    }
  }

  lemma {:induction false} CountConcat(a: seq<int>, b: seq<int>, x: int)
    ensures CountBelow(a + b, x) == CountBelow(a, x) + CountBelow(b, x)
    decreases |b|
  {
    if b == [] {
      assert a + b == a;
    } else {
      CountConcat(a, b[..|b| - 1], x);
      assert (a + b)[..|a + b| - 1] == a + b[..|b| - 1];
    }
  }

  ghost predicate Ascending(s: seq<int>) {
    forall i, j :: 0 <= i <= j < |s| ==> s[i] <= s[j]
  }

  /** What stands at position k of a sorted list has rank k. */
  lemma SortedRank(s: seq<int>, k: nat)
    requires Ascending(s) && k < |s|
    ensures IsRank(s, k, s[k])
  {
    assert s == s[..k] + s[k..] && s == s[..k + 1] + s[k + 1..];
    CountConcat(s[..k], s[k..], s[k]);
    CountConcat(s[..k + 1], s[k + 1..], s[k] + 1);
    CountNone(s[k..], s[k]);
    CountAll(s[..k + 1], s[k] + 1);
  }

  lemma {:induction false} CountNone(s: seq<int>, x: int)
    requires forall i :: 0 <= i < |s| ==> s[i] >= x
    ensures CountBelow(s, x) == 0
  {
    if s != [] {
      CountNone(s[..|s| - 1], x);
    }
  }

  lemma {:induction false} CountAll(s: seq<int>, x: int)
    requires forall i :: 0 <= i < |s| ==> s[i] < x
    ensures CountBelow(s, x) == |s|
  {
    if s != [] {
      CountAll(s[..|s| - 1], x);
    }
  }

  method SortUnstable(s: seq<int>) returns (r: seq<int>)
    ensures Ascending(r) && |r| == |s|
    ensures forall x :: CountBelow(r, x) == CountBelow(s, x)
  {
    r := [];
    for i := 0 to |s|
      invariant Ascending(r) && |r| == i
      invariant forall x :: CountBelow(r, x) == CountBelow(s[..i], x)
    {
      var k := 0;
      while k < |r| && r[k] < s[i]
        invariant 0 <= k <= |r| && forall j :: 0 <= j < k ==> r[j] < s[i]
      {
        k := k + 1;
      }
      forall x
        ensures CountBelow(r[..k] + [s[i]] + r[k..], x) == CountBelow(s[..i + 1], x)
      {
        CountInsert(r, k, s[i], x);
        assert s[..i + 1][..i] == s[..i];
      }
      r := r[..k] + [s[i]] + r[k..];
    }
    assert s[..|s|] == s;
  }

  lemma CountInsert(r: seq<int>, k: nat, y: int, x: int)
    requires k <= |r|
    ensures CountBelow(r[..k] + [y] + r[k..], x) == CountBelow(r, x) + if y < x then 1 else 0
  {
    CountConcat(r[..k] + [y], r[k..], x);
    CountConcat(r[..k], [y], x);
    CountConcat(r[..k], r[k..], x);
    assert r == r[..k] + r[k..];
    assert [y][..0] == [] && CountBelow([y], x) == if y < x then 1 else 0;
  }

  /** The timestamps a height's median is taken of: its own and at most ten before. */
  function Window(times: seq<U32>, height: nat): (s: seq<int>)
    requires height < |times|
    ensures 1 <= |s| <= MTP_SPAN
  {
    times[(if height < MTP_SPAN then 0 else height - (MTP_SPAN - 1))..height + 1]
  }

  function Times(es: seq<HeaderEntry>): (ts: seq<U32>)
    ensures |ts| == |es|
  {
    seq(|es|, i requires 0 <= i < |es| => es[i].header.time)
  }

  /** m is the median of the window of a height. */
  ghost predicate IsMtp(times: seq<U32>, height: nat, m: int) {
    height < |times| && IsRank(Window(times, height), |Window(times, height)| / 2, m)
  }

  /** Counting from some place on is the same as taking the set of places. */
  lemma {:induction false} CountIsSet(s: seq<int>, lo: nat, x: int)
    requires lo <= |s|
    ensures CountBelow(s[lo..], x) == |set i | lo <= i < |s| && s[i] < x|
    decreases |s|
  {
    if lo < |s| {
      var n := |s| - 1;
      CountIsSet(s[..n], lo, x);
      assert s[lo..][..n - lo] == s[..n][lo..];
      var below := set i | lo <= i < n && s[..n][i] < x;
      assert (set i | lo <= i < |s| && s[i] < x) == if s[n] < x then below + {n} else below;
    }
  }

  /** It panics on an empty list, gives 0 above the list, and else the median. */
  method GetMtp(list: HeaderList, height: nat) returns (r: Outcome<int>)
    ensures r.Panicked? <==> list.headers == []
    ensures list.headers != [] && height >= |list.headers| ==> r == Returned(0)
    ensures height < |list.headers| ==> r.Returned? && IsMtp(Times(list.headers), height, r.value)
    ensures height < |list.headers| ==>
      var lo := if height < 10 then 0 else height - 10;
      |set i | lo <= i <= height && list.headers[i].header.time < r.value|
        <= (height - lo + 1) / 2
        < |set i | lo <= i <= height && list.headers[i].header.time <= r.value|
  {
    hide CountBelow;
    if list.headers == [] {
      return Panicked;
    }
    if height == 0 {
      SortedRank(Window(Times(list.headers), 0), 0);
      MtpInPlaces(list.headers, height, list.headers[0].header.time);
      return Returned(list.headers[0].header.time);
    }
    if height > |list.headers| - 1 {
      return Returned(0);
    }
    var p := if height < MTP_SPAN - 1 then 0 else height - (MTP_SPAN - 1);
    ghost var start := p;
    var timestamps: seq<int> := [];
    while p <= height
      invariant start <= p <= height + 1
      invariant timestamps == Times(list.headers)[start..p]
    {
      timestamps := timestamps + [list.headers[p].header.time];
      p := p + 1;
    }
    assert timestamps == Window(Times(list.headers), height);
    var sorted := SortUnstable(timestamps);
    SortedRank(sorted, |sorted| / 2);
    MtpInPlaces(list.headers, height, sorted[|sorted| / 2]);
    r := Returned(sorted[|sorted| / 2]);
  }

  /** The median in plain terms: of the last at most eleven times at most half are
      below it, and more than half are not above it. */
  lemma MtpInPlaces(es: seq<HeaderEntry>, height: nat, m: int)
    requires IsMtp(Times(es), height, m)
    ensures var lo := if height < 10 then 0 else height - 10;
      |set i | lo <= i <= height && es[i].header.time < m|
        <= (height - lo + 1) / 2
        < |set i | lo <= i <= height && es[i].header.time <= m|
  {
    var lo := if height < 10 then 0 else height - 10;
    PlacesBelow(es, height, lo, m);
    PlacesBelow(es, height, lo, m + 1);
    assert (set i | lo <= i <= height && es[i].header.time < m + 1)
      == set i | lo <= i <= height && es[i].header.time <= m;
  }

  lemma PlacesBelow(es: seq<HeaderEntry>, height: nat, lo: nat, x: int)
    requires lo <= height < |es|
    ensures CountBelow(Times(es)[lo..height + 1], x) == |set i | lo <= i <= height && es[i].header.time < x|
  {
    hide CountBelow;
    var times: seq<int> := Times(es)[..height + 1];
    assert Times(es)[lo..height + 1] == times[lo..];
    CountIsSet(times, lo, x);
    assert forall i :: 0 <= i <= height ==> times[i] == es[i].header.time;
    assert (set i | lo <= i < |times| && times[i] < x) == set i | lo <= i <= height && es[i].header.time < x;
  }

  /** Every header is later than the median of its predecessor. */
  ghost predicate Timely(times: seq<U32>) {
    forall h: nat, m: int :: IsMtp(times, h, m) && h + 1 < |times| ==> m < times[h + 1]
  }

  /** Then the median never goes down from one height to the next, also while the
      window is still growing. */
  lemma MtpStep(times: seq<U32>, h: nat, m: int, m': int)
    requires IsMtp(times, h, m) && IsMtp(times, h + 1, m') && m < times[h + 1]
    ensures m <= m'
  {
    var before, after := Window(times, h), Window(times, h + 1);
    var kept := if h + 1 < MTP_SPAN then before else before[1..];
    assert after == kept + [times[h + 1]];
    assert after[..|after| - 1] == kept;
    if h + 1 >= MTP_SPAN {
      assert before == before[..1] + before[1..];
      CountConcat(before[..1], before[1..], m);
    }
    assert CountBelow(after, m) <= CountBelow(before, m);
    if m' < m {
      CountMonotone(after, m' + 1, m);
    }
  }

  lemma {:induction false} MtpExists(s: seq<int>, k: nat) returns (x: int)
    requires k < |s|
    ensures IsRank(s, k, x)
  {
    // by insertion of the last element into the ranks of the others
    var last, below := s[|s| - 1], s[..|s| - 1];
    var lower := CountBelow(below, last);
    if k < lower {
      x := MtpExists(below, k);
      if x >= last {
        CountMonotone(below, last, x);
      }
    } else if k > 0 && k - 1 < |below| && CountBelow(below, last + 1) <= k - 1 {
      x := MtpExists(below, k - 1);
      if x <= last {
        CountMonotone(below, x + 1, last + 1);
      }
    } else {
      x := last;
    }
  }

  /** So it is non-decreasing over the whole chain. */
  lemma {:induction false} MtpNonDecreasing(times: seq<U32>, h: nat, h': nat, m: int, m': int)
    requires Timely(times) && h <= h' && IsMtp(times, h, m) && IsMtp(times, h', m')
    ensures m <= m'
    decreases h' - h
  {
    if h == h' {
      RankIsUnique(Window(times, h), |Window(times, h)| / 2, m, m');
    } else {
      var next := MtpExists(Window(times, h + 1), |Window(times, h + 1)| / 2);
      MtpStep(times, h, m, next);
      MtpNonDecreasing(times, h + 1, h', next, m');
    }
  }
}

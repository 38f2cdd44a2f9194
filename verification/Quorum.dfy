/** The Solana reader's plurality vote: workers, the collector, the vote and the judge. */
module Quorum {
  import opened Wrappers

  datatype SolClientError = Custom(message: string) | Internal(message: string) | TimeOut(message: string)

  /** What one worker sends: its answer and the URL it got it from. */
  datatype Reply<V> = Reply(result: Result<V, SolClientError>, from: string)

  // ---------- votes ----------

  ghost function Voters<V(!new)>(replies: set<(V, string)>, v: V): set<(V, string)> {
    set r | r in replies && r.0 == v
  }

  ghost function Votes<V(!new)>(replies: set<(V, string)>, v: V): nat {
    |Voters(replies, v)|
  }

  /** v has more votes than anything else. */
  ghost predicate IsPlurality<V(!new)>(replies: set<(V, string)>, v: V) {
    Votes(replies, v) > 0 && forall u :: u != v ==> Votes(replies, u) < Votes(replies, v)
  }

  ghost function Total<V>(counts: map<V, nat>): nat
    decreases |counts|
  {
    if counts == map[] then 0 else
      var k :| k in counts;
      counts[k] + Total(counts - {k})
  }

  lemma {:induction false} TotalWithout<V>(counts: map<V, nat>, k: V)
    requires k in counts
    ensures Total(counts) == counts[k] + Total(counts - {k})
    decreases |counts|
  {
    var j :| j in counts && Total(counts) == counts[j] + Total(counts - {j});
    if j != k {
      TotalWithout(counts - {j}, k);
      TotalWithout(counts - {k}, j);
      assert counts - {j} - {k} == counts - {k} - {j};
    }
  }

  lemma TotalAfterBump<V>(counts: map<V, nat>, k: V, n: nat)
    ensures Total(counts[k := n]) + (if k in counts then counts[k] else 0) == Total(counts) + n
  {
    TotalWithout(counts[k := n], k);
    if k in counts {
      TotalWithout(counts, k);
      assert counts[k := n] - {k} == counts - {k};
    } else {
      assert counts[k := n] - {k} == counts;
    }
  }

  lemma VotesAfterOne<V(!new)>(seen: set<(V, string)>, r: (V, string), v: V)
    requires r !in seen
    ensures Votes(seen + {r}, v) == Votes(seen, v) + if r.0 == v then 1 else 0
  {
    assert Voters(seen + {r}, v) == if r.0 == v then Voters(seen, v) + {r} else Voters(seen, v);
  }

  /** counts holds the votes of every candidate. */
  ghost predicate Counted<V(!new)>(counts: map<V, nat>, replies: set<(V, string)>) {
    && (forall v :: v in counts <==> Votes(replies, v) > 0)
    && (forall v :: v in counts ==> counts[v] == Votes(replies, v))
  }

  lemma CountOneMore<V(!new)>(counts: map<V, nat>, seen: set<(V, string)>, r: (V, string))
    requires Counted(counts, seen) && r !in seen
    ensures Counted(counts[r.0 := if r.0 in counts then counts[r.0] + 1 else 1], seen + {r})
  {
    forall v
      ensures Votes(seen + {r}, v) == Votes(seen, v) + if r.0 == v then 1 else 0
    {
      VotesAfterOne(seen, r, v);
    }
  }

  /** The counting loop, in any iteration order: it counts every candidate's
      votes and loses none. */
  method CountVotes<V(==, !new)>(replies: set<(V, string)>) returns (counts: map<V, nat>)
    ensures Counted(counts, replies)
    ensures Total(counts) == |replies|
  {
    hide Counted;
    var rest := replies;
    counts := map[];
    NoVotes<V>();
    assert replies - rest == {};
    while rest != {}
      invariant rest <= replies && Counted(counts, replies - rest)
      invariant Total(counts) + |rest| == |replies|
      decreases |rest|
    {
      var r :| r in rest;
      CountOneMore(counts, replies - rest, r);
      assert replies - (rest - {r}) == replies - rest + {r};
      var n := if r.0 in counts then counts[r.0] + 1 else 1;
      TotalAfterBump(counts, r.0, n);
      counts := counts[r.0 := n];
      rest := rest - {r};
    }
    assert replies - rest == replies;
  }

  lemma NoVotes<V(!new)>()
    ensures Counted<V>(map[], {})
  {
    forall v: V
      ensures Votes({}, v) == 0
    {
      assert Voters({}, v) == {};
    }
  }

  method MaxCount<V(==, !new)>(counts: map<V, nat>) returns (max: nat)
    ensures forall v :: v in counts ==> counts[v] <= max
    ensures counts == map[] ==> max == 0
    ensures counts != map[] ==> exists v :: v in counts && counts[v] == max
  {
    max := 0;
    var rest := counts.Keys;
    ghost var best: Option<V> := None;
    while rest != {}
      invariant rest <= counts.Keys
      invariant forall v :: v in counts && v !in rest ==> counts[v] <= max
      invariant best.None? ==> max == 0
      invariant best.Some? ==> best.value in counts && counts[best.value] == max
      invariant best.None? ==> forall v :: v in counts && v !in rest ==> counts[v] == 0
      decreases |rest|
    {
      var v :| v in rest;
      rest := rest - {v};
      if counts[v] > max {
        max, best := counts[v], Some(v);
      }
    }
    if counts != map[] {
      var v :| v in counts.Keys;
      assert best.None? ==> counts[v] == max;
    }
  }

  ghost function AtCount<V>(counts: map<V, nat>, c: nat): set<V> {
    set v | v in counts && counts[v] == c
  }

  /** How many candidates have a count, and one of them. */
  method CandidatesAt<V(==, !new)>(counts: map<V, nat>, c: nat) returns (n: nat, found: Option<V>)
    ensures n == |AtCount(counts, c)|
    ensures found.Some? <==> AtCount(counts, c) != {}
    ensures found.Some? ==> found.value in AtCount(counts, c)
  {
    n, found := 0, None;
    var rest := counts.Keys;
    ghost var seen: set<V> := {};
    while rest != {}
      invariant rest <= counts.Keys && n == |seen|
      invariant forall u :: u in seen <==> u in counts.Keys && u !in rest && counts[u] == c
      invariant if n == 0 then found == None else found.Some? && found.value in seen
      decreases |rest|
    {
      var v :| v in rest;
      if counts[v] == c {
        n, found, seen := n + 1, Some(v), seen + {v};
      }
      rest := rest - {v};
    }
    assert seen == AtCount(counts, c);
  }

  /** Ok(v) exactly when v alone has the most votes; an error when the top is
      tied or nobody voted. */
  method DealVotes<V(==, !new)>(replies: set<(V, string)>) returns (r: Result<V, SolClientError>)
    ensures forall v :: r == Ok(v) <==> IsPlurality(replies, v)
    ensures r.Err? ==> r.error.Custom?
  {
    var counts := CountVotes(replies);
    var maxCount := MaxCount(counts);
    var elements, top := CandidatesAt(counts, maxCount);
    TopDecides(replies, counts, maxCount);
    if elements > 1 {
      return Err(Custom("Unexpected max_count_elements"));
    }
    r := if top.None? then Err(Custom("Can not find the most suitable")) else Ok(top.value);
  }

  lemma TopDecides<V(!new)>(replies: set<(V, string)>, counts: map<V, nat>, max: nat)
    requires Counted(counts, replies) && forall v :: v in counts ==> counts[v] <= max
    requires counts != map[] ==> exists v :: v in counts && counts[v] == max
    ensures forall v :: IsPlurality(replies, v) <==> AtCount(counts, max) == {v}
    ensures |AtCount(counts, max)| > 1 ==> forall v :: AtCount(counts, max) != {v}
    ensures |AtCount(counts, max)| <= 1 ==> forall v :: v in AtCount(counts, max) ==> AtCount(counts, max) == {v}
  {
    var top := AtCount(counts, max);
    forall v
      ensures IsPlurality(replies, v) <==> top == {v}
    {
      if IsPlurality(replies, v) {
        assert v in counts;
        var b :| b in counts && counts[b] == max;
        assert b == v;
      } else if top == {v} {
        forall u | u != v
          ensures Votes(replies, u) < Votes(replies, v)
        {
          assert v in top && u !in top;
        }
      }
    }
    if |top| <= 1 {
      forall v | v in top
        ensures top == {v}
      {
        assert |top - {v}| == 0;
      }
    }
  }

  // ---------- fault tolerance ----------

  ghost function Deviants<V(!new)>(replies: set<(V, string)>, x: V): set<(V, string)> {
    set r | r in replies && r.0 != x
  }

  /** Of 2f+1 answers at most f differ from x: the vote is x. */
  lemma FewDeviantsLose<V(!new)>(replies: set<(V, string)>, x: V, f: nat)
    requires |replies| == 2 * f + 1 && |Deviants(replies, x)| <= f
    ensures IsPlurality(replies, x)
  {
    assert replies == Voters(replies, x) + Deviants(replies, x);
    forall u | u != x
      ensures Votes(replies, u) < Votes(replies, x)
    {
      SubsetSize(Voters(replies, u), Deviants(replies, x));
    }
  }

  /** The most votes need not be most of the votes: two answers that agree win
      against any number of others that all differ. */
  lemma TwoBeatSingles<V(!new)>(replies: set<(V, string)>, x: V)
    requires |set r | r in replies && r.0 == x| >= 2
    requires forall r, q :: r in replies && q in replies && r.0 == q.0 && r.0 != x ==> r == q
    ensures IsPlurality(replies, x)
  {
    assert Voters(replies, x) == set r | r in replies && r.0 == x;
    forall u | u != x
      ensures Votes(replies, u) < Votes(replies, x)
    {
      var others := Voters(replies, u);
      if r :| r in others {
        assert others == {r};
      } else {
        assert others == {};
      }
    }
  }

  /** And an answer that another one equals in number does not win. */
  lemma TiesDoNotWin<V(!new)>(replies: set<(V, string)>, x: V, y: V)
    requires x != y && |set r | r in replies && r.0 == x| <= |set r | r in replies && r.0 == y|
    ensures !IsPlurality(replies, x)
  {
    assert Voters(replies, x) == set r | r in replies && r.0 == x;
    assert Voters(replies, y) == set r | r in replies && r.0 == y;
    assert Votes(replies, y) >= Votes(replies, x);
  }

  /** An odd number of voters who give at most two answers never tie. */
  lemma OddNeverTies<V(!new)>(replies: set<(V, string)>, a: V, b: V)
    requires |replies| % 2 == 1 && forall r :: r in replies ==> r.0 == a || r.0 == b
    ensures IsPlurality(replies, a) || IsPlurality(replies, b)
  {
    assert replies == Voters(replies, a) + Voters(replies, b);
    assert a != b ==> Voters(replies, a) !! Voters(replies, b);
    forall u | u != a && u != b
      ensures Votes(replies, u) == 0
    {
      assert Voters(replies, u) == {};
    }
  }

  // ---------- the worker ----------

  /** The first success among the first n tries. */
  function FirstOk<V>(attempts: seq<Result<V, string>>, n: nat): Option<V>
    requires n <= |attempts|
  {
    if n == 0 then None
    else if attempts[0].Ok? then Some(attempts[0].value)
    else FirstOk(attempts[1..], n - 1)
  }

  const MAX_TRIES: nat := 3

  function Answer<V>(attempts: seq<Result<V, string>>): Option<V>
    requires |attempts| >= MAX_TRIES
  {
    FirstOk(attempts, MAX_TRIES)
  }

  /** A worker sends one reply, after at most three tries: the first success or
      an error. */
  method Worker<V>(attempts: seq<Result<V, string>>, url: string) returns (sent: seq<Reply<V>>, tries: nat)
    requires |attempts| >= MAX_TRIES
    ensures |sent| == 1 && sent[0].from == url && 1 <= tries <= MAX_TRIES
    ensures Answer(attempts).Some? ==> sent[0].result == Ok(Answer(attempts).value) && attempts[tries - 1].Ok?
    ensures Answer(attempts).None? ==> sent[0].result.Err? && tries == MAX_TRIES
    ensures 1 <= tries <= 3 && forall k :: 0 <= k < tries - 1 ==> attempts[k].Err?
    ensures sent[0].result.Ok? ==> attempts[tries - 1] == Ok(sent[0].result.value)
    ensures sent[0].result.Err? ==> tries == 3 && attempts[2].Err?
  {
    sent, tries := [], 0;
    var success := false;
    while tries < MAX_TRIES
      invariant tries <= MAX_TRIES && !success && sent == []
      invariant Answer(attempts) == FirstOk(attempts[tries..], MAX_TRIES - tries)
      invariant forall k :: 0 <= k < tries ==> attempts[k].Err?
    {
      tries := tries + 1;
      if attempts[tries - 1].Ok? {
        sent := sent + [Reply(Ok(attempts[tries - 1].value), url)];
        success := true;
        break;
      }
      assert attempts[tries - 1..][1..] == attempts[tries..];
    }
    if !success {
      sent := sent + [Reply(Err(Internal("retry limited")), url)];
    }
  }

  // ---------- the collector ----------

  ghost predicate AllOk<V>(arrivals: seq<Reply<V>>) {
    forall i :: 0 <= i < |arrivals| ==> arrivals[i].result.Ok?
  }

  ghost predicate DistinctSenders<V>(arrivals: seq<Reply<V>>) {
    forall i, j :: 0 <= i < j < |arrivals| ==> arrivals[i].from != arrivals[j].from
  }

  ghost function OkSet<V>(arrivals: seq<Reply<V>>): set<(V, string)> {
    set a | a in arrivals && a.result.Ok? :: (a.result.value, a.from)
  }

  /** One reply from each of n workers. */
  ghost predicate OneEach<V>(arrivals: seq<Reply<V>>, n: nat) {
    |arrivals| == n && DistinctSenders(arrivals)
  }

  lemma {:induction false} OkSetSize<V>(arrivals: seq<Reply<V>>)
    requires DistinctSenders(arrivals) && AllOk(arrivals)
    ensures |OkSet(arrivals)| == |arrivals|
  {
    if arrivals != [] {
      var n := |arrivals| - 1;
      OkSetSize(arrivals[..n]);
      OkSetGrows(arrivals, n);
      assert arrivals[..n + 1] == arrivals;
      forall a | a in arrivals[..n]
        ensures a.from != arrivals[n].from
      {}
    }
  }

  lemma OkSetGrows<V>(arrivals: seq<Reply<V>>, i: nat)
    requires i < |arrivals| && arrivals[i].result.Ok?
    ensures OkSet(arrivals[..i + 1]) == OkSet(arrivals[..i]) + {(arrivals[i].result.value, arrivals[i].from)}
  {
    assert arrivals[..i + 1] == arrivals[..i] + [arrivals[i]];
  }

  /** What a full set of replies amounts to, whatever the order they arrive in. */
  ghost predicate Decides<V(!new)>(arrivals: seq<Reply<V>>, v: V) {
    AllOk(arrivals) && IsPlurality(OkSet(arrivals), v)
  }

  /** The clock does not run out before the last reply. */
  ghost predicate InTime(timeUp: seq<bool>) {
    forall i :: 0 <= i < |timeUp| - 1 ==> !timeUp[i]
  }

  /** The collector reads replies until it can answer: at the first error, when
      it has one answer per worker, or when a reply finds 60 seconds gone.
      timeUp says of each reply whether the clock had run out by then. */
  method Collect<V(==, !new)>(rpcNum: nat, arrivals: seq<Reply<V>>, timeUp: seq<bool>)
    returns (sent: seq<Result<V, SolClientError>>)
    requires rpcNum > 0 && |timeUp| == |arrivals|
    ensures |sent| <= 1
    ensures sent == [] ==> AllOk(arrivals) && forall i :: 0 <= i < |timeUp| ==> !timeUp[i]
    ensures OneEach(arrivals, rpcNum) ==> |sent| == 1
    ensures OneEach(arrivals, rpcNum) ==>
      forall v :: sent[0] == Ok(v) <==> InTime(timeUp) && Decides(arrivals, v)
    ensures OneEach(arrivals, rpcNum) ==>
      (sent[0].Err? && sent[0].error.TimeOut? <==>
         exists i :: 0 <= i < rpcNum - 1 && timeUp[i] && forall j :: 0 <= j <= i ==> arrivals[j].result.Ok?)
    ensures OneEach(arrivals, rpcNum) ==>
      (sent[0].Err? && sent[0].error.Internal? <==>
         exists i :: 0 <= i < rpcNum && arrivals[i].result.Err? && forall j :: 0 <= j < i ==> !timeUp[j])
  {
    hide OkSet, Votes, IsPlurality;
    sent := [];
    var res: set<(V, string)> := {};
    assert arrivals[..0] == [] && OkSet<V>([]) == {} by { NothingOk<V>(); }
    for i := 0 to |arrivals|
      invariant sent == [] && AllOk(arrivals[..i]) && res == OkSet(arrivals[..i])
      invariant (forall k :: 0 <= k < i ==> !timeUp[k] && arrivals[k].result.Ok?) && |res| != rpcNum
    {
      var reply := arrivals[i];
      if reply.result.Err? {
        sent := sent + [Err(Internal("received error"))];
        return;
      }
      res := res + {(reply.result.value, reply.from)};
      OkSetGrows(arrivals, i);
      assert arrivals[..i + 1] == arrivals[..i] + [reply];
      FullMeansAll(arrivals, i + 1, rpcNum);
      if |res| == rpcNum {
        var verdict := DealVotes(res);
        sent := sent + [verdict];
        return;
      }
      assert OneEach(arrivals, rpcNum) ==> i < rpcNum - 1 by { assert arrivals[..|arrivals|] == arrivals; }
      if timeUp[i] {
        sent := sent + [Err(TimeOut("took more than 60s"))];
        return;
      }
    }
    assert arrivals[..|arrivals|] == arrivals;
    FullMeansAll(arrivals, |arrivals|, rpcNum);
  }

  lemma NothingOk<V>()
    ensures OkSet<V>([]) == {}
  {}

  /** With one reply from each worker, the set is full exactly after the last. */
  lemma FullMeansAll<V>(arrivals: seq<Reply<V>>, i: nat, n: nat)
    requires i <= |arrivals| && AllOk(arrivals[..i])
    ensures OneEach(arrivals, n) ==> |OkSet(arrivals[..i])| == i
    ensures OneEach(arrivals, n) && |OkSet(arrivals[..i])| == n ==> arrivals[..i] == arrivals
  {
    if OneEach(arrivals, n) {
      OkSetSize(arrivals[..i]);
    }
  }

  lemma ArrivalOrderIsIrrelevant<V(!new)>(a: seq<Reply<V>>, b: seq<Reply<V>>, n: nat, v: V)
    requires multiset(a) == multiset(b) && OneEach(a, n)
    ensures OneEach(b, n)
    ensures Decides(a, v) <==> Decides(b, v)
  {
    forall r
      ensures r in a <==> r in b
    {
      assert r in multiset(a) <==> r in multiset(b);
    }
    assert |multiset(a)| == |a| && |multiset(b)| == |b|;
    forall i, j | 0 <= i < j < |b|
      ensures b[i].from != b[j].from
    {
      SenderOnce(a, b, i, j);
    }
    assert OkSet(a) == OkSet(b);
    assert AllOk(a) <==> forall r :: r in a ==> r.result.Ok?;
    assert AllOk(b) <==> forall r :: r in b ==> r.result.Ok?;
  }

  lemma SenderOnce<V(!new)>(a: seq<Reply<V>>, b: seq<Reply<V>>, i: nat, j: nat)
    requires multiset(a) == multiset(b) && DistinctSenders(a) && i < j < |b|
    ensures b[i].from != b[j].from
  {
    if b[i].from == b[j].from {
      assert b[i] in multiset(a) && b[j] in multiset(a);
      assert b[i] == b[j];
      assert b == b[..j] + [b[j]] + b[j + 1..] && b[..j][i] == b[i];
      assert b[i] in multiset(b[..j]);
      assert multiset(b)[b[i]] >= 2;
      AtMostOnce(a, b[i]);
    }
  }

  lemma {:induction false} AtMostOnce<V>(a: seq<Reply<V>>, r: Reply<V>)
    requires DistinctSenders(a)
    ensures multiset(a)[r] <= 1
  {
    if a != [] {
      var n := |a| - 1;
      AtMostOnce(a[..n], r);
      assert a == a[..n] + [a[n]];
      if r in a[..n] {
        assert r.from != a[n].from;
      }
    }
  }

  /** With 2f+1 workers that all answer and at most f that deviate from x, every
      arrival order decides x. */
  lemma QuorumDecides<V(!new)>(arrivals: seq<Reply<V>>, x: V, f: nat)
    requires OneEach(arrivals, 2 * f + 1) && AllOk(arrivals)
    requires |Deviants(OkSet(arrivals), x)| <= f
    ensures forall v :: Decides(arrivals, v) <==> v == x
  {
    OkSetSize(arrivals);
    FewDeviantsLose(OkSet(arrivals), x, f);
  }

  // ---------- the judge ----------

  /** One worker for each of some different URLs; attempts says what its tries give. */
  ghost predicate Workers<V>(urls: seq<string>, attempts: seq<seq<Result<V, string>>>) {
    && |urls| == |attempts| > 0
    && (forall i, j :: 0 <= i < j < |urls| ==> urls[i] != urls[j])
    && (forall i :: 0 <= i < |attempts| ==> |attempts[i]| >= MAX_TRIES)
  }

  /** Every worker replies once, in this order. */
  ghost predicate IsOrder(order: seq<nat>, n: nat) {
    && |order| == n
    && (forall i :: 0 <= i < n ==> order[i] < n)
    && (forall i, j :: 0 <= i < j < n ==> order[i] != order[j])
    && (forall k :: 0 <= k < n ==> k in order)
  }

  /** The reply is what the worker's tries amount to. */
  ghost predicate IsReply<V>(reply: Reply<V>, url: string, attempts: seq<Result<V, string>>)
    requires |attempts| >= MAX_TRIES
  {
    && reply.from == url
    && (reply.result.Ok? <==> Answer(attempts).Some?)
    && (reply.result.Ok? ==> reply.result.value == Answer(attempts).value)
  }

  /** The arrivals when worker order[0] replies first, then order[1], and so on. */
  method Replies<V>(urls: seq<string>, attempts: seq<seq<Result<V, string>>>, order: seq<nat>)
    returns (arrivals: seq<Reply<V>>)
    requires Workers(urls, attempts) && IsOrder(order, |urls|)
    ensures OneEach(arrivals, |urls|)
    ensures forall i :: 0 <= i < |order| ==> IsReply(arrivals[i], urls[order[i]], attempts[order[i]])
  {
    arrivals := [];
    for i := 0 to |order|
      invariant |arrivals| == i
      invariant forall k :: 0 <= k < i ==> IsReply(arrivals[k], urls[order[k]], attempts[order[k]])
    {
      var sent, _ := Worker(attempts[order[i]], urls[order[i]]);
      arrivals := arrivals + sent;
    }
    forall i, j | 0 <= i < j < |arrivals|
      ensures arrivals[i].from != arrivals[j].from
    {
      assert order[i] != order[j];
      assert IsReply(arrivals[i], urls[order[i]], attempts[order[i]]);
      assert IsReply(arrivals[j], urls[order[j]], attempts[order[j]]);
    }
  }

  /** A transaction is returned only if the judge's answer is also the vote. */
  method GetTransaction<V(==, !new)>(judge: Result<V, string>, arrivals: seq<Reply<V>>, timeUp: seq<bool>)
    returns (r: Result<V, SolClientError>)
    requires |timeUp| == |arrivals| > 0 && OneEach(arrivals, |arrivals|)
    ensures forall v :: r == Ok(v) <==> judge == Ok(v) && InTime(timeUp) && Decides(arrivals, v)
    ensures r.Err? && r.error.TimeOut? <==>
      judge.Ok? && exists i :: 0 <= i < |arrivals| - 1 && timeUp[i] && forall j :: 0 <= j <= i ==> arrivals[j].result.Ok?
  {
    if judge.Err? {
      return Err(Custom("failed to get transaction"));
    }
    var sent := Collect(|arrivals|, arrivals, timeUp);
    if sent[0].Err? {
      return Err(sent[0].error);
    }
    r := if sent[0].value == judge.value then sent[0] else Err(Custom("not same as judge"));
  }

  /** A slot is returned only if it is the judge's and not above the vote. */
  method GetSlot(judge: Result<nat, string>, arrivals: seq<Reply<nat>>, timeUp: seq<bool>)
    returns (r: Result<nat, SolClientError>)
    requires |timeUp| == |arrivals| > 0 && OneEach(arrivals, |arrivals|)
    ensures forall s: nat :: r == Ok(s) <==>
      judge == Ok(s) && InTime(timeUp) && exists v: nat :: Decides(arrivals, v) && s <= v
    ensures r.Err? && r.error.TimeOut? <==>
      judge.Ok? && exists i :: 0 <= i < |arrivals| - 1 && timeUp[i] && forall j :: 0 <= j <= i ==> arrivals[j].result.Ok?
  {
    if judge.Err? {
      return Err(Custom("failed to get slot"));
    }
    var sent := Collect(|arrivals|, arrivals, timeUp);
    if sent[0].Err? {
      return Err(sent[0].error);
    }
    assert sent[0] == Ok(sent[0].value);
    assert Decides(arrivals, sent[0].value);
    r := if judge.value <= sent[0].value then Ok(judge.value) else Err(Custom("not same as judge"));
  }

  // ---------- the whole read ----------

  ghost predicate EveryoneAnswers<V>(attempts: seq<seq<Result<V, string>>>) {
    forall i :: 0 <= i < |attempts| ==> |attempts[i]| >= MAX_TRIES && Answer(attempts[i]).Some?
  }

  /** The workers' answers, with no order to them. */
  ghost function Answers<V>(urls: seq<string>, attempts: seq<seq<Result<V, string>>>): set<(V, string)>
    requires |attempts| == |urls| && EveryoneAnswers(attempts)
  {
    AnswersUpTo(urls, attempts, |urls|)
  }

  ghost function AnswersUpTo<V>(urls: seq<string>, attempts: seq<seq<Result<V, string>>>, n: nat): set<(V, string)>
    requires n <= |attempts| == |urls| && EveryoneAnswers(attempts)
  {
    set i | 0 <= i < n :: (Answer(attempts[i]).value, urls[i])
  }

  /** Workers, collector, vote and judge together: in whatever order the workers
      reply, v is returned only when everyone answers, v has the most answers and
      the judge says v; and then it is, if the clock does not run out first. */
  method ReadTransaction<V(==, !new)>(
    judge: Result<V, string>, urls: seq<string>, attempts: seq<seq<Result<V, string>>>, order: seq<nat>,
    timeUp: seq<bool>)
    returns (r: Result<V, SolClientError>)
    requires Workers(urls, attempts) && IsOrder(order, |urls|) && |timeUp| == |urls|
    ensures forall v :: r == Ok(v) <==>
      && judge == Ok(v) && InTime(timeUp)
      && EveryoneAnswers(attempts) && IsPlurality(Answers(urls, attempts), v)
    ensures r.Err? && r.error.TimeOut? <==>
      judge.Ok? && exists i ::
        0 <= i < |urls| - 1 && timeUp[i] && forall j :: 0 <= j <= i ==> Answer(attempts[order[j]]).Some?
  {
    hide IsPlurality, Answer;
    var arrivals := Replies(urls, attempts, order);
    SameAnswers(urls, attempts, order, arrivals);
    AnsweredWhenOk(urls, attempts, order, arrivals);
    r := GetTransaction(judge, arrivals, timeUp);
  }

  /** The same for slots: the judge's slot is returned only when everyone answers
      and the slot with the most answers is not below it. */
  method ReadSlot(
    judge: Result<nat, string>, urls: seq<string>, attempts: seq<seq<Result<nat, string>>>, order: seq<nat>,
    timeUp: seq<bool>)
    returns (r: Result<nat, SolClientError>)
    requires Workers(urls, attempts) && IsOrder(order, |urls|) && |timeUp| == |urls|
    ensures forall s: nat :: r == Ok(s) <==>
      && judge == Ok(s) && InTime(timeUp)
      && EveryoneAnswers(attempts) && exists v: nat :: IsPlurality(Answers(urls, attempts), v) && s <= v
    ensures r.Err? && r.error.TimeOut? <==>
      judge.Ok? && exists i ::
        0 <= i < |urls| - 1 && timeUp[i] && forall j :: 0 <= j <= i ==> Answer(attempts[order[j]]).Some?
  {
    hide IsPlurality, Answer;
    var arrivals := Replies(urls, attempts, order);
    SameAnswers(urls, attempts, order, arrivals);
    AnsweredWhenOk(urls, attempts, order, arrivals);
    assert EveryoneAnswers(attempts) ==>
      forall v: nat :: IsPlurality(Answers(urls, attempts), v) <==> Decides(arrivals, v);
    r := GetSlot(judge, arrivals, timeUp);
  }

  lemma AnsweredWhenOk<V>(
    urls: seq<string>, attempts: seq<seq<Result<V, string>>>, order: seq<nat>, arrivals: seq<Reply<V>>)
    requires Workers(urls, attempts) && IsOrder(order, |urls|) && |arrivals| == |urls|
    requires forall i :: 0 <= i < |order| ==> IsReply(arrivals[i], urls[order[i]], attempts[order[i]])
    ensures forall i :: 0 <= i < |arrivals| ==> (arrivals[i].result.Ok? <==> Answer(attempts[order[i]]).Some?)
  {
    hide Answer;
    forall i | 0 <= i < |arrivals|
      ensures arrivals[i].result.Ok? <==> Answer(attempts[order[i]]).Some?
    {
      assert IsReply(arrivals[i], urls[order[i]], attempts[order[i]]);
    }
  }

  lemma SameAnswers<V(!new)>(
    urls: seq<string>, attempts: seq<seq<Result<V, string>>>, order: seq<nat>, arrivals: seq<Reply<V>>)
    requires Workers(urls, attempts) && IsOrder(order, |urls|) && |arrivals| == |urls|
    requires forall i :: 0 <= i < |order| ==> IsReply(arrivals[i], urls[order[i]], attempts[order[i]])
    ensures AllOk(arrivals) <==> EveryoneAnswers(attempts)
    ensures AllOk(arrivals) ==> OkSet(arrivals) == Answers(urls, attempts)
  {
    hide Answer;
    EveryoneReplies(urls, attempts, order, arrivals);
    if AllOk(arrivals) {
      forall k | 0 <= k < |urls|
        ensures (Answer(attempts[k]).value, urls[k]) in OkSet(arrivals)
      {
        assert k in order;
        var i :| 0 <= i < |order| && order[i] == k;
        assert IsReply(arrivals[i], urls[k], attempts[k]) && arrivals[i] in arrivals;
      }
      forall r | r in OkSet(arrivals)
        ensures r in Answers(urls, attempts)
      {
        var a :| a in arrivals && a.result.Ok? && r == (a.result.value, a.from);
        var i :| 0 <= i < |arrivals| && arrivals[i] == a;
        assert IsReply(a, urls[order[i]], attempts[order[i]]);
        assert r == (Answer(attempts[order[i]]).value, urls[order[i]]);
      }
    }
  }

  lemma EveryoneReplies<V(!new)>(
    urls: seq<string>, attempts: seq<seq<Result<V, string>>>, order: seq<nat>, arrivals: seq<Reply<V>>)
    requires Workers(urls, attempts) && IsOrder(order, |urls|) && |arrivals| == |urls|
    requires forall i :: 0 <= i < |order| ==> IsReply(arrivals[i], urls[order[i]], attempts[order[i]])
    ensures AllOk(arrivals) <==> EveryoneAnswers(attempts)
  {
    hide Answer;
    if AllOk(arrivals) {
      forall k | 0 <= k < |urls|
        ensures Answer(attempts[k]).Some?
      {
        assert k in order;
        var i :| 0 <= i < |order| && order[i] == k;
        assert IsReply(arrivals[i], urls[k], attempts[k]);
      }
    }
    if EveryoneAnswers(attempts) {
      forall i | 0 <= i < |arrivals|
        ensures arrivals[i].result.Ok?
      {
        assert IsReply(arrivals[i], urls[order[i]], attempts[order[i]]);
      }
    }
  }

  /** End to end: of 2f+1 answering workers at most f deviate from x, so only x
      can be returned, and it is when the judge agrees. */
  lemma OnlyQuorumValue<V(!new)>(urls: seq<string>, attempts: seq<seq<Result<V, string>>>, x: V, f: nat, v: V)
    requires |attempts| == |urls| == 2 * f + 1 && EveryoneAnswers(attempts)
    requires forall i, j :: 0 <= i < j < |urls| ==> urls[i] != urls[j]
    requires |Deviants(Answers(urls, attempts), x)| <= f
    ensures IsPlurality(Answers(urls, attempts), v) <==> v == x
  {
    AnswersSize(urls, attempts, |urls|);
    FewDeviantsLose(Answers(urls, attempts), x, f);
  }

  lemma {:induction false} AnswersSize<V(!new)>(urls: seq<string>, attempts: seq<seq<Result<V, string>>>, n: nat)
    requires n <= |attempts| == |urls| && EveryoneAnswers(attempts)
    requires forall i, j :: 0 <= i < j < |urls| ==> urls[i] != urls[j]
    ensures |AnswersUpTo(urls, attempts, n)| == n
  {
    hide Answer;
    if n > 0 {
      AnswersSize(urls, attempts, n - 1);
      var last := (Answer(attempts[n - 1]).value, urls[n - 1]);
      assert AnswersUpTo(urls, attempts, n) == AnswersUpTo(urls, attempts, n - 1) + {last};
      assert last !in AnswersUpTo(urls, attempts, n - 1);
    }
  }

  // ---------- the configured URLs ----------

  /** Without the single-RPC override the number of different URLs must be odd
      and at least three. */
  method CheckUrls(urls: seq<string>, single: bool) returns (r: Result<set<string>, string>)
    ensures r.Ok? <==> single || (exists f: nat {:trigger 2 * f} :: f >= 1 && |set u | u in urls| == 2 * f + 1)
    ensures r.Ok? ==> r.value == set u | u in urls
  {
    var unique := set u | u in urls;
    if !single {
      if |unique| < 3 {
        return Err("sol urls num mut >= 3");
      }
      if |unique| % 2 == 0 {
        return Err("urls num mut be odd number");
      }
      assert |unique| == 2 * (|unique| / 2) + 1;
    }
    r := Ok(unique);
  }
}

/** The Solana readers of lists, from the workers to the judge. */
module ListReaders {
  import opened Wrappers
  import opened Quorum
  import opened Intersection

  /** The successful replies, by sender; a later reply of a sender replaces an earlier one. */
  ghost function ListsOf<S>(arrivals: seq<Reply<seq<S>>>): map<string, seq<S>> {
    if arrivals == [] then map[] else
      var n := |arrivals| - 1;
      if arrivals[n].result.Err? then ListsOf(arrivals[..n])
      else ListsOf(arrivals[..n])[arrivals[n].from := arrivals[n].result.value]
  }

  /** With one reply from each sender, each sender has its own list. */
  lemma {:induction false} ListsOfSenders<S>(arrivals: seq<Reply<seq<S>>>)
    requires DistinctSenders(arrivals) && AllOk(arrivals)
    ensures |ListsOf(arrivals)| == |arrivals| && ListsOf(arrivals).Keys == SendersOf(arrivals)
    decreases |arrivals|
  {
    if arrivals != [] {
      var n := |arrivals| - 1;
      ListsOfSenders(arrivals[..n]);
      SendersGrow(arrivals, n);
    }
  }

  lemma {:induction false} ListsOfAt<S>(arrivals: seq<Reply<seq<S>>>, i: nat)
    requires DistinctSenders(arrivals) && AllOk(arrivals) && i < |arrivals|
    ensures arrivals[i].from in ListsOf(arrivals)
    ensures ListsOf(arrivals)[arrivals[i].from] == arrivals[i].result.value
    decreases |arrivals|
  {
    var n := |arrivals| - 1;
    if i < n {
      ListsOfAt(arrivals[..n], i);
      assert arrivals[..n][i] == arrivals[i];
    }
  }

  ghost function SendersOf<S>(arrivals: seq<Reply<seq<S>>>): set<string> {
    set i | 0 <= i < |arrivals| :: arrivals[i].from
  }

  lemma SendersGrow<S>(arrivals: seq<Reply<seq<S>>>, n: nat)
    requires n + 1 == |arrivals| && DistinctSenders(arrivals)
    ensures SendersOf(arrivals) == SendersOf(arrivals[..n]) + {arrivals[n].from}
    ensures arrivals[n].from !in SendersOf(arrivals[..n])
  {}

  /** The collector of lists: as the collector of votes, but it keeps one list for
      each sender and deals the lists in the end. */
  method CollectLists<S(==, !new)>(rpcNum: nat, arrivals: seq<Reply<seq<S>>>, timeUp: seq<bool>)
    returns (sent: seq<Result<seq<S>, SolClientError>>)
    requires rpcNum > 0 && |timeUp| == |arrivals|
    ensures |sent| <= 1
    ensures OneEach(arrivals, rpcNum) ==> |sent| == 1
    ensures OneEach(arrivals, rpcNum) && sent[0].Ok? ==>
      AllOk(arrivals) && Deals(ListsOf(arrivals), sent[0].value)
    ensures OneEach(arrivals, rpcNum) ==> (sent[0].Ok? <==> InTime(timeUp) && AllOk(arrivals))
    ensures OneEach(arrivals, rpcNum) ==>
      (sent[0].Err? && sent[0].error.TimeOut? <==>
         exists i :: 0 <= i < rpcNum - 1 && timeUp[i] && forall j :: 0 <= j <= i ==> arrivals[j].result.Ok?)
    ensures OneEach(arrivals, rpcNum) ==>
      (sent[0].Err? && sent[0].error.Internal? <==>
         exists i :: 0 <= i < rpcNum && arrivals[i].result.Err? && forall j :: 0 <= j < i ==> !timeUp[j])
  {
    hide ListsOf;
    sent := [];
    var res: map<string, seq<S>> := map[];
    NoLists<S>();
    assert arrivals[..0] == [];
    for i := 0 to |arrivals|
      invariant sent == [] && AllOk(arrivals[..i]) && res == ListsOf(arrivals[..i])
      invariant (forall k :: 0 <= k < i ==> !timeUp[k] && arrivals[k].result.Ok?) && |res| != rpcNum
    {
      var reply := arrivals[i];
      if reply.result.Err? {
        sent := sent + [Err(Internal("received error"))];
        return;
      }
      res := res[reply.from := reply.result.value];
      OneMoreList(arrivals, i);
      assert arrivals[..i + 1] == arrivals[..i] + [reply];
      FullMapMeansAll(arrivals, i + 1, rpcNum);
      if |res| == rpcNum {
        var sigs := DealLists(res);
        sent := sent + [Ok(sigs)];
        return;
      }
      assert OneEach(arrivals, rpcNum) ==> i < rpcNum - 1 by { assert arrivals[..|arrivals|] == arrivals; }
      if timeUp[i] {
        sent := sent + [Err(TimeOut("took more than 60s"))];
        return;
      }
    }
    assert arrivals[..|arrivals|] == arrivals;
    FullMapMeansAll(arrivals, |arrivals|, rpcNum);
  }

  lemma NoLists<S>()
    ensures ListsOf<S>([]) == map[]
  {}

  lemma OneMoreList<S>(arrivals: seq<Reply<seq<S>>>, i: nat)
    requires i < |arrivals| && arrivals[i].result.Ok?
    ensures ListsOf(arrivals[..i + 1]) == ListsOf(arrivals[..i])[arrivals[i].from := arrivals[i].result.value]
  {
    assert arrivals[..i + 1][..i] == arrivals[..i];
  }

  /** With one reply from each worker, the map is full exactly after the last. */
  lemma FullMapMeansAll<S>(arrivals: seq<Reply<seq<S>>>, i: nat, n: nat)
    requires i <= |arrivals| && AllOk(arrivals[..i])
    ensures OneEach(arrivals, n) ==> |ListsOf(arrivals[..i])| == i
    ensures OneEach(arrivals, n) && |ListsOf(arrivals[..i])| == n ==> arrivals[..i] == arrivals
  {
    if OneEach(arrivals, n) {
      ListsOfSenders(arrivals[..i]);
    }
  }

  // ---------- the whole read ----------

  /** The workers' lists by URL, with no order to them. */
  ghost function AnswerLists<S>(urls: seq<string>, attempts: seq<seq<Result<seq<S>, string>>>): map<string, seq<S>>
    requires Workers(urls, attempts) && EveryoneAnswers(attempts)
  {
    map u | u in urls :: ListAt(urls, attempts, u)
  }

  ghost function ListAt<S>(urls: seq<string>, attempts: seq<seq<Result<seq<S>, string>>>, u: string): seq<S>
    requires Workers(urls, attempts) && EveryoneAnswers(attempts) && u in urls
  {
    var i :| 0 <= i < |urls| && urls[i] == u;
    Answer(attempts[i]).value
  }

  lemma SameLists<S(!new)>(
    urls: seq<string>, attempts: seq<seq<Result<seq<S>, string>>>, order: seq<nat>, arrivals: seq<Reply<seq<S>>>)
    requires Workers(urls, attempts) && IsOrder(order, |urls|) && OneEach(arrivals, |urls|)
    requires forall i :: 0 <= i < |order| ==> IsReply(arrivals[i], urls[order[i]], attempts[order[i]])
    ensures AllOk(arrivals) <==> EveryoneAnswers(attempts)
    ensures AllOk(arrivals) ==> ListsOf(arrivals) == AnswerLists(urls, attempts)
  {
    hide Answer, ListsOf;
    EveryoneReplies(urls, attempts, order, arrivals);
    if AllOk(arrivals) {
      ListsOfSenders(arrivals);
      var answers := AnswerLists(urls, attempts);
      forall u | u in urls
        ensures u in ListsOf(arrivals) && ListsOf(arrivals)[u] == answers[u]
      {
        ListArrives(urls, attempts, order, arrivals, u);
      }
      forall i | 0 <= i < |arrivals|
        ensures arrivals[i].from in urls
      {
        assert IsReply(arrivals[i], urls[order[i]], attempts[order[i]]);
      }
      assert ListsOf(arrivals).Keys == answers.Keys;
    }
  }

  lemma ListArrives<S(!new)>(
    urls: seq<string>, attempts: seq<seq<Result<seq<S>, string>>>, order: seq<nat>, arrivals: seq<Reply<seq<S>>>,
    u: string)
    requires Workers(urls, attempts) && IsOrder(order, |urls|) && OneEach(arrivals, |urls|)
    requires forall i :: 0 <= i < |order| ==> IsReply(arrivals[i], urls[order[i]], attempts[order[i]])
    requires AllOk(arrivals) && EveryoneAnswers(attempts) && u in urls
    ensures u in ListsOf(arrivals) && ListsOf(arrivals)[u] == ListAt(urls, attempts, u)
  {
    hide Answer, ListsOf;
    var k :| 0 <= k < |urls| && urls[k] == u && ListAt(urls, attempts, u) == Answer(attempts[k]).value;
    assert k in order;
    var i :| 0 <= i < |order| && order[i] == k;
    assert IsReply(arrivals[i], urls[k], attempts[k]);
    ListsOfAt(arrivals, i);
  }

  /** Signatures, end to end and in whatever order the workers reply: nothing for
      an empty judge's list; else the judge's newest entry and then, in the
      judge's order, the accepted ones of the others, if everyone answers. */
  method ReadSignatures<S(==, !new)>(
    judge: Result<seq<S>, string>, urls: seq<string>, attempts: seq<seq<Result<seq<S>, string>>>, order: seq<nat>,
    timeUp: seq<bool>)
    returns (r: Result<seq<S>, SolClientError>)
    requires Workers(urls, attempts) && IsOrder(order, |urls|) && |timeUp| == |urls|
    ensures r.Ok? <==> judge.Ok? && (judge.value == [] || (EveryoneAnswers(attempts) && InTime(timeUp)))
    ensures r.Err? && r.error.TimeOut? <==>
      judge.Ok? && judge.value != [] && exists i ::
        0 <= i < |urls| - 1 && timeUp[i] && forall j :: 0 <= j <= i ==> Answer(attempts[order[j]]).Some?
    ensures r.Ok? && judge.value == [] ==> r.value == []
    ensures r.Ok? && judge.value != [] ==>
      var rest := judge.value[1..];
      r.value == [judge.value[0]] + Keep(Firsts(rest), AcceptedSet(rest, AnswerLists(urls, attempts)))
  {
    hide Answer, AnswerLists, AcceptedSet;
    if judge.Err? {
      return Err(Custom("failed to get signatures"));
    }
    if judge.value == [] {
      return Ok([]);
    }
    var arrivals := Replies(urls, attempts, order);
    SameLists(urls, attempts, order, arrivals);
    AnsweredWhenOk(urls, attempts, order, arrivals);
    var sent := CollectLists(|urls|, arrivals, timeUp);
    if sent[0].Err? {
      return Err(sent[0].error);
    }
    var sigs := GetSignatures(judge.value, sent[0].value, ListsOf(arrivals));
    r := Ok(sigs);
  }

  /** Program accounts, end to end: the accepted entries of the judge's list. */
  method ReadProgramAccounts<S(==, !new)>(
    judge: Result<seq<S>, string>, urls: seq<string>, attempts: seq<seq<Result<seq<S>, string>>>, order: seq<nat>,
    timeUp: seq<bool>)
    returns (r: Result<set<S>, SolClientError>)
    requires Workers(urls, attempts) && IsOrder(order, |urls|) && |timeUp| == |urls|
    ensures r.Ok? <==> judge.Ok? && EveryoneAnswers(attempts) && InTime(timeUp)
    ensures r.Err? && r.error.TimeOut? <==>
      judge.Ok? && exists i ::
        0 <= i < |urls| - 1 && timeUp[i] && forall j :: 0 <= j <= i ==> Answer(attempts[order[j]]).Some?
    ensures r.Ok? ==> r.value == AcceptedSet(judge.value, AnswerLists(urls, attempts))
  {
    hide Answer, AnswerLists, AcceptedSet;
    if judge.Err? {
      return Err(Custom("failed to get program accounts"));
    }
    var arrivals := Replies(urls, attempts, order);
    SameLists(urls, attempts, order, arrivals);
    AnsweredWhenOk(urls, attempts, order, arrivals);
    var sent := CollectLists(|urls|, arrivals, timeUp);
    if sent[0].Err? {
      return Err(sent[0].error);
    }
    var accounts := GetProgramAccounts(judge.value, sent[0].value, ListsOf(arrivals));
    r := Ok(accounts);
  }
}

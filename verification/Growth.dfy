/** Where the world comes from: it need not be given.  As long as different
    headers have different hashes, all that passes `order` can be filed in a world
    that grows as the headers arrive. */
module Growth {
  import opened Wrappers
  import opened Chain
  import opened HeaderLists
  import opened Daemons
  import opened Syncs
  import opened Runs
  import opened AnyDaemon
  import opened Rounds

  /** No two of these headers share a hash, and none has the null hash. */
  ghost predicate CollisionFree(hash: Header -> BlockHash, all: set<Header>) {
    && (forall a :: a in all ==> hash(a) != NULL_HASH)
    && (forall a, b :: a in all && b in all && hash(a) == hash(b) ==> a == b)
  }

  /** All headers of the world are among these. */
  ghost predicate MadeOf(w: World, all: set<Header>) {
    w.Valid() && CollisionFree(w.hash, all) && forall h :: h in w.headers ==> w.headers[h] in all
  }

  ghost predicate AnswersWithin(all: set<Header>, d: Daemon) {
    forall h :: h in d.headers && d.headers[h].Some? ==> d.headers[h].value in all
  }

  ghost predicate Grows(w: World, w': World) {
    && w.Valid() && w'.Valid() && w'.hash == w.hash
    && (forall h :: h in w.headers ==>
          h in w'.headers && w'.headers[h] == w.headers[h] && w'.height[h] == w.height[h])
  }

  // ---------- what is true stays true in a larger world ----------

  lemma {:induction false} SameChain(w: World, w': World, t: BlockHash)
    requires Grows(w, w') && w.Knows(t)
    ensures w'.Knows(t) && w'.Len(t) == w.Len(t) && w'.ChainOf(t) == w.ChainOf(t)
    decreases w.Len(t)
  {
    if t != NULL_HASH {
      assert w.Rooted(t);
      SameChain(w, w', w.headers[t].prev);
    }
  }

  lemma GoodGrows(w: World, w': World, n: Node)
    requires Grows(w, w') && Good(w, n)
    ensures Good(w', n)
  {
    SameChain(w, w', n.list.tip);
  }

  lemma PlausibleGrows(w: World, w': World, l: ListState, f: Fetch)
    requires Grows(w, w') && Plausible(w, l, f)
    ensures Plausible(w', l, f)
  {}

  // ---------- filing headers ----------

  /** A header on top of a known one. */
  lemma FileOne(w: World, h: Header, all: set<Header>) returns (w': World)
    requires MadeOf(w, all) && h in all && w.Knows(h.prev)
    ensures Grows(w, w') && MadeOf(w', all)
    ensures w.hash(h) in w'.headers && w'.headers[w.hash(h)] == h
  {
    var k := w.hash(h);
    if k in w.headers {
      w' := w;
    } else {
      w' := World(w.hash, w.headers[k := h], w.height[k := w.Len(h.prev)]);
      forall g | g in w'.headers
        ensures w'.Rooted(g)
      {
        assert g != k ==> w.Rooted(g);
      }
    }
  }

  lemma {:induction false} FileAll(w: World, hs: seq<Header>, all: set<Header>) returns (w': World)
    requires MadeOf(w, all) && Linked(w.hash, hs) && (hs != [] ==> w.Knows(hs[0].prev))
    requires forall i :: 0 <= i < |hs| ==> hs[i] in all
    ensures Grows(w, w') && MadeOf(w', all)
    ensures forall i :: 0 <= i < |hs| ==> w.hash(hs[i]) in w'.headers && w'.headers[w.hash(hs[i])] == hs[i]
    decreases |hs|
  {
    if hs == [] {
      w' := w;
    } else {
      var n := |hs| - 1;
      var below := FileAll(w, hs[..n], all);
      assert n > 0 ==> hs[n].prev == w.hash(hs[n - 1]) && hs[..n][n - 1] == hs[n - 1];
      w' := FileOne(below, hs[n], all);
      forall i | 0 <= i < n
        ensures w.hash(hs[i]) in w'.headers && w'.headers[w.hash(hs[i])] == hs[i]
      {
        assert hs[..n][i] == hs[i];
      }
    }
  }

  // ---------- what a daemon delivers ----------

  lemma {:induction false} WalkWithin(d: Daemon, unseen: set<BlockHash>, l: ListState, h: BlockHash, all: set<Header>)
    requires AnswersWithin(all, d)
    ensures WalkBack(d.headers, unseen, l, h).Got? ==>
      forall x :: x in WalkBack(d.headers, unseen, l, h).headers ==> x in all
    decreases |unseen|
  {
    hide Lookup;
    if h in unseen && h in d.headers && d.headers[h].Some? {
      WalkWithin(d, unseen - {h}, l, d.headers[h].value.prev, all);
    }
  }

  lemma FetchedWithin(hash: Header -> BlockHash, l: ListState, d: Daemon, t: BlockHash, all: set<Header>)
    requires AnswersWithin(all, d)
    ensures Fetched(hash, l, d, t).Got? ==> forall x :: x in Fetched(hash, l, d, t).headers ==> x in all
  {
    if l.headers != [] {
      WalkWithin(d, d.headers.Keys, l, t, all);
    } else {
      AllFetchedExactly(hash, d, t);
      if AllFetched(hash, d, t).Got? {
        forall i | 0 <= i <= d.heights[t].value
          ensures d.Download(t)[i] in all
        {
          assert d.ServesAt(i);
        }
      }
    }
  }

  /** Whatever a daemon delivers, some larger world files it. */
  lemma DeliveryFiled(w: World, n: Node, a: Ask, all: set<Header>) returns (w': World)
    requires Good(w, n) && MadeOf(w, all) && AnswersWithin(all, a.daemon)
    ensures Grows(w, w') && MadeOf(w', all) && Plausible(w', n.list, Delivery(w.hash, n, a))
  {
    hide Fetched, Lookup, CollisionFree;
    var f := Delivery(w.hash, n, a);
    FetchedWithin(w.hash, n.list, a.daemon, a.tip, all);
    if f.Got? && f.headers != [] && Order(w.hash, n.list, f.headers).Returned? {
      OrderedBase(w, n.list, f.headers);
      w' := FileAll(w, f.headers, all);
    } else {
      w' := w;
    }
  }

  // ---------- runs without a given world ----------

  lemma {:induction false} RunFiled(w: World, n: Node, asks: seq<Ask>, all: set<Header>) returns (w': World)
    requires Good(w, n) && MadeOf(w, all)
    requires forall i :: 0 <= i < |asks| ==> AnswersWithin(all, asks[i].daemon)
    ensures Grows(w, w') && MadeOf(w', all) && Good(w', n) && AllPlausible(w', n, asks)
    decreases |asks|
  {
    hide Good, MadeOf, AnswersWithin, Plausible, AnyStep, Delivery;
    if asks == [] {
      w' := WorldItself(w, n);
    } else {
      var w1 := DeliveryFiled(w, n, asks[0], all);
      GoodGrows(w, w1, n);
      AnyStepExactly(w1, n, asks[0]);
      if AnyStep(w.hash, n, asks[0]).Returned? {
        w' := RunFiled(w1, AnyStep(w.hash, n, asks[0]).value, asks[1..], all);
        PlausibleGrows(w1, w', n.list, Delivery(w.hash, n, asks[0]));
        GoodGrows(w1, w', n);
      } else {
        w' := w1;
      }
    }
  }

  lemma WorldItself(w: World, n: Node) returns (w': World)
    requires Good(w, n)
    ensures w' == w && Grows(w, w')
  {
    w' := w;
  }

  /** From an empty database, with any daemons that answer anything, crashing and
      restarting anywhere: as long as no two answered headers share a hash, the
      database can be opened in the end exactly when every reply for a tip was fine
      or came too late to matter, and then its list is a chain and it is sound. */
  lemma AnyRunFromNew(hash: Header -> BlockHash, asks: seq<Ask>, all: set<Header>) returns (w: World)
    requires CollisionFree(hash, all) && forall i :: 0 <= i < |asks| ==> AnswersWithin(all, asks[i].daemon)
    ensures w.hash == hash
    ensures AnyRun(hash, NEW_NODE, asks).Returned? <==> AllSurvive(hash, NEW_NODE, asks)
    ensures AnyRun(hash, NEW_NODE, asks).Returned? ==> Good(w, AnyRun(hash, NEW_NODE, asks).value)
  {
    var none := World(hash, map[], map[]);
    NewNodeGood(none);
    w := RunFiled(none, NEW_NODE, asks, all);
    AnyRunExactly(w, NEW_NODE, asks);
  }

  // ---------- the thread without a given world ----------

  lemma {:induction false} RoundsFiled(w: World, s: LoopState, rounds: seq<Round>, all: set<Header>)
    returns (w': World)
    requires Good(w, s.node) && MadeOf(w, all) && !RoundsRun(w.hash, s, rounds).Stuck?
    requires forall i :: 0 <= i < |rounds| ==> AnswersWithin(all, rounds[i].daemon)
    ensures Grows(w, w') && MadeOf(w', all) && RoundsHeard(w', s, rounds)
    decreases |rounds|
  {
    hide Good, MadeOf, AnswersWithin, RoundStep, RoundHeard, Heard;
    if rounds == [] {
      w' := WorldItself(w, s.node);
    } else {
      var w1 := RoundFiled(w, s, rounds[0], all);
      GoodGrows(w, w1, s.node);
      RoundEndsWell(w1, s, rounds[0]);
      if RoundStep(w.hash, s, rounds[0]).Going? {
        w' := RoundsFiled(w1, RoundStep(w.hash, s, rounds[0]).state, rounds[1..], all);
        RoundHeardGrows(w1, w', s, rounds[0]);
      } else {
        w' := w1;
      }
    }
  }

  lemma RoundFiled(w: World, s: LoopState, r: Round, all: set<Header>) returns (w': World)
    requires Good(w, s.node) && MadeOf(w, all) && AnswersWithin(all, r.daemon) && !RoundStep(w.hash, s, r).Stuck?
    ensures Grows(w, w') && MadeOf(w', all) && RoundHeard(w', s, r)
  {
    hide MadeOf, AnswersWithin, Plausible, Fetched, SyncFrom;
    if r.best.Some? {
      w' := DeliveryFiled(w, s.node, AskOf(r), all);
    } else {
      w' := WorldItself(w, s.node);
    }
  }

  lemma RoundHeardGrows(w: World, w': World, s: LoopState, r: Round)
    requires Grows(w, w') && RoundHeard(w, s, r)
    ensures RoundHeard(w', s, r)
  {
    hide Plausible, Fetched;
    if r.best.Some? && r.best.value != s.tip {
      PlausibleGrows(w, w', s.node.list, Delivery(w.hash, s.node, AskOf(r)));
    }
  }

  /** A thread that meets no endless download is heard in some world: nothing need
      be assumed of its daemons but that no two headers share a hash. */
  lemma ThreadFiled(w: World, n: Node, first: Round, rounds: seq<Round>, all: set<Header>) returns (w': World)
    requires Good(w, n) && MadeOf(w, all) && !ThreadRun(w.hash, n, first, rounds).Stuck?
    requires AnswersWithin(all, first.daemon) && forall i :: 0 <= i < |rounds| ==> AnswersWithin(all, rounds[i].daemon)
    ensures Grows(w, w') && Good(w', n) && ThreadHeard(w', n, first, rounds)
  {
    hide Good, MadeOf, AnswersWithin, RoundsRun, RoundsHeard, Plausible, Fetched, SyncFrom;
    if first.best.None? {
      w' := WorldItself(w, n);
    } else {
      var w1 := DeliveryFiled(w, n, AskOf(first), all);
      GoodGrows(w, w1, n);
      StartEndsWell(w1, n, first);
      if ThreadStart(w.hash, n, first).Going? {
        w' := RoundsFiled(w1, ThreadStart(w.hash, n, first).state, rounds, all);
        PlausibleGrows(w1, w', n.list, Delivery(w.hash, n, AskOf(first)));
        GoodGrows(w1, w', n);
      } else {
        w' := w1;
      }
    }
  }
}

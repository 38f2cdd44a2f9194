/** Syncs with a daemon that may answer anything. */
module AnyDaemon {
  import opened Wrappers
  import opened Chain
  import opened HeaderLists
  import opened Daemons
  import opened Syncs
  import opened Runs

  /** What passes the assertions of `order` is filed in the world. */
  ghost predicate Plausible(w: World, l: ListState, f: Fetch) {
    f.Got? && Order(w.hash, l, f.headers).Returned? ==> w.Files(Order(w.hash, l, f.headers).value)
  }

  /** With an honest daemon the sync is the one that knows the whole chain. */
  lemma HonestSync(w: World, n: Node, d: Daemon, t: BlockHash)
    requires Good(w, n) && w.Knows(t) && Serving(w, n.list, d, t)
    ensures var f := Fetched(w.hash, n.list, d, t);
      && !f.Endless? && Plausible(w, n.list, f)
      && SyncFrom(w.hash, n, f, t) == (if Fetches(w, n.list, d, t) then Sync(w, n, t) else (n, DaemonFailed))
      && Written(w.hash, n, f, t) == (if Fetches(w, n.list, d, t) then Durable(n.disk, ToAdd(w, n, t), t)[1..] else [])
  {
    hide NotSynced, Stored, Durable, Order;
    HonestFetch(w, n.list, d, t);
    NewEntriesOrdered(w, n.list, t);
    w.ChainFiles(t);
  }

  /** `order` cannot panic on what an honest daemon returns. */
  lemma NewEntriesOrdered(w: World, l: ListState, t: BlockHash)
    requires Valid(w, l) && w.Knows(t)
    ensures Order(w.hash, l, HeadersOf(NewEntries(w, l, t))) == Returned(NewEntries(w, l, t))
  {
    var chain := w.ChainOf(t);
    var fork := CommonPrefix(l.headers, chain);
    if 0 < fork {
      assert l.headers[..fork][fork - 1] == chain[..fork][fork - 1];
    }
    OrderNumbersChain(w, l, t, fork);
  }

  /** Headers that pass `order` stand on an entry of the list, or on null. */
  lemma OrderedBase(w: World, l: ListState, hs: seq<Header>)
    requires Valid(w, l) && hs != [] && Order(w.hash, l, hs).Returned?
    ensures var es, base := Order(w.hash, l, hs).value, hs[0].prev;
      && |es| == |hs| && Stacked(es) && es[0].header.prev == base && es[|es| - 1].hash == w.hash(hs[|hs| - 1])
      && w.Knows(base) && es[0].height == w.Len(base) <= |l.headers|
      && w.ChainOf(base) == l.headers[..w.Len(base)]
  {
    hide Lookup;
    var base := hs[0].prev;
    if base != NULL_HASH {
      IndexAgreesWithSearch(w, l, base);
      var i :| 0 <= i < |l.headers| && l.headers[i] == w.Entry(base);
      w.ChainAt(l.tip, i);
      w.ChainUpTo(l.tip, i);
    }
  }

  /** They are the upper part of the chain of the last one, and all below them
      is in the list. */
  lemma OrderedIsUpper(w: World, l: ListState, hs: seq<Header>)
    requires Valid(w, l) && hs != [] && Order(w.hash, l, hs).Returned? && w.Files(Order(w.hash, l, hs).value)
    ensures var es, u := Order(w.hash, l, hs).value, w.hash(hs[|hs| - 1]);
      && u in w.headers && es != []
      && es[0].height <= CommonPrefix(l.headers, w.ChainOf(u))
      && es == w.ChainOf(u)[es[0].height..]
  {
    hide Order, Stacked;
    OrderedBase(w, l, hs);
    var es, base, k := Order(w.hash, l, hs).value, hs[0].prev, w.Len(hs[0].prev);
    w.ChainLength(base);
    w.ExtendChain(base, es);
    var chain := w.ChainOf(es[|es| - 1].hash);
    assert chain[..k] == l.headers[..k] && chain[k..] == es;
    CommonPrefixIsMax(l.headers, chain, k);
  }

  /** So what gets stored is what a sync to that last header would store. */
  lemma StoresUpper(w: World, n: Node, hs: seq<Header>)
    requires Good(w, n) && hs != []
    requires Order(w.hash, n.list, hs).Returned? && w.Files(Order(w.hash, n.list, hs).value)
    ensures w.hash(hs[|hs| - 1]) in w.headers
    ensures NotSynced(n.synced, Order(w.hash, n.list, hs).value) == ToAdd(w, n, w.hash(hs[|hs| - 1]))
  {
    hide Order, NotSynced, SyncedDepth;
    OrderedIsUpper(w, n.list, hs);
    var u := w.hash(hs[|hs| - 1]);
    ToAddIsSuffix(w, n, u);
    UnsyncedAbove(w, n, u, Order(w.hash, n.list, hs).value[0].height);
  }

  /** A sound disk with another tip key opens exactly when it has that header. */
  lemma OpensIff(w: World, d: Disk, t: BlockHash)
    requires w.Valid() && Sound(w, d)
    ensures Reopened(w.hash, d.(tip := Some(t))).Returned? <==> t == NULL_HASH || t in d.headers
    ensures t == NULL_HASH || t in d.headers ==> Sound(w, d.(tip := Some(t)))
  {
    hide Rebuild;
    if t == NULL_HASH || t in d.headers {
      assert Sound(w, d.(tip := Some(t)));
      ReopenSound(w, d.(tip := Some(t)));
    } else {
      RebuildNeedsTip(w.hash, d.headers, t);
    }
  }

  lemma RebuildNeedsTip(hash: Header -> BlockHash, m: map<BlockHash, Header>, t: BlockHash)
    requires t != NULL_HASH && t !in m
    ensures Rebuild(hash, m, t).Panicked?
  {}

  lemma {:induction false} NotSyncedFrom(synced: set<BlockHash>, es: seq<HeaderEntry>, e: HeaderEntry)
    requires e in NotSynced(synced, es)
    ensures e in es
  {
    if es[0].hash in synced || e != es[0] {
      NotSyncedFrom(synced, es[1..], e);
    }
  }

  /** What is on disk when the sync ends, and when it must end in a panic. */
  lemma StoredDisk(hash: Header -> BlockHash, n: Node, add: seq<HeaderEntry>, t: BlockHash)
    ensures var (n', outcome), d := Stored(hash, n, add, t), Add(n.disk, add).(tip := Some(t));
      && n'.disk == d
      && (Reopened(hash, d).Panicked? && t != n.list.tip && t !in HashesOf(add) ==> outcome.SyncPanicked?)
  {
    hide Add, Rebuild;
  }

  /** The sound disk to which the tip key is added. */
  lemma AddsSound(w: World, n: Node, t: BlockHash, hs: seq<Header>)
    requires Good(w, n)
    requires Order(w.hash, n.list, hs).Returned? && w.Files(Order(w.hash, n.list, hs).value)
    ensures var add := NotSynced(n.synced, Order(w.hash, n.list, hs).value);
      && Sound(w, Add(n.disk, add)) && Add(n.disk, add).headers.Keys == n.synced + HashesOf(add)
      && (hs != [] ==> w.hash(hs[|hs| - 1]) in Add(n.disk, add).headers)
  {
    var add := NotSynced(n.synced, Order(w.hash, n.list, hs).value);
    if hs != [] {
      StoresUpper(w, n, hs);
      PartSound(w, n, w.hash(hs[|hs| - 1]), |add|);
      assert add[..|add|] == add;
    }
    AddMarks(n.disk, add);
  }

  /** The reply for t itself is the only one that no assertion checks; it is fine
      when it was not needed, or hashes to t, or t was synced before. */
  predicate Fine(hash: Header -> BlockHash, n: Node, f: Fetch, t: BlockHash) {
    f.Got? && Order(hash, n.list, f.headers).Returned? ==>
      f.headers == [] || hash(f.headers[|f.headers| - 1]) == t || t in n.synced
  }

  /** What can be opened after syncing to t with any daemon.  If the reply for t
      is not fine, the tip key names a header without a row, the sync panics, and
      so does every later start.  Else the disk is sound. */
  lemma OpenableExactly(w: World, n: Node, d: Daemon, t: BlockHash, hs: seq<Header>)
    requires Good(w, n) && Fetched(w.hash, n.list, d, t) == Got(hs)
    requires Order(w.hash, n.list, hs).Returned? && w.Files(Order(w.hash, n.list, hs).value)
    ensures var (n', outcome) := Received(w.hash, n, hs, t);
      && (Reopened(w.hash, n'.disk).Returned? <==> Fine(w.hash, n, Got(hs), t))
      && (Fine(w.hash, n, Got(hs), t) ==> Sound(w, n'.disk))
      && (!Fine(w.hash, n, Got(hs), t) ==> outcome.SyncPanicked?)
      && n'.disk == Add(n.disk, NotSynced(n.synced, Order(w.hash, n.list, hs).value)).(tip := Some(t))
  {
    hide Order, NotSynced, Add, Reopened, Stored, Sound;
    var es := Order(w.hash, n.list, hs).value;
    var add := NotSynced(n.synced, es);
    AddsSound(w, n, t, hs);
    OpensIff(w, Add(n.disk, add), t);
    StoredDisk(w.hash, n, add, t);
    OrderedHashes(w, n, t, hs);
    OnlyTipUnchecked(w.hash, n.list, d, t, hs);
  }

  /** The outcome of a sync to t for which headers arrive that pass `order`: it
      panics exactly when the reply for t is not fine or the chain of the newest
      header overhangs the list; else the list is the chain of t. */
  lemma ReceivedExactly(w: World, n: Node, d: Daemon, t: BlockHash, hs: seq<Header>)
    requires Good(w, n) && Fetched(w.hash, n.list, d, t) == Got(hs)
    requires Order(w.hash, n.list, hs).Returned? && w.Files(Order(w.hash, n.list, hs).value)
    ensures hs != [] ==> w.hash(hs[|hs| - 1]) in w.headers
    ensures var (n', outcome) := Received(w.hash, n, hs, t);
      && (outcome.SyncPanicked? <==>
            !Fine(w.hash, n, Got(hs), t) || (hs != [] && Overhang(w, n, w.hash(hs[|hs| - 1]))))
      && (outcome.Synced? || outcome.TryAgain? ==> Good(w, n') && n'.list.tip == t)
      && !outcome.DaemonFailed?
  {
    hide Order, NotSynced, Add, Sound, Overhang, Fine, Applied, Settled;
    OpenableExactly(w, n, d, t, hs);
    var add := NotSynced(n.synced, Order(w.hash, n.list, hs).value);
    ReceivedApplies(w, n, hs);
    if Fine(w.hash, n, Got(hs), t) {
      AddMarks(n.disk, add);
      var stored := Node(Add(n.disk, add).(tip := Some(t)), n.synced + HashesOf(add), n.list);
      SettledSound(w, stored, add, t);
    }
  }

  lemma ReceivedApplies(w: World, n: Node, hs: seq<Header>)
    requires Good(w, n)
    requires Order(w.hash, n.list, hs).Returned? && w.Files(Order(w.hash, n.list, hs).value)
    ensures var applied := Applied(n.list, NotSynced(n.synced, Order(w.hash, n.list, hs).value));
      && (hs == [] ==> applied.Returned?)
      && (hs != [] ==> w.hash(hs[|hs| - 1]) in w.headers &&
                       (applied.Panicked? <==> Overhang(w, n, w.hash(hs[|hs| - 1]))))
      && (applied.Returned? ==> Valid(w, applied.value))
  {
    if hs != [] {
      hide Order, NotSynced, Applied, Overhang, Direct;
      StoresUpper(w, n, hs);
      ApplySuffix(w, n, w.hash(hs[|hs| - 1]));
      ApplySuffixValid(w, n, w.hash(hs[|hs| - 1]));
    }
  }

  /** Applying and reloading over a sound disk. */
  lemma SettledSound(w: World, n: Node, add: seq<HeaderEntry>, t: BlockHash)
    requires w.Valid() && Sound(w, n.disk) && n.disk.tip == Some(t) && n.synced == n.disk.done
    requires Applied(n.list, add).Returned? ==> Valid(w, Applied(n.list, add).value)
    ensures var (n', outcome) := Settled(w.hash, n, add, t);
      && (outcome.SyncPanicked? <==> Applied(n.list, add).Panicked?)
      && (!outcome.SyncPanicked? ==> Good(w, n') && n'.list.tip == t)
      && !outcome.DaemonFailed?
  {
    hide Applied, Reopened, Sound;
    ReopenSound(w, n.disk);
  }

  lemma OrderedHashes(w: World, n: Node, t: BlockHash, hs: seq<Header>)
    requires Good(w, n) && Order(w.hash, n.list, hs).Returned?
    ensures Linked(w.hash, hs)
    ensures (forall i :: 0 <= i < |hs| ==> w.hash(hs[i]) != t) ==>
      t !in HashesOf(NotSynced(n.synced, Order(w.hash, n.list, hs).value))
    ensures t != NULL_HASH && t !in n.synced ==> t != n.list.tip
    ensures Lookup(n.list, t).Some? ==> t in n.synced
  {
    hide NotSynced;
    var es := Order(w.hash, n.list, hs).value;
    forall e | e in NotSynced(n.synced, es)
      ensures e in es
    {
      NotSyncedFrom(n.synced, es, e);
    }
    ListIsSynced(w, n);
  }

  /** An instance: after a sync to 2 the daemon reports an unknown tip and answers
      with header 3 when asked for it.  No later start can open the database. */
  lemma WrongTipReply(w: World, t: BlockHash)
    requires Three(w) && t != NULL_HASH && t !in w.headers
    ensures var n := Sync(w, NEW_NODE, 2).0;
      var f := Fetched(w.hash, n.list, Daemon(map[t := Some(w.headers[3])], map[], map[]), t);
      && f == Got([w.headers[3]]) && Plausible(w, n.list, f)
      && SyncFrom(w.hash, n, f, t).1.SyncPanicked?
      && Reopened(w.hash, SyncFrom(w.hash, n, f, t).0.disk).Panicked?
  {
    hide Sync, Received, Reopened, Order, Fetched, Lookup;
    ThreeSynced(w);
    var n, d := Sync(w, NEW_NODE, 2).0, Daemon(map[t := Some(w.headers[3])], map[], map[]);
    ThreeOrder(w, n.list);
    ThreeWalk(w, n.list, d, t);
    OpenableExactly(w, n, d, t, [w.headers[3]]);
  }

  lemma ThreeOrder(w: World, l: ListState)
    requires Three(w) && Valid(w, l) && l.tip == 2
    ensures Lookup(l, 2) == Some(w.Entry(2)) && l.headers != []
    ensures Order(w.hash, l, [w.headers[3]]) == Returned([w.Entry(3)])
  {
    ThreeChains(w);
    assert l.headers[1] == w.Entry(2);
    assert w.Rooted(3) && w.hash(w.headers[3]) == 3;
    assert Numbered(w.hash, 2, [w.headers[3]]) == [w.Entry(3)];
  }

  lemma ThreeWalk(w: World, l: ListState, d: Daemon, t: BlockHash)
    requires Three(w) && Valid(w, l) && l.headers != [] && Lookup(l, 2).Some?
    requires t != NULL_HASH && t !in w.headers && d == Daemon(map[t := Some(w.headers[3])], map[], map[])
    ensures Fetched(w.hash, l, d, t) == Got([w.headers[3]])
  {
    hide Lookup;
    IndexAgreesWithSearch(w, l, t);
    assert WalkBack(d.headers, d.headers.Keys - {t}, l, w.headers[3].prev) == Got([]);
    assert [] + [w.headers[3]] == [w.headers[3]];
  }

  /** What must make the thread panic before anything is written: the download
      failed an assertion, or `order` will, because two neighbours are not linked
      or the lowest header stands neither on null nor on an entry of the list. */
  ghost predicate Unusable(hash: Header -> BlockHash, n: Node, f: Fetch) {
    match f
    case Got(hs) =>
      || (exists i, j :: 0 <= i < |hs| && 0 <= j < |hs| && j == i + 1 && hs[j].prev != hash(hs[i]))
      || (hs != [] && hs[0].prev != 0
          && forall i :: 0 <= i < |n.list.headers| ==> n.list.headers[i].hash != hs[0].prev)
    case Broken => true
    case _ => false
  }

  /** The answers of a sync that writes nothing: a request that failed is the
      daemon's failure and nothing else is; an unusable delivery is a panic; and
      both leave node and disk as they were. */
  lemma UnwrittenAnswers(w: World, n: Node, f: Fetch, t: BlockHash)
    requires Good(w, n) && !f.Endless?
    ensures SyncFrom(w.hash, n, f, t).1.DaemonFailed? <==> f.Refused?
    ensures f.Refused? ==> SyncFrom(w.hash, n, f, t).0 == n
    ensures Unusable(w.hash, n, f) ==> SyncFrom(w.hash, n, f, t) == (n, SyncPanicked)
    ensures f.Refused? || Unusable(w.hash, n, f) <==> Written(w.hash, n, f, t) == []
  {
    hide Order, Stored, NotSynced, Add, Chunked, Lookup;
    if f.Got? {
      OrderPanics(w.hash, n.list, f.headers);
      if f.headers != [] {
        IndexAgreesWithSearch(w, n.list, f.headers[0].prev);
      }
      if Order(w.hash, n.list, f.headers).Returned? {
        StoredNotFailed(w.hash, n, NotSynced(n.synced, Order(w.hash, n.list, f.headers).value), t);
      }
    }
  }

  lemma StoredNotFailed(hash: Header -> BlockHash, n: Node, add: seq<HeaderEntry>, t: BlockHash)
    ensures !Stored(hash, n, add, t).1.DaemonFailed?
  {}

  // ---------- runs ----------

  /** A sync to a tip with some daemon; the process may stop after some of its
      writes and is then started again. */
  datatype Ask = Ask(daemon: Daemon, tip: BlockHash, writes: Option<nat>)

  ghost function Delivery(hash: Header -> BlockHash, n: Node, a: Ask): Fetch {
    Fetched(hash, n.list, a.daemon, a.tip)
  }

  /** A panic is followed by a start, too, and so is a download without end, when
      someone stops it. */
  ghost function AnyStep(hash: Header -> BlockHash, n: Node, a: Ask): Outcome<Node> {
    var f := Delivery(hash, n, a);
    if f.Endless? then Reopened(hash, n.disk) else
      match a.writes
      case None =>
        var (n', outcome) := SyncFrom(hash, n, f, a.tip);
        if outcome.SyncPanicked? then Reopened(hash, n'.disk) else Returned(n')
      case Some(k) =>
        var states := [n.disk] + Written(hash, n, f, a.tip);
        Reopened(hash, states[if k < |states| then k else |states| - 1])
  }

  /** The reply for the tip is fine, or the process stops before it matters. */
  ghost predicate Survives(hash: Header -> BlockHash, n: Node, a: Ask) {
    var f := Delivery(hash, n, a);
    Fine(hash, n, f, a.tip) || (a.writes.Some? && a.writes.value < |Written(hash, n, f, a.tip)|)
  }

  /** Exactly then the database can be opened, and the invariant holds again. */
  lemma AnyStepExactly(w: World, n: Node, a: Ask)
    requires Good(w, n) && Plausible(w, n.list, Delivery(w.hash, n, a))
    ensures AnyStep(w.hash, n, a).Returned? <==> Survives(w.hash, n, a)
    ensures AnyStep(w.hash, n, a).Returned? ==> Good(w, AnyStep(w.hash, n, a).value)
  {
    hide Order, Received, Fetched, Durable, NotSynced, Reopened, Sound, Add;
    var f := Delivery(w.hash, n, a);
    ReopenSound(w, n.disk);
    if f.Got? && Order(w.hash, n.list, f.headers).Returned? {
      OpenableExactly(w, n, a.daemon, a.tip, f.headers);
      ReceivedExactly(w, n, a.daemon, a.tip, f.headers);
      var disk := Received(w.hash, n, f.headers, a.tip).0.disk;
      if Fine(w.hash, n, f, a.tip) {
        ReopenSound(w, disk);
      }
      if a.writes.Some? {
        StopsSound(w, n, f.headers, a.tip, a.writes.value);
      }
    } else {
      NothingWritten(w, n, f, a.tip);
    }
  }

  lemma NothingWritten(w: World, n: Node, f: Fetch, t: BlockHash)
    requires !(f.Got? && Order(w.hash, n.list, f.headers).Returned?)
    ensures !f.Endless? ==> SyncFrom(w.hash, n, f, t).0 == n
    ensures Written(w.hash, n, f, t) == [] && Fine(w.hash, n, f, t)
  {}

  /** Until the last write the disk is sound whatever the reply for t is. */
  lemma StopsSound(w: World, n: Node, hs: seq<Header>, t: BlockHash, k: nat)
    requires Good(w, n)
    requires Order(w.hash, n.list, hs).Returned? && w.Files(Order(w.hash, n.list, hs).value)
    ensures var states := [n.disk] + Written(w.hash, n, Got(hs), t);
      var state := states[if k < |states| then k else |states| - 1];
      if k < |Written(w.hash, n, Got(hs), t)|
      then Reopened(w.hash, state).Returned? && Good(w, Reopened(w.hash, state).value)
      else state == Add(n.disk, NotSynced(n.synced, Order(w.hash, n.list, hs).value)).(tip := Some(t))
  {
    hide Order, NotSynced, Add, Chunked, Reopened, Sound;
    var add := NotSynced(n.synced, Order(w.hash, n.list, hs).value);
    var states := Durable(n.disk, add, t);
    assert [n.disk] + states[1..] == states;
    if k < |states| - 1 {
      var m := DurableIsPrefix(n.disk, add, t, k);
      PrefixSound(w, n, hs, m);
      ReopenSound(w, states[k]);
    }
  }

  lemma PrefixSound(w: World, n: Node, hs: seq<Header>, m: nat)
    requires Good(w, n)
    requires Order(w.hash, n.list, hs).Returned? && w.Files(Order(w.hash, n.list, hs).value)
    requires m <= |NotSynced(n.synced, Order(w.hash, n.list, hs).value)|
    ensures Sound(w, Add(n.disk, NotSynced(n.synced, Order(w.hash, n.list, hs).value)[..m]))
  {
    if hs != [] {
      hide Order, NotSynced, Add, Sound;
      StoresUpper(w, n, hs);
      PartSound(w, n, w.hash(hs[|hs| - 1]), m);
    }
  }

  ghost function AnyRun(hash: Header -> BlockHash, n: Node, asks: seq<Ask>): Outcome<Node>
    decreases |asks|
  {
    if asks == [] then Returned(n) else
      match AnyStep(hash, n, asks[0])
      case Panicked => Panicked
      case Returned(n') => AnyRun(hash, n', asks[1..])
  }

  ghost predicate AllPlausible(w: World, n: Node, asks: seq<Ask>)
    decreases |asks|
  {
    asks != [] ==>
      && Plausible(w, n.list, Delivery(w.hash, n, asks[0]))
      && (AnyStep(w.hash, n, asks[0]).Returned? ==> AllPlausible(w, AnyStep(w.hash, n, asks[0]).value, asks[1..]))
  }

  ghost predicate AllSurvive(hash: Header -> BlockHash, n: Node, asks: seq<Ask>)
    decreases |asks|
  {
    asks != [] ==>
      && Survives(hash, n, asks[0])
      && (AnyStep(hash, n, asks[0]).Returned? ==> AllSurvive(hash, AnyStep(hash, n, asks[0]).value, asks[1..]))
  }

  /** A run of syncs with any daemons, with crashes and restarts, ends in a
      database that opens exactly when every reply for a tip is fine or comes too
      late to matter; and then the invariant holds throughout. */
  lemma {:induction false} AnyRunExactly(w: World, n: Node, asks: seq<Ask>)
    requires Good(w, n) && AllPlausible(w, n, asks)
    ensures AnyRun(w.hash, n, asks).Returned? <==> AllSurvive(w.hash, n, asks)
    ensures AnyRun(w.hash, n, asks).Returned? ==> Good(w, AnyRun(w.hash, n, asks).value)
    decreases |asks|
  {
    hide Plausible, Survives, AnyStep, Good;
    if asks != [] {
      AnyStepExactly(w, n, asks[0]);
      if AnyStep(w.hash, n, asks[0]).Returned? {
        AnyRunExactly(w, AnyStep(w.hash, n, asks[0]).value, asks[1..]);
      }
    }
  }

  /** With an honest daemon these are the steps of the runs of calls and crashes. */
  lemma HonestAsk(w: World, n: Node, a: Ask)
    requires Good(w, n) && a.tip in w.headers && Serving(w, n.list, a.daemon, a.tip)
    ensures Plausible(w, n.list, Delivery(w.hash, n, a)) && Survives(w.hash, n, a)
    ensures AnyStep(w.hash, n, a) ==
      if !Fetches(w, n.list, a.daemon, a.tip) then Step(w, n, if a.writes.None? then CallFails else Crash(a.tip, 0))
      else Step(w, n, if a.writes.None? then Call(a.tip) else Crash(a.tip, a.writes.value))
  {
    hide Sync, SyncFrom, Fetched, Fetches, Reopened, Written;
    HonestSync(w, n, a.daemon, a.tip);
    assert Durable(n.disk, ToAdd(w, n, a.tip), a.tip)
      == [n.disk] + Durable(n.disk, ToAdd(w, n, a.tip), a.tip)[1..];
    AnyStepExactly(w, n, a);
    var e := if a.writes.None? then Call(a.tip) else Crash(a.tip, a.writes.value);
    StepStaysGood(w, n, e);
    StepStaysGood(w, n, if a.writes.None? then CallFails else Crash(a.tip, 0));
  }
}

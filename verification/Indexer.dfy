/** The indexer: one sync step by step, and the thread that repeats it. */
module Indexers {
  import opened Wrappers
  import opened Bytes
  import opened Chain
  import opened Codec
  import opened HeaderLists
  import opened Daemons
  import opened Database
  import opened Stores
  import opened Syncs
  import opened AnyDaemon
  import opened Rounds
  import opened Runs

  const CHUNK_ROWS: nat := 50_000

  /** The database went through these states, one after the other. */
  ghost predicate Shows(log: seq<map<Bytes, Bytes>>, states: seq<Disk>) {
    |log| == |states| && forall i :: 0 <= i < |log| ==> Represents(log[i], states[i])
  }

  class Indexer {
    const store: Store

    constructor (store: Store)
      ensures this.store == store
    {
      this.store := store;
    }

    /** One chunk, written as one batch. */
    method WriteChunk(rows: seq<DBRow>, ghost part: seq<HeaderEntry>)
      requires store.Valid() && rows == Rows(part) && Consistent(part)
      modifies store`disk, store.db
      ensures store.Valid() && store.disk == Add(old(store.disk), part)
      ensures store.db.log == old(store.db.log) + [store.db.rows]
    {
      ghost var before := store.db.rows;
      store.db.Write(rows, Enable);
      WriteRepresents(before, store.disk, part, store.db.rows);
      store.disk := Add(store.disk, part);
    }

    /** Writes the rows in chunks and only then marks the headers as synced. */
    method AddSyncBlockHeader(es: seq<HeaderEntry>)
      requires store.Valid() && Consistent(es)
      modifies store`disk, store`synced, store.db
      ensures store.Valid()
      ensures store.disk == Add(old(store.disk), es)
      ensures store.synced == old(store.synced) + HashesOf(es)
      ensures old(store.db.log) <= store.db.log
      ensures Shows(store.db.log[|old(store.db.log)|..], Chunked(old(store.disk), es))
    {
      hide Add, Chunked, Represents, Shows, Rows;
      var rows := AddSyncHeaders(es);
      ghost var rest, first, states := es, |store.db.log|, [];
      ShowsNothing();
      assert store.db.log[first..] == [];
      while rows != []
        invariant rows == Rows(rest) && Consistent(rest) && store.Valid()
        invariant store.synced == old(store.synced)
        invariant Add(store.disk, rest) == Add(old(store.disk), es)
        invariant old(store.db.log) <= store.db.log && Shows(store.db.log[first..], states)
        invariant states + Chunked(store.disk, rest) == Chunked(old(store.disk), es)
        decreases |rows|
      {
        ghost var k := if CHUNK_HEADERS < |rest| then CHUNK_HEADERS else |rest|;
        ghost var before, log := store.disk, store.db.log;
        RowsSplit(rest, k);
        ChunkStep(before, rest);
        var size := if CHUNK_ROWS < |rows| then CHUNK_ROWS else |rows|;
        WriteChunk(rows[..size], rest[..k]);
        rows := rows[size..];
        rest := rest[k..];
        ShowsOneMore(log[first..], states, store.db.rows, store.disk);
        assert store.db.log[first..] == log[first..] + [store.db.rows];
        states := states + [store.disk];
      }
      AddNothing(store.disk);
      assert rest == [] && states + [] == states;
      store.synced := store.synced + HashesOf(es);
    }

    /** The headers that are not marked as synced yet. */
    function SyncHeadersToAdd(newHeaders: seq<HeaderEntry>): seq<HeaderEntry>
      reads store
    {
      NotSynced(store.synced, newHeaders)
    }

    /** Headers first, then the tip key. */
    method Persist(es: seq<HeaderEntry>, tip: BlockHash)
      requires store.Valid() && Consistent(es)
      modifies store`disk, store`synced, store.db
      ensures store.Valid()
      ensures store.disk == Add(old(store.disk), es).(tip := Some(tip))
      ensures store.synced == old(store.synced) + HashesOf(es)
      ensures old(store.db.log) <= store.db.log
      ensures Shows(store.db.log[|old(store.db.log)|..], Durable(old(store.disk), es, tip)[1..])
    {
      hide Add, Chunked, Represents;
      AddSyncBlockHeader(es);
      TipRepresents(store.db.rows, store.disk, tip);
      store.db.PutSync(TIP_KEY, WriteHash(tip));
      store.disk := store.disk.(tip := Some(tip));
    }

    /** Apply, compare the tips, and reload when they differ. */
    method Settle(toAdd: seq<HeaderEntry>, tip: BlockHash) returns (outcome: SyncOutcome)
      requires store.Valid()
      requires var applied := Applied(store.syncHeaders.State(), toAdd);
        applied.Returned? ==> TipIsLast(applied.value)
      modifies store, store.syncHeaders
      ensures store.Valid() && (store.syncHeaders == old(store.syncHeaders) || fresh(store.syncHeaders))
      ensures (store.Node(), outcome) == Settled(store.hash, old(store.Node()), toAdd, tip)
    {
      hide Applied, Reopened, Represents;
      var list := store.syncHeaders;
      var applied := list.Apply(toAdd);
      if applied.Panicked? {
        return SyncPanicked;
      }
      var current := list.Tip();
      if current.value == tip {
        return Synced;
      }
      var reloaded := store.ReloadStore();
      outcome := if reloaded.Panicked? then SyncPanicked else TryAgain;
    }

    /** One sync, whatever the daemon answers, as long as its answers end and
        what passes `order` is filed in the world. */
    method SyncHeaders(ghost w: World, daemon: Daemon, tip: BlockHash) returns (outcome: SyncOutcome)
      requires store.Valid() && store.hash == w.hash && Good(w, store.Node())
      requires var f := Fetched(w.hash, store.Node().list, daemon, tip);
        !f.Endless? && Plausible(w, store.Node().list, f)
      modifies store, store.db, store.syncHeaders
      ensures store.Valid() && (store.syncHeaders == old(store.syncHeaders) || fresh(store.syncHeaders))
      ensures old(store.db.log) <= store.db.log
      ensures var n := old(store.Node());
        var f := Fetched(w.hash, n.list, daemon, tip);
        && (store.Node(), outcome) == SyncFrom(w.hash, n, f, tip)
        && Shows(store.db.log[|old(store.db.log)|..], Written(w.hash, n, f, tip))
    {
      hide NotSynced, Add, Chunked, Applied, Settled, Order, Fetched, Durable, Represents;
      ghost var n := store.Node();
      ghost var f := Fetched(w.hash, n.list, daemon, tip);
      assert store.db.log[|store.db.log|..] == [];
      ShowsNothing();
      var fetched := daemon.GetNewHeaders(store.syncHeaders, tip);
      if fetched.Panicked? {
        return SyncPanicked;
      }
      if fetched.value.Err? {
        return DaemonFailed;
      }
      var ordered := store.syncHeaders.InOrder(fetched.value.value);
      if ordered.Panicked? {
        return SyncPanicked;
      }
      var toAdd := SyncHeadersToAdd(ordered.value);
      ToAddUsable(w, n, ordered.value);
      Persist(toAdd, tip);
      outcome := Settle(toAdd, tip);
    }
  }

  predicate TipIsLast(l: ListState) {
    l.tip == if l.headers == [] then NULL_HASH else l.headers[|l.headers| - 1].hash
  }

  lemma ToAddUsable(w: World, n: Node, es: seq<HeaderEntry>)
    requires Good(w, n) && w.Files(es)
    ensures Consistent(NotSynced(n.synced, es))
    ensures Applied(n.list, NotSynced(n.synced, es)).Returned? ==>
      TipIsLast(Applied(n.list, NotSynced(n.synced, es)).value)
  {
    hide NotSynced;
    var add := NotSynced(n.synced, es);
    forall i | 0 <= i < |add|
      ensures add[i].hash in w.headers && w.headers[add[i].hash] == add[i].header
    {
      NotSyncedFrom(n.synced, es, add[i]);
    }
    ApplyKeepsValid(w, n.list, add);
    if Applied(n.list, add).Returned? {
      ValidMeans(w, Applied(n.list, add).value);
    }
  }

  /** Opening the rows that a crash left behind, at any point of a sync to t:
      it succeeds and the list is the chain of the old tip or of t. */
  method Restart(ghost w: World, hash: Header -> BlockHash, db: DB, ghost n: Node, ghost t: BlockHash, ghost k: nat)
    returns (r: Outcome<Store>)
    requires Good(w, n) && hash == w.hash && t in w.headers && k < |Durable(n.disk, ToAdd(w, n, t), t)|
    requires Represents(db.rows, Durable(n.disk, ToAdd(w, n, t), t)[k])
    requires [0x56] in db.rows ==> db.rows[[0x56]] == [2, 0, 0, 0]
    modifies db
    ensures r.Returned? && r.value.Valid() && Good(w, r.value.Node())
    ensures r.value.syncHeaders.headers
      == w.ChainOf(if k == |Durable(n.disk, ToAdd(w, n, t), t)| - 1 then t else n.list.tip)
  {
    hide Durable, ToAdd, Reopened;
    CrashConsistent(w, n, t, k);
    r := Store.Open(hash, db, Durable(n.disk, ToAdd(w, n, t), t)[k]);
  }

  /** The thread, as far as it has got, with r the loop's `tip`, is where p says. */
  ghost predicate At(store: Store, r: Outcome<BlockHash>, p: Progress)
    reads store, store.syncHeaders
  {
    match p
    case Going(s) => r == Returned(s.tip) && store.Node() == s.node
    case Ended(_, _, disk) => r.Panicked? && store.disk == disk
    case Stuck => false
  }

  /** One round of the loop, given the loop's `tip`. */
  method PollOnce(ghost w: World, indexer: Indexer, tip: BlockHash, round: Round) returns (r: Outcome<BlockHash>)
    requires indexer.store.Valid() && indexer.store.hash == w.hash && Good(w, indexer.store.Node())
    requires RoundHeard(w, LoopState(indexer.store.Node(), tip), round)
    modifies indexer.store, indexer.store.db, indexer.store.syncHeaders
    ensures indexer.store.Valid()
    ensures indexer.store.syncHeaders == old(indexer.store.syncHeaders) || fresh(indexer.store.syncHeaders)
    ensures At(indexer.store, r, RoundStep(w.hash, LoopState(old(indexer.store.Node()), tip), round))
  {
    hide SyncFrom, Fetched, Written;
    if round.best.None? || round.best.value == tip {
      return Returned(tip);
    }
    var outcome := indexer.SyncHeaders(w, round.daemon, round.best.value);
    r := match outcome
      case Synced => Returned(round.best.value)
      case TryAgain => Returned(tip)
      case DaemonFailed => Returned(tip)
      case SyncPanicked => Panicked;
  }

  /** The thread with any daemons: the first sync must succeed at once; then it
      polls, for as many rounds as are given.  The result is the loop's `tip`. */
  method StartIndexer(ghost w: World, indexer: Indexer, first: Round, rounds: seq<Round>)
    returns (r: Outcome<BlockHash>)
    requires indexer.store.Valid() && indexer.store.hash == w.hash && Good(w, indexer.store.Node())
    requires ThreadHeard(w, indexer.store.Node(), first, rounds)
    modifies indexer.store, indexer.store.db, indexer.store.syncHeaders
    ensures indexer.store.Valid()
    ensures At(indexer.store, r, ThreadRun(w.hash, old(indexer.store.Node()), first, rounds))
  {
    hide SyncFrom, Fetched, Written, RoundStep, RoundHeard, Plausible, Good;
    ghost var n := indexer.store.Node();
    if first.best.None? {
      return Panicked;
    }
    StartEndsWell(w, n, first);
    var tip := first.best.value;
    var outcome := indexer.SyncHeaders(w, first.daemon, tip);
    if outcome != Synced {
      return Panicked;
    }
    for i := 0 to |rounds|
      invariant indexer.store.Valid() && Good(w, indexer.store.Node())
      invariant indexer.store.syncHeaders == old(indexer.store.syncHeaders) || fresh(indexer.store.syncHeaders)
      invariant RoundsHeard(w, LoopState(indexer.store.Node(), tip), rounds[i..])
      invariant ThreadRun(w.hash, n, first, rounds) == RoundsRun(w.hash, LoopState(indexer.store.Node(), tip), rounds[i..])
    {
      assert rounds[i..][0] == rounds[i] && rounds[i..][1..] == rounds[i + 1..];
      RoundEndsWell(w, LoopState(indexer.store.Node(), tip), rounds[i]);
      var result := PollOnce(w, indexer, tip, rounds[i]);
      if result.Panicked? {
        return Panicked;
      }
      tip := result.value;
    }
    assert rounds[|rounds|..] == [];
    r := Returned(tip);
  }

  lemma ChunkStep(d: Disk, es: seq<HeaderEntry>)
    requires es != []
    ensures var k := if CHUNK_HEADERS < |es| then CHUNK_HEADERS else |es|;
      && Add(Add(d, es[..k]), es[k..]) == Add(d, es)
      && Chunked(d, es) == [Add(d, es[..k])] + Chunked(Add(d, es[..k]), es[k..])
  {
    var k := if CHUNK_HEADERS < |es| then CHUNK_HEADERS else |es|;
    AddTwice(d, es[..k], es[k..]);
    assert es[..k] + es[k..] == es;
  }

  lemma ShowsNothing()
    ensures Shows([], [])
  {}

  lemma ShowsOneMore(log: seq<map<Bytes, Bytes>>, states: seq<Disk>, m: map<Bytes, Bytes>, d: Disk)
    requires Shows(log, states) && Represents(m, d)
    ensures Shows(log + [m], states + [d])
  {}

  lemma AddNothing(d: Disk)
    ensures Add(d, []) == d && Chunked(d, []) == []
  {}
}

/** What one header sync does to the database and to memory, and what holds over
    whole runs of syncs, crashes and restarts. */
module Syncs {
  import opened Wrappers
  import opened Chain
  import opened HeaderLists
  import opened Daemons

  /** The database as the store reads it: header rows, done rows and the tip key. */
  datatype Disk = Disk(
    headers: map<BlockHash, Header>, done: set<BlockHash>, tip: Option<BlockHash>)

  /** The disk and what the running process keeps in memory. */
  datatype Node = Node(disk: Disk, synced: set<BlockHash>, list: ListState)

  datatype SyncOutcome = Synced | TryAgain | DaemonFailed | SyncPanicked

  const NEW_DISK := Disk(map[], {}, None)
  const NEW_NODE := Node(NEW_DISK, {}, EMPTY)

  /** 50000 rows, two for each header. */
  const CHUNK_HEADERS: nat := 25_000

  // ---------- one sync ----------

  function Add(d: Disk, es: seq<HeaderEntry>): Disk {
    if es == [] then d else
      var below := Add(d, es[..|es| - 1]);
      var e := es[|es| - 1];
      Disk(below.headers[e.hash := e.header], below.done + {e.hash}, below.tip)
  }

  /** The disk after each chunk. */
  function Chunked(d: Disk, es: seq<HeaderEntry>): seq<Disk>
    decreases |es|
  {
    if es == [] then [] else
      var n := if CHUNK_HEADERS < |es| then CHUNK_HEADERS else |es|;
      var d' := Add(d, es[..n]);
      [d'] + Chunked(d', es[n..])
  }

  /** Every state the disk goes through, from before the first write to after the last. */
  function Durable(d: Disk, es: seq<HeaderEntry>, tip: BlockHash): (states: seq<Disk>)
    ensures states != []
  {
    [d] + Chunked(d, es) + [Add(d, es).(tip := Some(tip))]
  }

  function NotSynced(synced: set<BlockHash>, es: seq<HeaderEntry>): seq<HeaderEntry> {
    if es == [] then []
    else if es[0].hash in synced then NotSynced(synced, es[1..])
    else [es[0]] + NotSynced(synced, es[1..])
  }

  /** `Store::open` and `reload_store`. */
  function Reopened(hash: Header -> BlockHash, d: Disk): Outcome<Node> {
    if d.tip.None? then Returned(Node(d, d.done, EMPTY)) else
      match Rebuild(hash, d.headers, d.tip.value)
      case Panicked => Panicked
      case Returned(l) => Returned(Node(d, d.done, l))
  }

  ghost function ToAdd(w: World, n: Node, tip: BlockHash): seq<HeaderEntry>
    requires w.Valid() && w.Knows(tip)
  {
    NotSynced(n.synced, NewEntries(w, n.list, tip))
  }

  /** The end of a sync, when everything is on disk: apply the new headers, and
      reload if the list then has another tip. */
  function Settled(hash: Header -> BlockHash, n: Node, add: seq<HeaderEntry>, tip: BlockHash): (Node, SyncOutcome) {
    match Applied(n.list, add)
    case Panicked => (n, SyncPanicked)
    case Returned(l) =>
      if l.tip == tip then (n.(list := l), Synced) else
        match Reopened(hash, n.disk)
        case Panicked => (n.(list := l), SyncPanicked)
        case Returned(n') => (n', TryAgain)
  }

  /** The new headers and the tip go to disk, then into the list. */
  function Stored(hash: Header -> BlockHash, n: Node, add: seq<HeaderEntry>, tip: BlockHash): (Node, SyncOutcome) {
    Settled(hash, Node(Add(n.disk, add).(tip := Some(tip)), n.synced + HashesOf(add), n.list), add, tip)
  }

  /** `sync_headers` after these headers have arrived. */
  function Received(hash: Header -> BlockHash, n: Node, hs: seq<Header>, tip: BlockHash): (Node, SyncOutcome) {
    match Order(hash, n.list, hs)
    case Panicked => (n, SyncPanicked)
    case Returned(es) => Stored(hash, n, NotSynced(n.synced, es), tip)
  }

  /** `sync_headers` for whatever the daemon delivers. */
  function SyncFrom(hash: Header -> BlockHash, n: Node, f: Fetch, tip: BlockHash): (Node, SyncOutcome)
    requires !f.Endless?
  {
    match f
    case Got(hs) => Received(hash, n, hs, tip)
    case Refused => (n, DaemonFailed)
    case Broken => (n, SyncPanicked)
  }

  /** The states the disk goes through meanwhile. */
  function Written(hash: Header -> BlockHash, n: Node, f: Fetch, tip: BlockHash): seq<Disk> {
    if f.Got? && Order(hash, n.list, f.headers).Returned?
    then Durable(n.disk, NotSynced(n.synced, Order(hash, n.list, f.headers).value), tip)[1..] else []
  }

  /** `sync_headers` once an honest daemon has answered. */
  ghost function Sync(w: World, n: Node, tip: BlockHash): (Node, SyncOutcome)
    requires w.Valid() && w.Knows(tip)
  {
    Stored(w.hash, n, ToAdd(w, n, tip), tip)
  }

  // ---------- the invariants the code relies on ----------

  /** Header rows and done rows go together, are true, have their predecessors,
      and include the stored tip. */
  ghost predicate Sound(w: World, d: Disk) {
    && d.headers.Keys == d.done
    && Filed(w, d.headers)
    && (forall h {:trigger Founded(d.headers, h)} :: h in d.headers ==> Founded(d.headers, h))
    && (d.tip.Some? ==> d.tip.value == NULL_HASH || d.tip.value in d.headers)
  }

  ghost predicate Founded(m: map<BlockHash, Header>, h: BlockHash)
    requires h in m
  {
    m[h].prev == NULL_HASH || m[h].prev in m
  }

  ghost predicate Good(w: World, n: Node) {
    && w.Valid() && Sound(w, n.disk)
    && n.synced == n.disk.done
    && Valid(w, n.list)
    && n.list.tip == (if n.disk.tip.Some? then n.disk.tip.value else NULL_HASH)
  }

  /** How far up a chain everything is already marked synced. */
  function SyncedDepth(synced: set<BlockHash>, chain: seq<HeaderEntry>): (k: nat)
    ensures k <= |chain|
    ensures forall i :: 0 <= i < k ==> chain[i].hash in synced
    ensures k < |chain| ==> chain[k].hash !in synced
  {
    if chain == [] || chain[0].hash !in synced then 0
    else 1 + SyncedDepth(synced, chain[1..])
  }

  /** A sound disk that has a header has its whole chain. */
  lemma {:induction false} SoundHasChain(w: World, d: Disk, t: BlockHash, i: nat)
    requires w.Valid() && Sound(w, d) && w.Knows(t) && i < |w.ChainOf(t)| && w.ChainOf(t)[i].hash in d.headers
    ensures forall j :: 0 <= j <= i ==> w.ChainOf(t)[j].hash in d.headers
    decreases i
  {
    w.ChainAt(t, i);
    w.ChainLinks(t, i);
    assert Founded(d.headers, w.ChainOf(t)[i].hash);
    if i > 0 {
      w.ChainAt(t, i - 1);
      SoundHasChain(w, d, t, i - 1);
    }
  }

  /** Reopening never panics on a sound disk: it gives the chain of the stored tip. */
  lemma ReopenSound(w: World, d: Disk)
    requires w.Valid() && Sound(w, d)
    ensures Reopened(w.hash, d).Returned? && Reopened(w.hash, d).value.disk == d
    ensures Good(w, Reopened(w.hash, d).value)
  {
    if d.tip.Some? {
      var t := d.tip.value;
      w.ChainLength(t);
      if t != NULL_HASH {
        SoundHasChain(w, d, t, |w.ChainOf(t)| - 1);
      }
      RebuildGivesChain(w, d.headers, t);
    }
  }

  // ---------- adding the upper part of a chain ----------

  /** Writing a run of a chain whose predecessor is on disk keeps the disk sound. */
  lemma {:induction false} AddKeepsSound(w: World, d: Disk, t: BlockHash, lo: nat, hi: nat)
    requires w.Valid() && Sound(w, d) && w.Knows(t) && lo <= hi <= |w.ChainOf(t)|
    requires lo > 0 ==> w.ChainOf(t)[lo - 1].hash in d.headers
    ensures var d' := Add(d, w.ChainOf(t)[lo..hi]);
      && Sound(w, d') && d'.tip == d.tip
      && (hi > 0 ==> w.ChainOf(t)[hi - 1].hash in d'.headers)
    decreases hi
  {
    hide World.ChainOf, Sound, Add;
    if lo == hi {
      AddNone(d, w.ChainOf(t)[lo..hi]);
    } else {
      AddKeepsSound(w, d, t, lo, hi - 1);
      var below, e := w.ChainOf(t)[lo..hi - 1], w.ChainOf(t)[hi - 1];
      assert w.ChainOf(t)[lo..hi] == below + [e];
      AddLast(d, below, e);
      PushKeepsSound(w, Add(d, below), t, hi - 1);
    }
  }

  lemma AddNone(d: Disk, es: seq<HeaderEntry>)
    requires es == []
    ensures Add(d, es) == d
  {}

  lemma AddLast(d: Disk, below: seq<HeaderEntry>, e: HeaderEntry)
    ensures var d' := Add(d, below);
      Add(d, below + [e]) == Disk(d'.headers[e.hash := e.header], d'.done + {e.hash}, d'.tip)
  {
    assert (below + [e])[..|below|] == below;
  }

  lemma {:induction false} AddMarks(d: Disk, es: seq<HeaderEntry>)
    ensures Add(d, es).done == d.done + HashesOf(es)
    decreases |es|
  {
    if es != [] {
      AddMarks(d, es[..|es| - 1]);
      assert es == es[..|es| - 1] + [es[|es| - 1]];
      assert HashesOf(es) == HashesOf(es[..|es| - 1]) + {es[|es| - 1].hash};
    }
  }

  lemma PushKeepsSound(w: World, d: Disk, t: BlockHash, i: nat)
    requires w.Valid() && Sound(w, d) && w.Knows(t) && i < |w.ChainOf(t)|
    requires i > 0 ==> w.ChainOf(t)[i - 1].hash in d.headers
    ensures var e := w.ChainOf(t)[i];
      var d' := Disk(d.headers[e.hash := e.header], d.done + {e.hash}, d.tip);
      Sound(w, d') && e.hash in d'.headers
  {
    hide World.ChainOf;
    var e := w.ChainOf(t)[i];
    w.ChainAt(t, i);
    w.ChainLinks(t, i);
    var d' := Disk(d.headers[e.hash := e.header], d.done + {e.hash}, d.tip);
    forall h | h in d'.headers
      ensures Founded(d'.headers, h)
    {
      assert h != e.hash ==> Founded(d.headers, h);
    }
  }

  /** Chunks are written in height order, so a stop between two chunks leaves a
      disk to which only a lower part of the headers was added. */
  lemma {:induction false} ChunkIsPrefix(d: Disk, es: seq<HeaderEntry>, i: nat) returns (n: nat)
    requires i < |Chunked(d, es)|
    ensures n <= |es| && Chunked(d, es)[i] == Add(d, es[..n])
    decreases |es|
  {
    n := if CHUNK_HEADERS < |es| then CHUNK_HEADERS else |es|;
    if i > 0 {
      var m := ChunkIsPrefix(Add(d, es[..n]), es[n..], i - 1);
      AddTwice(d, es[..n], es[n..][..m]);
      assert es[..n] + es[n..][..m] == es[..n + m];
      n := n + m;
    }
  }

  lemma {:induction false} AddTwice(d: Disk, a: seq<HeaderEntry>, b: seq<HeaderEntry>)
    ensures Add(Add(d, a), b) == Add(d, a + b)
    decreases |b|
  {
    if b == [] {
      assert a + b == a;
    } else {
      var below := b[..|b| - 1];
      AddTwice(d, a, below);
      assert (a + b)[..|a + b| - 1] == a + below;
    }
  }

  /** Chunk by chunk 25000 headers more are on disk. */
  lemma {:induction false} ChunkedExactly(d: Disk, es: seq<HeaderEntry>, i: nat)
    ensures |Chunked(d, es)| == (|es| + 24_999) / 25_000
    ensures i < |Chunked(d, es)| ==>
      Chunked(d, es)[i] == Add(d, es[..if 25_000 * (i + 1) < |es| then 25_000 * (i + 1) else |es|])
    decreases |es|
  {
    if es != [] {
      hide Add;
      var n := if 25_000 < |es| then 25_000 else |es|;
      ChunkedExactly(Add(d, es[..n]), es[n..], if i > 0 then i - 1 else 0);
      if 0 < i < |Chunked(d, es)| {
        var m := if 25_000 * i < |es[n..]| then 25_000 * i else |es[n..]|;
        AddTwice(d, es[..n], es[n..][..m]);
        assert es[..n] + es[n..][..m] == es[..n + m];
      }
    }
  }

  // ---------- what is new and what is already synced ----------

  /** Filtering out synced hashes leaves exactly the part of the chain above the
      synced depth: a contiguous suffix of the new headers. */
  lemma ToAddIsSuffix(w: World, n: Node, t: BlockHash)
    requires Good(w, n) && w.Knows(t)
    ensures CommonPrefix(n.list.headers, w.ChainOf(t)) <= SyncedDepth(n.synced, w.ChainOf(t))
    ensures ToAdd(w, n, t) == w.ChainOf(t)[SyncedDepth(n.synced, w.ChainOf(t))..]
  {
    var chain := w.ChainOf(t);
    var fork, depth := CommonPrefix(n.list.headers, chain), SyncedDepth(n.synced, chain);
    ForkIsSynced(w, n, t);
    UnsyncedAbove(w, n, t, fork);
  }

  lemma UnsyncedAbove(w: World, n: Node, t: BlockHash, k: nat)
    requires Good(w, n) && w.Knows(t) && k <= SyncedDepth(n.synced, w.ChainOf(t))
    ensures NotSynced(n.synced, w.ChainOf(t)[k..]) == w.ChainOf(t)[SyncedDepth(n.synced, w.ChainOf(t))..]
  {
    var chain, depth := w.ChainOf(t), SyncedDepth(n.synced, w.ChainOf(t));
    forall i | depth <= i < |chain|
      ensures chain[i].hash !in n.synced
    {
      if chain[i].hash in n.synced {
        SoundHasChain(w, n.disk, t, i);
      }
    }
    FilterSplits(n.synced, chain[k..], depth - k);
    assert chain[k..][depth - k..] == chain[depth..];
  }

  lemma ForkIsSynced(w: World, n: Node, t: BlockHash)
    requires Good(w, n) && w.Knows(t)
    ensures CommonPrefix(n.list.headers, w.ChainOf(t)) <= SyncedDepth(n.synced, w.ChainOf(t))
  {
    var fork, depth := CommonPrefix(n.list.headers, w.ChainOf(t)), SyncedDepth(n.synced, w.ChainOf(t));
    ListIsSynced(w, n);
    forall i | 0 <= i < fork
      ensures w.ChainOf(t)[i].hash in n.synced
    {
      assert n.list.headers[..fork][i] == w.ChainOf(t)[..fork][i];
    }
  }

  lemma ListIsSynced(w: World, n: Node)
    requires Good(w, n)
    ensures forall i :: 0 <= i < |n.list.headers| ==> n.list.headers[i].hash in n.synced
  {
    if n.list.headers != [] {
      w.ChainLength(n.list.tip);
      SoundHasChain(w, n.disk, n.list.tip, |n.list.headers| - 1);
    }
  }

  lemma {:induction false} FilterSplits(synced: set<BlockHash>, es: seq<HeaderEntry>, k: nat)
    requires k <= |es|
    requires forall i :: 0 <= i < k ==> es[i].hash in synced
    requires forall i :: k <= i < |es| ==> es[i].hash !in synced
    ensures NotSynced(synced, es) == es[k..]
    decreases |es|
  {
    if es != [] {
      FilterSplits(synced, es[1..], if k > 0 then k - 1 else 0);
      assert es == [es[0]] + es[1..];
    }
  }

  // ---------- main results about one sync ----------

  /** The disk is sound at every point at which the process may stop, and the
      stored tip is the old one or the new one. */
  lemma DurableSound(w: World, n: Node, t: BlockHash, k: nat)
    requires Good(w, n) && t in w.headers && k < |Durable(n.disk, ToAdd(w, n, t), t)|
    ensures var states := Durable(n.disk, ToAdd(w, n, t), t);
      && Sound(w, states[k])
      && states[k].tip == (if k == |states| - 1 then Some(t) else n.disk.tip)
      && (k == |states| - 1 ==> states[k].done == n.synced + HashesOf(ToAdd(w, n, t)))
  {

    var add := ToAdd(w, n, t);
    var m := DurableIsPrefix(n.disk, add, t, k);
    PartSound(w, n, t, m);
    AddMarks(n.disk, add[..m]);
  }

  /** Adding any lower part of the unsynced headers keeps the disk sound; with
      all of them added the new tip is there. */
  lemma PartSound(w: World, n: Node, t: BlockHash, m: nat)
    requires Good(w, n) && t in w.headers && m <= |ToAdd(w, n, t)|
    ensures var d := Add(n.disk, ToAdd(w, n, t)[..m]);
      Sound(w, d) && d.tip == n.disk.tip && (m == |ToAdd(w, n, t)| ==> t in d.headers)
  {
    hide World.ChainOf, ToAdd, Add, Sound, CommonPrefix;
    var chain, depth := w.ChainOf(t), SyncedDepth(n.synced, w.ChainOf(t));
    ToAddIsSuffix(w, n, t);
    DepthIsSynced(w, n, t);
    assert ToAdd(w, n, t)[..m] == chain[depth..depth + m];
    w.ChainLength(t);
    AddKeepsSound(w, n.disk, t, depth, depth + m);
  }

  lemma DepthIsSynced(w: World, n: Node, t: BlockHash)
    requires Good(w, n) && t in w.headers
    ensures w.Valid() && Sound(w, n.disk)
    ensures var depth := SyncedDepth(n.synced, w.ChainOf(t));
      depth > 0 ==> w.ChainOf(t)[depth - 1].hash in n.disk.headers
  {}

  /** Whenever the process stops, some lower part of the headers has been added,
      and all of them once the tip key is written. */
  lemma DurableIsPrefix(d: Disk, es: seq<HeaderEntry>, tip: BlockHash, k: nat) returns (m: nat)
    requires k < |Durable(d, es, tip)|
    ensures m <= |es|
    ensures var states := Durable(d, es, tip);
      if k == |states| - 1 then es[..m] == es && states[k] == Add(d, es[..m]).(tip := Some(tip))
      else states[k] == Add(d, es[..m])
  {
    var states := Durable(d, es, tip);
    assert es[..|es|] == es;
    if k == 0 {
      m := 0;
    } else if k < |states| - 1 {
      m := ChunkIsPrefix(d, es, k - 1);
    } else {
      m := |es|;
    }
  }

  /** A crash anywhere in a sync followed by a restart: opening succeeds and
      yields the chain of the old tip or of the new one. */
  lemma CrashConsistent(w: World, n: Node, t: BlockHash, k: nat)
    requires Good(w, n) && t in w.headers && k < |Durable(n.disk, ToAdd(w, n, t), t)|
    ensures var d := Durable(n.disk, ToAdd(w, n, t), t)[k];
      && Reopened(w.hash, d).Returned? && Good(w, Reopened(w.hash, d).value)
      && Reopened(w.hash, d).value.list.headers
           == w.ChainOf(if k == |Durable(n.disk, ToAdd(w, n, t), t)| - 1 then t else n.list.tip)
  {
    DurableSound(w, n, t, k);
    ReopenSound(w, Durable(n.disk, ToAdd(w, n, t), t)[k]);
  }

  /** Exactly when a sync panics: some header of the new chain is missing, and
      the highest one that is present lies at or above the list's length, which
      is the guard of the index in `apply`. */
  ghost predicate Overhang(w: World, n: Node, t: BlockHash)
    requires w.Valid() && w.Knows(t)
  {
    var depth := SyncedDepth(n.synced, w.ChainOf(t));
    |n.list.headers| < depth < |w.ChainOf(t)|
  }

  /** Nothing but the list stands between the list and the new headers. */
  ghost predicate Direct(w: World, n: Node, t: BlockHash)
    requires w.Valid() && w.Knows(t)
  {
    var depth := SyncedDepth(n.synced, w.ChainOf(t));
    if depth == |w.ChainOf(t)| then t == n.list.tip
    else depth == CommonPrefix(n.list.headers, w.ChainOf(t))
  }

  /** The outcome of a sync in every state that runs and crashes can produce. */
  lemma SyncExact(w: World, n: Node, t: BlockHash)
    requires Good(w, n) && t in w.headers
    ensures Sync(w, n, t).1.SyncPanicked? <==> Overhang(w, n, t)
    ensures Sync(w, n, t).1.Synced? <==> Direct(w, n, t)
    ensures !Sync(w, n, t).1.DaemonFailed?
    ensures !Overhang(w, n, t) ==>
      var n' := Sync(w, n, t).0;
      Good(w, n') && n'.list.headers == w.ChainOf(t) && n'.list.tip == t
    ensures Sync(w, n, t).0.disk == Add(n.disk, ToAdd(w, n, t)).(tip := Some(t))
    ensures Sync(w, n, t).0.synced == n.synced + HashesOf(ToAdd(w, n, t))
    ensures Sound(w, Sync(w, n, t).0.disk)
  {
    var add, states := ToAdd(w, n, t), Durable(n.disk, ToAdd(w, n, t), t);
    DurableSound(w, n, t, |states| - 1);
    ReopenSound(w, states[|states| - 1]);
    ApplySuffix(w, n, t);
    ApplySuffixValid(w, n, t);
    w.ChainLength(t);
  }

  /** `apply` given the upper part of a chain, at or above the fork. */
  lemma ApplyUpper(w: World, l: ListState, t: BlockHash, k: nat)
    requires Valid(w, l) && t in w.headers && CommonPrefix(l.headers, w.ChainOf(t)) <= k < |w.ChainOf(t)|
    ensures var r := Applied(l, w.ChainOf(t)[k..]);
      && (r.Panicked? <==> k > |l.headers|)
      && (r.Returned? && k == CommonPrefix(l.headers, w.ChainOf(t)) ==> r.value.tip == t)
      && (r.Returned? && k != CommonPrefix(l.headers, w.ChainOf(t)) ==> r.value == l)
  {
    hide World.ChainOf, Applied, Stacked, CommonPrefix;
    UpperPart(w, t, k);
    AppliedToLinked(l, w.ChainOf(t)[k..]);
    if k <= |l.headers| {
      LinkMeansShared(w, l, t, k);
    }
  }

  lemma AppliedToLinked(l: ListState, es: seq<HeaderEntry>)
    requires Stacked(es) && es != []
    ensures Applied(l, es).Panicked? <==> es[0].height > |l.headers|
    ensures Applied(l, es).Returned? ==>
      var h := es[0].height;
      var linked := es[0].header.prev == if h > 0 then l.headers[h - 1].hash else NULL_HASH;
      && (linked ==> Applied(l, es).value.tip == es[|es| - 1].hash)
      && (!linked ==> Applied(l, es).value == l)
  {}

  lemma UpperPart(w: World, t: BlockHash, k: nat)
    requires w.Valid() && t in w.headers && k < |w.ChainOf(t)|
    ensures var add := w.ChainOf(t)[k..];
      Stacked(add) && w.Files(add) && add[0] == w.ChainOf(t)[k] && add[0].height == k && add[|add| - 1].hash == t
  {
    var chain, add := w.ChainOf(t), w.ChainOf(t)[k..];
    ChainStacked(w, t);
    w.ChainFiles(t);
    w.ChainLength(t);
    w.ChainAt(t, k);
    assert forall i :: 0 <= i < |add| ==> add[i] == chain[k + i];
  }

  /** What `apply` does with the headers that are not synced yet. */
  lemma ApplySuffix(w: World, n: Node, t: BlockHash)
    requires Good(w, n) && t in w.headers
    ensures Applied(n.list, ToAdd(w, n, t)).Panicked? <==> Overhang(w, n, t)
    ensures Applied(n.list, ToAdd(w, n, t)).Returned? ==>
      (Applied(n.list, ToAdd(w, n, t)).value.tip == t <==> Direct(w, n, t))
  {
    var depth := SyncedDepth(n.synced, w.ChainOf(t));
    ToAddIsSuffix(w, n, t);
    if depth < |w.ChainOf(t)| {
      ApplyUpper(w, n.list, t, depth);
      TipNotInList(w, n, t);
    }
  }

  lemma ApplySuffixValid(w: World, n: Node, t: BlockHash)
    requires Good(w, n) && t in w.headers
    ensures Applied(n.list, ToAdd(w, n, t)).Returned? ==> Valid(w, Applied(n.list, ToAdd(w, n, t)).value)
  {
    ToAddIsSuffix(w, n, t);
    w.ChainFiles(t);
    ApplyKeepsValid(w, n.list, ToAdd(w, n, t));
  }

  lemma TipNotInList(w: World, n: Node, t: BlockHash)
    requires Good(w, n) && t in w.headers && SyncedDepth(n.synced, w.ChainOf(t)) < |w.ChainOf(t)|
    ensures n.list.tip != t
  {
    w.ChainLength(t);
    ToAddIsSuffix(w, n, t);
    ListIsSynced(w, n);
  }

  /** The list holds the predecessor at height k of a chain exactly when it
      shares the chain up to there. */
  lemma LinkMeansShared(w: World, l: ListState, t: BlockHash, k: nat)
    requires Valid(w, l) && w.Knows(t) && k < |w.ChainOf(t)|
    requires CommonPrefix(l.headers, w.ChainOf(t)) <= k <= |l.headers|
    ensures w.ChainOf(t)[k].header.prev == (if k > 0 then l.headers[k - 1].hash else NULL_HASH)
      <==> k == CommonPrefix(l.headers, w.ChainOf(t))
  {
    hide World.ChainOf, CommonPrefix;
    var chain := w.ChainOf(t);
    w.ChainLinks(t, k);
    if k > 0 {
      var n := CommonPrefix(l.headers, chain);
      if k == n {
        assert l.headers[..n][k - 1] == chain[..n][k - 1];
      } else if l.headers[k - 1].hash == chain[k - 1].hash {
        w.SharedBelow(l.tip, t, k - 1);
        CommonPrefixIsMax(l.headers, chain, k);
      }
    }
  }
}

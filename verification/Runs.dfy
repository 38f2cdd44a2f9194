/** Whole runs of the indexer: syncs in any order, daemon failures, crashes at
    any point, restarts, and the polling loop. */
module Runs {
  import opened Wrappers
  import opened Chain
  import opened HeaderLists
  import opened Daemons
  import opened Syncs

  /** A sync, a sync the daemon fails, or a process that stops after some of the
      writes of a sync and is started again. */
  datatype Event = Call(tip: BlockHash) | CallFails | Crash(tip: BlockHash, writes: nat)

  ghost predicate Known(w: World, events: seq<Event>) {
    forall i :: 0 <= i < |events| ==> events[i].CallFails? || events[i].tip in w.headers
  }

  /** A panic ends the process too; the next thing that happens is a restart. */
  ghost function Step(w: World, n: Node, e: Event): Outcome<Node>
    requires w.Valid() && (e.CallFails? || e.tip in w.headers)
  {
    match e
    case Call(t) =>
      var (n', outcome) := Sync(w, n, t);
      if outcome.SyncPanicked? then Reopened(w.hash, n'.disk) else Returned(n')
    case CallFails => Returned(n)
    case Crash(t, writes) =>
      var states := Durable(n.disk, ToAdd(w, n, t), t);
      Reopened(w.hash, states[if writes < |states| then writes else |states| - 1])
  }

  ghost function Run(w: World, n: Node, events: seq<Event>): Outcome<Node>
    requires w.Valid() && Known(w, events)
    decreases |events|
  {
    if events == [] then Returned(n) else
      match Step(w, n, events[0])
      case Panicked => Panicked
      case Returned(n') => Run(w, n', events[1..])
  }

  lemma NewNodeGood(w: World)
    requires w.Valid()
    ensures Good(w, NEW_NODE)
  {}

  lemma StepStaysGood(w: World, n: Node, e: Event)
    requires Good(w, n) && (e.CallFails? || e.tip in w.headers)
    ensures Step(w, n, e).Returned? && Good(w, Step(w, n, e).value)
  {
    match e
    case CallFails =>
    case Call(t) =>
      SyncExact(w, n, t);
      var states := Durable(n.disk, ToAdd(w, n, t), t);
      CrashConsistent(w, n, t, |states| - 1);
    case Crash(t, writes) =>
      var states := Durable(n.disk, ToAdd(w, n, t), t);
      CrashConsistent(w, n, t, if writes < |states| then writes else |states| - 1);
  }

  /** No run, whatever the tips and wherever it crashes, ends in a database that
      cannot be opened, and the invariant holds throughout. */
  lemma {:induction false} RunStaysGood(w: World, n: Node, events: seq<Event>)
    requires Good(w, n) && Known(w, events)
    ensures Run(w, n, events).Returned? && Good(w, Run(w, n, events).value)
    decreases |events|
  {
    if events != [] {
      StepStaysGood(w, n, events[0]);
      RunStaysGood(w, Step(w, n, events[0]).value, events[1..]);
    }
  }

  lemma RunFromNew(w: World, events: seq<Event>)
    requires w.Valid() && Known(w, events)
    ensures Run(w, NEW_NODE, events).Returned? && Good(w, Run(w, NEW_NODE, events).value)
  {
    NewNodeGood(w);
    RunStaysGood(w, NEW_NODE, events);
  }

  /** Rebuilding from disk gives the list that was updated step by step: the same
      entries, tip and synced set, and the same answer for every hash. */
  lemma RebuildRefinesIncremental(w: World, n: Node)
    requires Good(w, n)
    ensures Reopened(w.hash, n.disk).Returned?
    ensures var n' := Reopened(w.hash, n.disk).value;
      && n'.list.headers == n.list.headers && n'.list.tip == n.list.tip && n'.synced == n.synced
      && forall h :: Lookup(n'.list, h) == Lookup(n.list, h)
  {
    ReopenSound(w, n.disk);
    var n' := Reopened(w.hash, n.disk).value;
    forall h
      ensures Lookup(n'.list, h) == Lookup(n.list, h)
    {
      IndexAgreesWithSearch(w, n.list, h);
      IndexAgreesWithSearch(w, n'.list, h);
    }
  }

  /** A second call with the same tip succeeds and changes nothing. */
  lemma SecondCallSettles(w: World, n: Node, t: BlockHash)
    requires Good(w, n) && t in w.headers && !Overhang(w, n, t)
    ensures Sync(w, Sync(w, n, t).0, t) == (Sync(w, n, t).0, Synced)
  {
    SyncExact(w, n, t);
    AtTipNothingToDo(w, Sync(w, n, t).0, t);
  }

  lemma AtTipNothingToDo(w: World, n: Node, t: BlockHash)
    requires Good(w, n) && t in w.headers && n.list.headers == w.ChainOf(t)
    ensures Sync(w, n, t) == (n, Synced)
  {
    w.ChainLength(t);
    w.ChainLength(n.list.tip);
    CommonPrefixIsMax(n.list.headers, w.ChainOf(t), |w.ChainOf(t)|);
    assert NewEntries(w, n.list, t) == [];
    assert n.synced + HashesOf([]) == n.synced;
  }

  /** A panic in `apply` comes after the tip key is durable: the restart has the
      requested chain, and the call then succeeds. */
  lemma PanicHealsOnRestart(w: World, n: Node, t: BlockHash)
    requires Good(w, n) && t in w.headers && Overhang(w, n, t)
    ensures var restarted := Step(w, n, Call(t));
      && restarted.Returned? && restarted.value.list.headers == w.ChainOf(t)
      && Sync(w, restarted.value, t) == (restarted.value, Synced)
  {
    SyncExact(w, n, t);
    var states := Durable(n.disk, ToAdd(w, n, t), t);
    CrashConsistent(w, n, t, |states| - 1);
    AtTipNothingToDo(w, Step(w, n, Call(t)).value, t);
  }

  // ---------- runs that never panic ----------

  /** No synced header reaches above the list. */
  ghost predicate Covered(w: World, n: Node) {
    forall h :: h in n.synced ==> h in w.height && w.height[h] < |n.list.headers|
  }

  /** Without crashes and with tips that never get lower no sync panics. */
  lemma CalmSync(w: World, n: Node, t: BlockHash)
    requires Good(w, n) && Covered(w, n) && t in w.headers && w.Len(t) >= |n.list.headers|
    ensures !Sync(w, n, t).1.SyncPanicked?
    ensures Good(w, Sync(w, n, t).0) && Covered(w, Sync(w, n, t).0)
    ensures Sync(w, n, t).0.list.headers == w.ChainOf(t) && Sync(w, n, t).0.list.tip == t
  {
    hide Sync, ToAdd, Good;
    CoveredHasNoOverhang(w, n, t);
    SyncExact(w, n, t);
    w.ChainLength(t);
    forall h | h in HashesOf(ToAdd(w, n, t))
      ensures h in w.height && w.height[h] < |w.ChainOf(t)|
    {
      AddsLow(w, n, t, h);
    }
  }

  lemma CoveredHasNoOverhang(w: World, n: Node, t: BlockHash)
    requires Good(w, n) && Covered(w, n) && t in w.headers
    ensures w.Valid() && !Overhang(w, n, t)
  {
    hide World.ChainOf;
    var depth := SyncedDepth(n.synced, w.ChainOf(t));
    if depth > 0 {
      w.ChainAt(t, depth - 1);
    }
  }

  lemma AddsLow(w: World, n: Node, t: BlockHash, h: BlockHash)
    requires Good(w, n) && t in w.headers && h in HashesOf(ToAdd(w, n, t))
    ensures h in w.height && w.height[h] < |w.ChainOf(t)|
  {
    hide World.ChainOf, SyncedDepth, ToAdd;
    ToAddIsSuffix(w, n, t);
    var e :| e in ToAdd(w, n, t) && e.hash == h;
    var i :| 0 <= i < |w.ChainOf(t)| && w.ChainOf(t)[i] == e;
    w.ChainAt(t, i);
  }

  /** Known tips, each as high as the one before and as high as floor. */
  ghost predicate Rising(w: World, floor: nat, tips: seq<BlockHash>)
    requires w.Valid()
    decreases |tips|
  {
    tips == [] || (tips[0] in w.headers && w.Len(tips[0]) >= floor && Rising(w, w.Len(tips[0]), tips[1..]))
  }

  /** The node after syncing to each tip in turn, unless a sync panics. */
  ghost function Follow(w: World, n: Node, tips: seq<BlockHash>): Outcome<Node>
    requires w.Valid() && Rising(w, 0, tips)
    decreases |tips|
  {
    if tips == [] then Returned(n)
    else if Sync(w, n, tips[0]).1.SyncPanicked? then Panicked
    else
      RisingFromZero(w, w.Len(tips[0]), tips[1..]);
      Follow(w, Sync(w, n, tips[0]).0, tips[1..])
  }

  lemma RisingFromZero(w: World, floor: nat, tips: seq<BlockHash>)
    requires w.Valid() && Rising(w, floor, tips)
    ensures Rising(w, 0, tips)
  {}

  /** No panic in a run of any extensions, reorganisations and returns to
      abandoned branches, as long as tips never get lower. */
  lemma {:induction false} CalmRun(w: World, n: Node, tips: seq<BlockHash>)
    requires Good(w, n) && Covered(w, n) && Rising(w, |n.list.headers|, tips)
    ensures Rising(w, 0, tips)
    ensures var r := Follow(w, n, tips);
      && r.Returned? && Good(w, r.value) && Covered(w, r.value)
      && (tips != [] ==> r.value.list.tip == tips[|tips| - 1])
    decreases |tips|
  {
    hide Sync;
    RisingFromZero(w, |n.list.headers|, tips);
    if tips != [] {
      var n', rest := Sync(w, n, tips[0]).0, tips[1..];
      CalmSync(w, n, tips[0]);
      w.ChainLength(tips[0]);
      RisingFromZero(w, w.Len(tips[0]), rest);
      CalmRun(w, n', rest);
      assert Follow(w, n, tips) == Follow(w, n', rest);
      assert rest == [] ==> tips[|tips| - 1] == tips[0];
      assert rest != [] ==> tips[|tips| - 1] == rest[|rest| - 1];
    }
  }

  lemma CalmFromNew(w: World, tips: seq<BlockHash>)
    requires w.Valid() && Rising(w, 0, tips)
    ensures var r := Follow(w, NEW_NODE, tips);
      && r.Returned? && Good(w, r.value) && Covered(w, r.value)
      && (tips != [] ==> r.value.list.tip == tips[|tips| - 1])
  {
    NewNodeGood(w);
    CalmRun(w, NEW_NODE, tips);
  }

  // ---------- the polling loop ----------

  /** One round of asking the daemon for its tip: no answer, or a tip together
      with whether the headers could then be fetched. */
  datatype Poll = NoAnswer | Answer(tip: BlockHash, fetched: bool)

  /** The loop's `tip` variable is the last tip that synced without an error. */
  datatype LoopState = LoopState(node: Node, tip: BlockHash)

  ghost function LoopStep(w: World, s: LoopState, p: Poll): Outcome<LoopState>
    requires w.Valid() && (p.Answer? ==> p.tip in w.headers)
  {
    if p.NoAnswer? || p.tip == s.tip || !p.fetched then Returned(s) else
      var (n, outcome) := Sync(w, s.node, p.tip);
      match outcome
      case Synced => Returned(LoopState(n, p.tip))
      case TryAgain => Returned(LoopState(n, s.tip))
      case DaemonFailed => Returned(s)
      case SyncPanicked => Panicked
  }

  ghost predicate Polls(w: World, polls: seq<Poll>) {
    forall i :: 0 <= i < |polls| ==> (polls[i].Answer? ==> polls[i].tip in w.headers)
  }

  ghost function LoopRun(w: World, s: LoopState, polls: seq<Poll>): Outcome<LoopState>
    requires w.Valid() && Polls(w, polls)
    decreases |polls|
  {
    if polls == [] then Returned(s) else
      match LoopStep(w, s, polls[0])
      case Panicked => Panicked
      case Returned(s') => LoopRun(w, s', polls[1..])
  }

  /** Polled tips never get lower than floor or than one before; polls without an
      answer or without headers do not matter. */
  ghost predicate RisingPolls(w: World, floor: nat, polls: seq<Poll>)
    requires w.Valid() && Polls(w, polls)
    decreases |polls|
  {
    polls == [] ||
    if polls[0].Answer? && polls[0].fetched
    then w.Len(polls[0].tip) >= floor && RisingPolls(w, w.Len(polls[0].tip), polls[1..])
    else RisingPolls(w, floor, polls[1..])
  }

  /** With such polls the loop never panics, whatever it skips and retries. */
  lemma {:induction false} CalmLoop(w: World, s: LoopState, floor: nat, polls: seq<Poll>)
    requires Good(w, s.node) && Covered(w, s.node) && |s.node.list.headers| <= floor
    requires Polls(w, polls) && RisingPolls(w, floor, polls)
    ensures var r := LoopRun(w, s, polls);
      r.Returned? && Good(w, r.value.node) && Covered(w, r.value.node)
    decreases |polls|
  {
    hide Good, Covered, Sync;
    if polls != [] {
      var p := polls[0];
      CalmStep(w, s, floor, p);
      var floor' := if p.Answer? && p.fetched then w.Len(p.tip) else floor;
      CalmLoop(w, LoopStep(w, s, p).value, floor', polls[1..]);
    }
  }

  lemma CalmStep(w: World, s: LoopState, floor: nat, p: Poll)
    requires Good(w, s.node) && Covered(w, s.node) && |s.node.list.headers| <= floor
    requires p.Answer? ==> p.tip in w.headers && (p.fetched ==> floor <= w.Len(p.tip))
    ensures w.Valid() && LoopStep(w, s, p).Returned?
    ensures var s' := LoopStep(w, s, p).value;
      && Good(w, s'.node) && Covered(w, s'.node)
      && |s'.node.list.headers| <= if p.Answer? && p.fetched then w.Len(p.tip) else floor
  {
    if p.Answer? && p.fetched {
      CalmPoll(w, s, p.tip);
    }
  }

  lemma CalmPoll(w: World, s: LoopState, t: BlockHash)
    requires w.Valid() && Good(w, s.node) && Covered(w, s.node)
    requires t in w.headers && |s.node.list.headers| <= w.Len(t)
    ensures LoopStep(w, s, Answer(t, true)).Returned?
    ensures var s' := LoopStep(w, s, Answer(t, true)).value;
      Good(w, s'.node) && Covered(w, s'.node) && |s'.node.list.headers| <= w.Len(t)
  {
    hide Sync, Covered, Good, Overhang, Direct, Sound, ToAdd, World.ChainOf;
    NeverFailsDaemon(w, s.node, t);
    CalmSync(w, s.node, t);
    w.ChainLength(t);
  }

  lemma NeverFailsDaemon(w: World, n: Node, t: BlockHash)
    requires Good(w, n) && t in w.headers
    ensures !Sync(w, n, t).1.DaemonFailed?
  {
    hide Sync, Overhang, Direct;
    SyncExact(w, n, t);
  }

  /** A round in which the headers arrive leaves the list at the polled tip,
      except when the polled tip is the loop's own `tip` and an earlier "try
      again" has already moved the list elsewhere. */
  lemma LoopFollowsTip(w: World, s: LoopState, t: BlockHash)
    requires Good(w, s.node) && t in w.headers
    ensures LoopStep(w, s, Answer(t, true)).Panicked? <==> t != s.tip && Overhang(w, s.node, t)
    ensures LoopStep(w, s, Answer(t, true)).Returned? ==>
      var s' := LoopStep(w, s, Answer(t, true)).value;
      && Good(w, s'.node)
      && (s'.node.list.tip == t <==> (t == s.tip ==> s.node.list.tip == t))
      && (s'.tip == t <==> t == s.tip || Direct(w, s.node, t))
  {
    hide Sync, Overhang, Direct, Sound;
    SyncExact(w, s.node, t);
  }

  /** When the daemon reports one tip twice in a row, the loop has it after the
      second time, unless it was skipped or panicked. */
  lemma LoopSettles(w: World, s: LoopState, t: BlockHash)
    requires Good(w, s.node) && t in w.headers && t != s.tip && !Overhang(w, s.node, t)
    ensures LoopRun(w, s, [Answer(t, true), Answer(t, true)]) == Returned(LoopState(Sync(w, s.node, t).0, t))
  {
    hide Sync, Overhang, Direct, Good, Sound;
    SecondCallSettles(w, s.node, t);
    SyncExact(w, s.node, t);
    var p := Answer(t, true);
    assert [p, p][1..] == [p];
    var s' := LoopStep(w, s, p).value;
    assert LoopRun(w, s', [p]) == LoopRun(w, LoopStep(w, s', p).value, [p][1..]);
  }

  // ---------- what can still go wrong ----------

  /** Once a header above the list is synced, any unsynced descendant of it is a
      tip that panics. */
  lemma OverhangArises(w: World, n: Node, t: BlockHash, u: BlockHash)
    requires Good(w, n) && t in w.headers && u in w.headers
    requires t in n.synced && u !in n.synced && |n.list.headers| < w.Len(t)
    requires w.Len(t) <= |w.ChainOf(u)| && w.ChainOf(u)[w.Len(t) - 1].hash == t
    ensures Overhang(w, n, u) && Sync(w, n, u).1.SyncPanicked?
  {
    SoundHasChain(w, n.disk, u, w.Len(t) - 1);
    w.ChainLength(u);
    SyncExact(w, n, u);
  }

  /** A sync to a header that is synced already stores nothing new and moves the
      list there; it is Ok only if the list was there before. */
  lemma SyncToSynced(w: World, n: Node, r: BlockHash)
    requires Good(w, n) && r in n.synced
    ensures w.Valid() && r in w.headers && Sync(w, n, r).1 == (if r == n.list.tip then Synced else TryAgain)
    ensures var n' := Sync(w, n, r).0;
      Good(w, n') && n'.synced == n.synced && n'.list.headers == w.ChainOf(r) && n'.list.tip == r
  {
    hide Sync, ToAdd, World.ChainOf;
    SyncedChain(w, n, r);
    ToAddIsSuffix(w, n, r);
    assert ToAdd(w, n, r) == [];
    assert n.synced + HashesOf([]) == n.synced;
    SyncExact(w, n, r);
  }

  /** The daemon's tip falls back to an ancestor r of the synced tip t and then
      rises above t: the sync to the new tip u panics, every time. */
  lemma RollbackThenPanic(w: World, n: Node, r: BlockHash, u: BlockHash)
    requires Good(w, n) && n.list.tip in w.headers && r in w.headers && u in w.headers
    requires r in n.synced && w.Len(r) < w.Len(n.list.tip)
    requires u !in n.synced && w.Len(n.list.tip) <= |w.ChainOf(u)|
    requires w.ChainOf(u)[w.Len(n.list.tip) - 1].hash == n.list.tip
    ensures Sync(w, n, r).1.TryAgain? && Sync(w, Sync(w, n, r).0, u).1.SyncPanicked?
  {
    hide Sync, Overhang, World.ChainOf;
    SyncToSynced(w, n, r);
    w.ChainLength(r);
    w.ChainLength(n.list.tip);
    ListIsSynced(w, n);
    OverhangArises(w, Sync(w, n, r).0, n.list.tip, u);
  }

  /** A crash after the header rows of t and before the tip key: after the
      restart every unsynced descendant of t panics. */
  lemma CrashThenPanic(w: World, n: Node, t: BlockHash, u: BlockHash)
    requires Good(w, n) && t in w.headers && u in w.headers
    requires t !in n.synced && u !in n.synced && |n.list.headers| < w.Len(t) < w.Len(u)
    requires w.Len(t) <= |w.ChainOf(u)| && w.ChainOf(u)[w.Len(t) - 1].hash == t
    ensures var writes := |Durable(n.disk, ToAdd(w, n, t), t)| - 2;
      var n' := Step(w, n, Crash(t, writes));
      n'.Returned? && Sync(w, n'.value, u).1.SyncPanicked?
  {
    hide Sync, ToAdd, Durable;
    var add, states := ToAdd(w, n, t), Durable(n.disk, ToAdd(w, n, t), t);
    w.ChainLength(u);
    NewHashes(w, n, t, u);
    AllChunksWritten(n.disk, add, t);
    StepStaysGood(w, n, Crash(t, |states| - 2));
    CrashConsistent(w, n, t, |states| - 2);
    AddMarks(n.disk, add);
    OverhangArises(w, Step(w, n, Crash(t, |states| - 2)).value, t, u);
  }

  /** After the same crash the first sync to t itself says "try again", because
      all its headers are synced and the list is elsewhere. */
  lemma CrashThenTryAgain(w: World, n: Node, t: BlockHash)
    requires Good(w, n) && t in w.headers && t !in n.synced
    ensures var writes := |Durable(n.disk, ToAdd(w, n, t), t)| - 2;
      var n' := Step(w, n, Crash(t, writes));
      n'.Returned? && Good(w, n'.value) && !Direct(w, n'.value, t) && Sync(w, n'.value, t).1.TryAgain?
  {
    hide Sync, ToAdd, Durable, SyncedDepth;
    var add, states := ToAdd(w, n, t), Durable(n.disk, ToAdd(w, n, t), t);
    AddsTip(w, n, t);
    AllChunksWritten(n.disk, add, t);
    CrashConsistent(w, n, t, |states| - 2);
    AddMarks(n.disk, add);
    AddKeepsOldTip(w, n, t);
    var n' := Step(w, n, Crash(t, |states| - 2)).value;
    SyncedChain(w, n', t);
    SyncExact(w, n', t);
  }

  lemma AddsTip(w: World, n: Node, t: BlockHash)
    requires Good(w, n) && t in w.headers && t !in n.synced
    ensures ToAdd(w, n, t) != [] && t in HashesOf(ToAdd(w, n, t))
  {
    var chain := w.ChainOf(t);
    ToAddIsSuffix(w, n, t);
    w.ChainLength(t);
    assert chain[|chain| - 1] in ToAdd(w, n, t);
  }

  lemma AddKeepsOldTip(w: World, n: Node, t: BlockHash)
    requires Good(w, n) && t in w.headers && t !in n.synced
    ensures Add(n.disk, ToAdd(w, n, t)).tip == n.disk.tip && n.disk.tip != Some(t)
  {
    var add := ToAdd(w, n, t);
    PartSound(w, n, t, |add|);
    assert add[..|add|] == add;
  }

  /** All of a synced header's chain is synced. */
  lemma SyncedChain(w: World, n: Node, t: BlockHash)
    requires Good(w, n) && t in n.synced
    ensures t in w.headers && SyncedDepth(n.synced, w.ChainOf(t)) == |w.ChainOf(t)|
  {
    w.ChainLength(t);
    SoundHasChain(w, n.disk, t, |w.ChainOf(t)| - 1);
  }

  /** Whatever a sync to t comes to, the database it leaves opens with the chain
      of t, and the next first sync to t is Ok. */
  lemma NextStartIsDirect(w: World, n: Node, t: BlockHash)
    requires Good(w, n) && t in w.headers
    ensures var restarted := Reopened(w.hash, Sync(w, n, t).0.disk);
      && restarted.Returned? && Good(w, restarted.value) && restarted.value.list.headers == w.ChainOf(t)
      && Direct(w, restarted.value, t) && Sync(w, restarted.value, t) == (restarted.value, Synced)
  {
    hide Sync;
    SyncExact(w, n, t);
    ReopenSound(w, Sync(w, n, t).0.disk);
    var restarted := Reopened(w.hash, Sync(w, n, t).0.disk).value;
    SyncExact(w, restarted, t);
    AtTipNothingToDo(w, restarted, t);
  }

  lemma NewHashes(w: World, n: Node, t: BlockHash, u: BlockHash)
    requires Good(w, n) && t in w.headers && t !in n.synced && u in w.headers && w.Len(t) < w.Len(u)
    ensures t in HashesOf(ToAdd(w, n, t)) && u !in HashesOf(ToAdd(w, n, t))
  {
    var chain := w.ChainOf(t);
    AddsTip(w, n, t);
    ToAddIsSuffix(w, n, t);
    w.ChainLength(t);
    forall e | e in ToAdd(w, n, t)
      ensures e.hash != u
    {
      var i :| 0 <= i < |chain| && chain[i] == e;
      w.ChainAt(t, i);
    }
  }

  /** Just before the tip key is written, all headers are. */
  lemma AllChunksWritten(d: Disk, es: seq<HeaderEntry>, tip: BlockHash)
    requires es != []
    ensures |Durable(d, es, tip)| >= 3 && Durable(d, es, tip)[|Durable(d, es, tip)| - 2] == Add(d, es)
  {
    hide Add, Chunked;
    LastChunk(d, es);
  }

  lemma {:induction false} LastChunk(d: Disk, es: seq<HeaderEntry>)
    requires es != []
    ensures Chunked(d, es) != [] && Chunked(d, es)[|Chunked(d, es)| - 1] == Add(d, es)
    decreases |es|
  {
    var n := if CHUNK_HEADERS < |es| then CHUNK_HEADERS else |es|;
    assert es == es[..n] + es[n..];
    AddTwice(d, es[..n], es[n..]);
    if n < |es| {
      LastChunk(Add(d, es[..n]), es[n..]);
    } else {
      assert Chunked(Add(d, es[..n]), es[n..]) == [];
    }
  }

  /** The daemon's tip goes to another synced header a and straight back: the
      loop sees its own `tip` again and leaves the list at a. */
  lemma LoopLeftBehind(w: World, s: LoopState, a: BlockHash)
    requires Good(w, s.node) && s.tip == s.node.list.tip && s.tip in w.headers
    requires a in s.node.synced && a != s.tip && a in w.headers
    ensures var polls := [Answer(a, true), Answer(s.tip, true)];
      var r := LoopRun(w, s, polls);
      r.Returned? && r.value.tip == s.tip && r.value.node.list.tip == a
  {
    hide Sync, Good;
    SyncToSynced(w, s.node, a);
    var p, q := Answer(a, true), Answer(s.tip, true);
    assert [p, q][1..] == [q] && [q][1..] == [];
    var s' := LoopStep(w, s, p).value;
    assert LoopRun(w, s', [q]) == Returned(s');
  }

  // ---------- a world of three headers in which all of this happens ----------

  function Toy(nonce: U32, prev: BlockHash): Header {
    Header(1, prev, 0, 0, 0, nonce)
  }

  ghost const TOY := World(
    (h: Header) => h.nonce, map[1 := Toy(1, 0), 2 := Toy(2, 1), 3 := Toy(3, 2)], map[1 := 0, 2 := 1, 3 := 2])

  ghost predicate Three(w: World) {
    && w.Valid() && {1, 2, 3} <= w.headers.Keys
    && w.headers[1].prev == NULL_HASH && w.headers[2].prev == 1 && w.headers[3].prev == 2
  }

  lemma ToyExists()
    ensures Three(TOY)
  {}

  lemma ThreeChains(w: World)
    requires Three(w)
    ensures |w.ChainOf(3)| == w.Len(3) == 3 && w.Len(2) == 2 && w.Len(1) == 1
    ensures w.ChainOf(3)[1].hash == 2
    ensures w.ChainOf(2) == [w.Entry(1), w.Entry(2)]
  {
    assert w.Rooted(1) && w.Rooted(2) && w.Rooted(3);
    w.ChainLength(3);
    w.ChainLength(2);
    assert w.ChainOf(3) == w.ChainOf(2) + [w.Entry(3)];
    assert w.ChainOf(2) == w.ChainOf(1) + [w.Entry(2)];
    assert w.ChainOf(1) == w.ChainOf(NULL_HASH) + [w.Entry(1)];
  }

  /** The first sync marks exactly the chain of its tip. */
  lemma FirstSync(w: World, n: Node, t: BlockHash)
    requires Good(w, n) && n.synced == {} && t in w.headers
    ensures Good(w, Sync(w, n, t).0) && Sync(w, n, t).0.list.tip == t
    ensures Sync(w, n, t).0.synced == HashesOf(w.ChainOf(t))
  {
    hide Sync, ToAdd, World.ChainOf, CommonPrefix;
    ToAddIsSuffix(w, n, t);
    var depth := SyncedDepth(n.synced, w.ChainOf(t));
    assert depth == 0;
    assert ToAdd(w, n, t) == w.ChainOf(t);
    SyncExact(w, n, t);
  }

  lemma ThreeSynced(w: World)
    requires Three(w)
    ensures Good(w, Sync(w, NEW_NODE, 2).0)
    ensures Sync(w, NEW_NODE, 2).0.list.tip == 2 && Sync(w, NEW_NODE, 2).0.synced == {1, 2}
  {
    hide Sync;
    ThreeChains(w);
    FirstSync(w, NEW_NODE, 2);
    assert HashesOf([w.Entry(1), w.Entry(2)]) == {1, 2};
  }

  /** From an empty database, a crash in the sync to 2: the tip 3 then panics. */
  lemma ThreeCrash(w: World)
    requires Three(w)
    ensures exists writes: nat :: var n := Step(w, NEW_NODE, Crash(2, writes));
      n.Returned? && Sync(w, n.value, 3).1.SyncPanicked?
  {
    ThreeChains(w);
    CrashThenPanic(w, NEW_NODE, 2, 3);
  }

  /** After the same crash the sync to 2 says "try again": a thread restarted
      there ends at once. */
  lemma ThreeRestart(w: World)
    requires Three(w)
    ensures exists writes: nat :: var n := Step(w, NEW_NODE, Crash(2, writes));
      n.Returned? && !Direct(w, n.value, 2) && Sync(w, n.value, 2).1.TryAgain?
  {
    NewNodeGood(w);
    CrashThenTryAgain(w, NEW_NODE, 2);
  }

  /** From an empty database, the tips 2, 1, 3: the last sync panics. */
  lemma ThreeRollback(w: World)
    requires Three(w)
    ensures Sync(w, Sync(w, Sync(w, NEW_NODE, 2).0, 1).0, 3).1.SyncPanicked?
  {
    hide Sync;
    ThreeChains(w);
    ThreeSynced(w);
    RollbackThenPanic(w, Sync(w, NEW_NODE, 2).0, 1, 3);
  }

  /** After 2, the polls 1 and 2 leave the loop's list at 1. */
  lemma ThreePolls(w: World)
    requires Three(w)
    ensures var r := LoopRun(w, LoopState(Sync(w, NEW_NODE, 2).0, 2), [Answer(1, true), Answer(2, true)]);
      r.Returned? && r.value.tip == 2 && r.value.node.list.tip == 1
  {
    hide Sync;
    ThreeSynced(w);
    LoopLeftBehind(w, LoopState(Sync(w, NEW_NODE, 2).0, 2), 1);
  }
}

/**
 The cache under concurrent use, lock by lock.

 `insert` and `remove` hold the map's write lock for all they do, so each is one
 step, possible only while nobody holds the map's read lock.  `write` holds the
 map's read lock from its lookup until its store.  `get` gives the map's lock
 back after its lookup and reads the value later.
 */
module Linearizability {
  import opened Wrappers
  import opened Bytes
  import opened Cache

  type Tid = nat
  type CellId = nat

  datatype Thread<V> =
    | Idle
    | GetStarted(key: Bytes, since: nat)
    | GetFound(key: Bytes, since: nat, found: Option<CellId>)
    | GetDone(key: Bytes, since: nat, result: Option<V>)
    | Writing(key: Bytes, cell: CellId, value: V)

  /** Which cell each key has, what all cells ever made hold, and what each
      thread is doing. */
  datatype State<V> = State(index: map<Bytes, CellId>, cells: map<CellId, V>, threads: map<Tid, Thread<V>>)

  datatype Action<V> =
    | BeginGet(key: Bytes)
    | LookUp
    | ReadCell
    | EndGet
    | Insert(key: Bytes, value: V, cell: CellId)
    | Remove(key: Bytes)
    | BeginWrite(key: Bytes, value: V)
    | StoreCell

  ghost predicate MapFree<V(!new)>(s: State<V>) {
    forall t :: t in s.threads ==> !s.threads[t].Writing?
  }

  /** What thread t may do in a state; clock is the number of the state it leads to. */
  ghost predicate Next<V(!new)>(size: nat, s: State<V>, t: Tid, a: Action<V>, clock: nat, s': State<V>) {
    t in s.threads &&
    match a
    case BeginGet(k) =>
      s.threads[t].Idle? && s' == s.(threads := s.threads[t := GetStarted(k, clock)])
    case LookUp =>
      s.threads[t].GetStarted?
      && var k := s.threads[t].key;
         s' == s.(threads := s.threads[t := GetFound(k, s.threads[t].since,
           if k in s.index then Some(s.index[k]) else None)])
    case ReadCell =>
      s.threads[t].GetFound?
      && (s.threads[t].found.Some? ==> s.threads[t].found.value in s.cells)
      && s' == s.(threads := s.threads[t := GetDone(s.threads[t].key, s.threads[t].since,
           if s.threads[t].found.Some? then Some(s.cells[s.threads[t].found.value]) else None)])
    case EndGet =>
      s.threads[t].GetDone? && s' == s.(threads := s.threads[t := Idle])
    case Insert(k, v, c) =>
      s.threads[t].Idle? && MapFree(s) && c !in s.cells
      && s' == s.(index := Evicted(size, s.index)[k := c], cells := s.cells[c := v])
    case Remove(k) =>
      s.threads[t].Idle? && MapFree(s) && s' == s.(index := s.index - {k})
    case BeginWrite(k, v) =>
      s.threads[t].Idle?
      && s' == (if k in s.index then s.(threads := s.threads[t := Writing(k, s.index[k], v)]) else s)
    case StoreCell =>
      s.threads[t].Writing?
      && s' == s.(cells := s.cells[s.threads[t].cell := s.threads[t].value], threads := s.threads[t := Idle])
  }

  // ---------- the cache as one map ----------

  ghost function Look<V>(s: State<V>, k: Bytes): Option<V> {
    if k in s.index && s.index[k] in s.cells then Some(s.cells[s.index[k]]) else None
  }

  ghost function View<V>(s: State<V>): map<Bytes, V> {
    ViewOf(s.index, s.cells)
  }

  ghost function ViewOf<V>(index: map<Bytes, CellId>, cells: map<CellId, V>): map<Bytes, V> {
    map k | k in index && index[k] in cells :: cells[index[k]]
  }

  /** Cells exist, no two keys share one, and a writer's cell still belongs to
      its key, because the writer keeps everyone else out of the map. */
  ghost predicate Inv<V(!new)>(s: State<V>) {
    && (forall k :: k in s.index ==> s.index[k] in s.cells)
    && (forall j, k :: j in s.index && k in s.index && j != k ==> s.index[j] != s.index[k])
    && (forall t {:trigger s.threads[t]} :: t in s.threads ==>
          (s.threads[t].Writing? ==> s.threads[t].key in s.index && s.index[s.threads[t].key] == s.threads[t].cell)
          && (s.threads[t].GetFound? && s.threads[t].found.Some? ==> s.threads[t].found.value in s.cells))
  }

  lemma InvStep<V(!new)>(size: nat, s: State<V>, t: Tid, a: Action<V>, clock: nat, s': State<V>)
    requires Inv(s) && Next(size, s, t, a, clock, s')
    ensures Inv(s')
  {
    forall u | u in s'.threads
      ensures (s'.threads[u].Writing? ==>
          s'.threads[u].key in s'.index && s'.index[s'.threads[u].key] == s'.threads[u].cell)
        && (s'.threads[u].GetFound? && s'.threads[u].found.Some? ==> s'.threads[u].found.value in s'.cells)
    {
      if u != t {
        assert s'.threads[u] == s.threads[u];
      }
    }
  }

  /** Seen as one map, insert, remove and a write's store each do what the
      sequential operation does, and nothing else changes the map. */
  lemma ViewStep<V(!new)>(size: nat, s: State<V>, t: Tid, a: Action<V>, clock: nat, s': State<V>)
    requires Inv(s) && Next(size, s, t, a, clock, s')
    ensures View(s').Keys == s'.index.Keys
    ensures View(s') == match a
      case Insert(k, v, _) => Step(size, View(s), CacheOp.Insert(k, v))
      case Remove(k) => Step(size, View(s), CacheOp.Remove(k))
      case StoreCell => Step(size, View(s), CacheOp.Write(s.threads[t].key, s.threads[t].value))
      case _ => View(s)
    ensures a.StoreCell? ==> s.threads[t].key in View(s)
    ensures a.BeginWrite? && s' == s ==> View(s) == Step(size, View(s), CacheOp.Write(a.key, a.value))
  {
    hide Inv, View, Next, Step, MapFree;
    InvStep(size, s, t, a, clock, s');
    ViewKeys(s');
    ViewChange(size, s, t, a, clock, s');
    WriterHasKey(size, s, t, a, clock, s');
  }

  lemma ViewChange<V(!new)>(size: nat, s: State<V>, t: Tid, a: Action<V>, clock: nat, s': State<V>)
    requires Inv(s) && Next(size, s, t, a, clock, s')
    ensures View(s') == match a
      case Insert(k, v, _) => Step(size, View(s), CacheOp.Insert(k, v))
      case Remove(k) => Step(size, View(s), CacheOp.Remove(k))
      case StoreCell => Step(size, View(s), CacheOp.Write(s.threads[t].key, s.threads[t].value))
      case _ => View(s)
  {
    hide Inv, View, Evicted, MapFree;
    match a
    case Insert(k, v, c) => InsertView(size, s, k, v, c);
    case Remove(k) => RemoveView(s, k);
    case StoreCell => StoreView(s, s.threads[t].key, s.threads[t].value, t);
    case BeginGet(_) => SameView(s, s');
    case LookUp => SameView(s, s');
    case ReadCell => SameView(s, s');
    case EndGet => SameView(s, s');
    case BeginWrite(_, _) => SameView(s, s');
  }

  lemma WriterHasKey<V(!new)>(size: nat, s: State<V>, t: Tid, a: Action<V>, clock: nat, s': State<V>)
    requires Inv(s) && Next(size, s, t, a, clock, s')
    ensures a.StoreCell? ==> t in s.threads && s.threads[t].Writing? && s.threads[t].key in View(s)
    ensures a.BeginWrite? && s' == s ==> View(s) == Step(size, View(s), CacheOp.Write(a.key, a.value))
  {
    hide View, Evicted, MapFree;
    ViewKeys(s);
  }

  lemma SameView<V>(s: State<V>, s': State<V>)
    requires s'.index == s.index && s'.cells == s.cells
    ensures View(s') == View(s)
  {}

  lemma ViewKeys<V(!new)>(s: State<V>)
    requires Inv(s)
    ensures View(s).Keys == s.index.Keys && |View(s)| == |s.index|
    ensures forall k :: k in s.index ==> s.index[k] in s.cells && View(s)[k] == s.cells[s.index[k]]
  {
    assert |View(s).Keys| == |View(s)| && |s.index.Keys| == |s.index|;
  }

  /** Which key is evicted depends on the keys only. */
  lemma SameEviction<T, U>(size: nat, m: map<Bytes, T>, n: map<Bytes, U>)
    requires m.Keys == n.Keys
    ensures Evicted(size, m).Keys == Evicted(size, n).Keys <= m.Keys
    ensures forall k :: k in Evicted(size, n) ==> Evicted(size, n)[k] == n[k]
    ensures forall k :: k in Evicted(size, m) ==> Evicted(size, m)[k] == m[k]
  {
    hide Smallest;
    assert |m.Keys| == |m| && |n.Keys| == |n|;
    assert n == map[] <==> n.Keys == {};
    assert m == map[] <==> m.Keys == {};
  }

  lemma InsertView<V(!new)>(size: nat, s: State<V>, k: Bytes, v: V, c: CellId)
    requires Inv(s) && c !in s.cells
    ensures View(s.(index := Evicted(size, s.index)[k := c], cells := s.cells[c := v]))
      == Evicted(size, View(s))[k := v]
  {
    hide Evicted;
    ViewKeys(s);
    SameEviction(size, s.index, View(s));
    var s' := s.(index := Evicted(size, s.index)[k := c], cells := s.cells[c := v]);
    assert View(s').Keys == (Evicted(size, View(s))[k := v]).Keys;
  }

  lemma RemoveView<V(!new)>(s: State<V>, k: Bytes)
    requires Inv(s)
    ensures View(s.(index := s.index - {k})) == View(s) - {k}
  {
    assert View(s.(index := s.index - {k})).Keys == (View(s) - {k}).Keys;
  }

  lemma StoreView<V(!new)>(s: State<V>, k: Bytes, v: V, t: Tid)
    requires Inv(s) && t in s.threads && s.threads[t].Writing? && s.threads[t].key == k
    ensures k in View(s)
    ensures View(s.(cells := s.cells[s.threads[t].cell := v], threads := s.threads[t := Idle])) == View(s)[k := v]
  {
    ViewKeys(s);
    var s' := s.(cells := s.cells[s.threads[t].cell := v], threads := s.threads[t := Idle]);
    assert View(s').Keys == View(s).Keys;
  }

  // ---------- runs ----------

  /** The states of a run, one for each step taken; clock and index agree. */
  ghost predicate IsRun<V(!new)>(size: nat, run: seq<State<V>>) {
    && run != []
    && Inv(run[0]) && (forall t :: t in run[0].threads ==> run[0].threads[t].Idle?)
    && (forall i, j :: 0 <= i < |run| && 0 <= j < |run| && j == i + 1 ==>
          exists t, a :: Next(size, run[i], t, a, j, run[j]))
  }

  /** The key had this value, or was absent, at some moment of the interval. */
  ghost predicate Witnessed<V(!new)>(run: seq<State<V>>, lo: nat, hi: nat, k: Bytes, r: Option<V>) {
    exists m :: lo <= m <= hi && m < |run| && Look(run[m], k) == r
  }

  /** Where each get stands: the cell it found either still belongs to the key,
      or has been cut off with a value the key had since the get began. */
  ghost predicate Tracked<V(!new)>(run: seq<State<V>>, i: nat, th: Thread<V>)
    requires i < |run|
  {
    match th
    case GetStarted(k, since) => since <= i
    case GetFound(k, since, None) => since <= i && Witnessed(run, since, i, k, None)
    case GetFound(k, since, Some(c)) => since <= i && c in run[i].cells
      && ((k in run[i].index && run[i].index[k] == c)
          || (c !in run[i].index.Values && Witnessed(run, since, i, k, Some(run[i].cells[c]))))
    case GetDone(k, since, r) => since <= i && Witnessed(run, since, i, k, r)
    case _ => true
  }

  ghost predicate AllTracked<V(!new)>(run: seq<State<V>>, i: nat)
    requires i < |run|
  {
    Inv(run[i]) && forall t {:trigger run[i].threads[t]} :: t in run[i].threads ==> Tracked(run, i, run[i].threads[t])
  }

  lemma WitnessedLater<V(!new)>(run: seq<State<V>>, lo: nat, hi: nat, k: Bytes, r: Option<V>)
    requires Witnessed(run, lo, hi, k, r)
    ensures Witnessed(run, lo, hi + 1, k, r)
  {
    var m :| lo <= m <= hi && m < |run| && Look(run[m], k) == r;
    assert lo <= m <= hi + 1;
  }

  lemma WitnessedNow<V(!new)>(run: seq<State<V>>, lo: nat, i: nat, k: Bytes)
    requires lo <= i < |run|
    ensures Witnessed(run, lo, i, k, Look(run[i], k))
  {}

  /** A get that does not move stays tracked while another thread moves. */
  lemma OthersStayTracked<V(!new)>(size: nat, run: seq<State<V>>, i: nat, t: Tid, a: Action<V>, th: Thread<V>)
    requires i + 1 < |run| && Inv(run[i]) && Next(size, run[i], t, a, i + 1, run[i + 1])
    requires Tracked(run, i, th) && !th.Idle? && !th.Writing?
    ensures Tracked(run, i + 1, th)
  {
    match th
    case GetStarted(k, since) =>
    case GetFound(k, since, None) => WitnessedLater(run, since, i, k, None);
    case GetFound(k, since, Some(c)) => CellStaysTracked(size, run, i, t, a, k, since, c);
    case GetDone(k, since, r) => WitnessedLater(run, since, i, k, r);
  }

  /** A cell leaves the map only with the value its key had just before, and a
      cell that has left can no longer be written. */
  lemma CellStaysTracked<V(!new)>(
    size: nat, run: seq<State<V>>, i: nat, t: Tid, a: Action<V>, k: Bytes, since: nat, c: CellId)
    requires i + 1 < |run| && Inv(run[i]) && Next(size, run[i], t, a, i + 1, run[i + 1])
    requires Tracked(run, i, GetFound(k, since, Some(c)))
    ensures Tracked(run, i + 1, GetFound(k, since, Some(c)))
  {
    var s, s' := run[i], run[i + 1];
    if k in s.index && s.index[k] == c {
      WitnessedNow(run, since, i, k);
      WitnessedLater(run, since, i, k, Look(s, k));
    } else {
      WitnessedLater(run, since, i, k, Some(s.cells[c]));
      if a.StoreCell? {
        assert s.threads[t].key in s.index && s.threads[t].cell in s.index.Values;
      }
    }
  }

  lemma MoverIsTracked<V(!new)>(size: nat, run: seq<State<V>>, i: nat, t: Tid, a: Action<V>)
    requires i + 1 < |run| && AllTracked(run, i) && Next(size, run[i], t, a, i + 1, run[i + 1])
    ensures Tracked(run, i + 1, run[i + 1].threads[t])
  {
    var s, s' := run[i], run[i + 1];
    assert Tracked(run, i, s.threads[t]);
    match a
    case BeginGet(k) =>
    case LookUp =>
      WitnessedNow(run, s.threads[t].since, i + 1, s.threads[t].key);
    case ReadCell =>
      var th := s.threads[t];
      match th.found {
        case None => WitnessedLater(run, th.since, i, th.key, None);
        case Some(c) =>
          WitnessedNow(run, th.since, i + 1, th.key);
          if c !in s.index.Values {
            WitnessedLater(run, th.since, i, th.key, Some(s.cells[c]));
          }
      }
    case EndGet =>
    case Insert(_, _, _) =>
    case Remove(_) =>
    case BeginWrite(_, _) =>
    case StoreCell =>
  }

  lemma {:induction false} RunTracked<V(!new)>(size: nat, run: seq<State<V>>, i: nat)
    requires IsRun(size, run) && i < |run|
    ensures AllTracked(run, i)
  {
    if i > 0 {
      RunTracked(size, run, i - 1);
      var t, a :| Next(size, run[i - 1], t, a, i, run[i]);
      InvStep(size, run[i - 1], t, a, i, run[i]);
      MoverIsTracked(size, run, i - 1, t, a);
      forall u | u in run[i].threads && u != t
        ensures Tracked(run, i, run[i].threads[u])
      {
        var th := run[i - 1].threads[u];
        assert run[i].threads[u] == th;
        if !th.Idle? && !th.Writing? {
          OthersStayTracked(size, run, i - 1, t, a, th);
        }
      }
    }
  }

  /** In every interleaving a get returns what its key had, value or absence, at
      some moment between the get's start and its end, even if the entry was
      replaced, written, evicted or removed in between. */
  lemma GetIsLinearizable<V(!new)>(size: nat, run: seq<State<V>>, i: nat, t: Tid)
    requires IsRun(size, run) && i < |run| && t in run[i].threads && run[i].threads[t].GetDone?
    ensures var g := run[i].threads[t];
      g.since <= i && exists m :: g.since <= m <= i && Look(run[m], g.key) == g.result
  {
    RunTracked(size, run, i);
    var g := run[i].threads[t];
    assert Witnessed(run, g.since, i, g.key, g.result);
    var m :| g.since <= m <= i && m < |run| && Look(run[m], g.key) == g.result;
    assert Look(run[m], g.key) == g.result;
  }

  // ---------- a run as a sequence of operations ----------

  /** The sequential operation that a step completes, if it completes one; a
      write of an absent key is over at its lookup. */
  ghost function Effect<V(!new)>(s: State<V>, t: Tid, a: Action<V>): seq<CacheOp<V>>
    requires t in s.threads && (a.StoreCell? ==> s.threads[t].Writing?)
  {
    match a
    case Insert(k, v, _) => [CacheOp.Insert(k, v)]
    case Remove(k) => [CacheOp.Remove(k)]
    case BeginWrite(k, v) => if k in s.index then [] else [CacheOp.Write(k, v)]
    case StoreCell => [CacheOp.Write(s.threads[t].key, s.threads[t].value)]
    case _ => []
  }

  /** The operations completed before each state of the run. */
  ghost predicate IsHistory<V(!new)>(size: nat, run: seq<State<V>>, history: seq<seq<CacheOp<V>>>) {
    && 0 < |history| <= |run|
    && history[0] == []
    && (forall i, j :: 0 <= i < |history| && 0 <= j < |history| && j == i + 1 ==>
          Performs(size, run[i], j, run[j], history[i], history[j]))
  }

  /** Some step leads from s to s' and completes the operations that done' has
      more than done. */
  ghost predicate Performs<V(!new)>(
    size: nat, s: State<V>, clock: nat, s': State<V>, done: seq<CacheOp<V>>, done': seq<CacheOp<V>>)
  {
    exists t, a :: Next(size, s, t, a, clock, s') && done' == done + Effect(s, t, a)
  }

  lemma EffectStep<V(!new)>(
    size: nat, s: State<V>, t: Tid, a: Action<V>, clock: nat, s': State<V>, ops: seq<CacheOp<V>>)
    requires Inv(s) && Next(size, s, t, a, clock, s') && View(s) == Cache.Run(size, map[], ops)
    ensures View(s') == Cache.Run(size, map[], ops + Effect(s, t, a))
  {
    hide Inv, View, Evicted, MapFree;
    ViewStep(size, s, t, a, clock, s');
    var effect := Effect(s, t, a);
    assert ops + [] == ops;
    if effect != [] {
      assert (ops + effect)[..|ops|] == ops;
      ViewKeys(s);
    }
  }

  /** Every run from an empty cache is a run of the sequential cache: at each
      moment the cache holds what the operations completed so far, one after the
      other, leave in it. */
  lemma {:induction false} RunIsSequential<V(!new)>(size: nat, run: seq<State<V>>, n: nat)
    returns (history: seq<seq<CacheOp<V>>>)
    requires IsRun(size, run) && run[0].index == map[] && 0 < n <= |run|
    ensures |history| == n && IsHistory(size, run, history)
    ensures forall i :: 0 <= i < n ==> View(run[i]) == Cache.Run(size, map[], history[i])
  {
    hide IsRun, Performs;
    if n == 1 {
      history := [[]];
    } else {
      history := RunIsSequential(size, run, n - 1);
      var done := OneMoreStep(size, run, n - 2, history[n - 2]);
      history := history + [done];
    }
  }

  lemma OneMoreStep<V(!new)>(size: nat, run: seq<State<V>>, i: nat, done: seq<CacheOp<V>>)
    returns (done': seq<CacheOp<V>>)
    requires IsRun(size, run) && i + 1 < |run| && View(run[i]) == Cache.Run(size, map[], done)
    ensures Performs(size, run[i], i + 1, run[i + 1], done, done')
    ensures View(run[i + 1]) == Cache.Run(size, map[], done')
  {
    hide View;
    RunTracked(size, run, i);
    var t, a :| Next(size, run[i], t, a, i + 1, run[i + 1]);
    EffectStep(size, run[i], t, a, i + 1, run[i + 1], done);
    done' := done + Effect(run[i], t, a);
  }

  /** So under concurrent use too the cache stays within its bound and holds only
      last stored values, and every get returns what the sequential cache holds
      for its key at some moment between its start and its end. */
  lemma RunIsLinearizable<V(!new)>(size: nat, run: seq<State<V>>) returns (history: seq<seq<CacheOp<V>>>)
    requires IsRun(size, run) && run[0].index == map[]
    ensures |history| == |run| && IsHistory(size, run, history)
    ensures forall i :: 0 <= i < |run| ==>
      && |View(run[i])| <= (if size > 1 then size else 1)
      && SubMap(View(run[i]), RunUnbounded(map[], history[i]))
    ensures forall i, t :: 0 <= i < |run| && t in run[i].threads && run[i].threads[t].GetDone? ==>
      ReadsWithin(size, history, run[i].threads[t], i)
  {
    hide View, IsHistory;
    history := RunIsSequential(size, run, |run|);
    forall i | 0 <= i < |run|
      ensures |View(run[i])| <= (if size > 1 then size else 1)
      ensures SubMap(View(run[i]), RunUnbounded(map[], history[i]))
    {
      BoundedSubMap(size, history[i]);
    }
    forall i, t | 0 <= i < |run| && t in run[i].threads && run[i].threads[t].GetDone?
      ensures ReadsWithin(size, history, run[i].threads[t], i)
    {
      GetIsLinearizable(size, run, i, t);
      var g := run[i].threads[t];
      var m :| g.since <= m <= i && Look(run[m], g.key) == g.result;
      LookIsView(run[m], g.key);
    }
  }

  /** The get's result is what the sequential cache held then. */
  ghost predicate ReadsWithin<V(!new)>(size: nat, history: seq<seq<CacheOp<V>>>, g: Thread<V>, now: nat)
    requires g.GetDone? && now < |history|
  {
    exists m :: g.since <= m <= now && g.result ==
      var held := Cache.Run(size, map[], history[m]);
      if g.key in held then Some(held[g.key]) else None
  }

  lemma LookIsView<V>(s: State<V>, k: Bytes)
    ensures Look(s, k) == if k in View(s) then Some(View(s)[k]) else None
  {}
}

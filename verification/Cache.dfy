/** The response cache: a bounded ordered map whose values live in cells with
    locks of their own. */
module Cache {
  import opened Wrappers
  import opened Bytes
  import opened KeyOrder

  // ---------- what the operations do, one at a time ----------

  datatype CacheOp<V> = Insert(key: Bytes, value: V) | Write(key: Bytes, value: V) | Remove(key: Bytes)

  ghost predicate IsSmallest(keys: set<Bytes>, k: Bytes) {
    k in keys && forall j :: j in keys && j != k ==> Below(k, j)
  }

  lemma {:induction false} SmallestExists(keys: set<Bytes>)
    requires keys != {}
    ensures exists k :: IsSmallest(keys, k)
    decreases |keys|
  {
    var k :| k in keys;
    var rest := keys - {k};
    assert keys == rest + {k};
    if rest == {} {
      assert IsSmallest(keys, k);
    } else {
      SmallestExists(rest);
      var j :| IsSmallest(rest, j);
      Trichotomy(k, j);
      if Below(j, k) {
        assert IsSmallest(keys, j);
      } else {
        forall i | i in rest && i != j
          ensures Below(k, i)
        {
          Transitive(k, j, i);
        }
        assert IsSmallest(keys, k);
      }
    }
  }

  lemma SmallestIsUnique(keys: set<Bytes>, j: Bytes, k: Bytes)
    requires IsSmallest(keys, j) && IsSmallest(keys, k)
    ensures j == k
  {
    Trichotomy(j, k);
  }

  ghost function Smallest(keys: set<Bytes>): (k: Bytes)
    requires keys != {}
    ensures IsSmallest(keys, k)
  {
    SmallestExists(keys);
    var k :| IsSmallest(keys, k);
    k
  }

  /** Room is made whenever the map is full, even for a key that is already there. */
  ghost function Evicted<T>(size: nat, m: map<Bytes, T>): map<Bytes, T> {
    if |m| >= size && m != map[] then m - {Smallest(m.Keys)} else m
  }

  ghost function Step<V>(size: nat, m: map<Bytes, V>, op: CacheOp<V>): map<Bytes, V> {
    match op
    case Insert(k, v) => Evicted(size, m)[k := v]
    case Write(k, v) => if k in m then m[k := v] else m
    case Remove(k) => m - {k}
  }

  /** The same operations on a map without a bound. */
  ghost function Unbounded<V>(m: map<Bytes, V>, op: CacheOp<V>): map<Bytes, V> {
    match op
    case Insert(k, v) => m[k := v]
    case Write(k, v) => if k in m then m[k := v] else m
    case Remove(k) => m - {k}
  }

  ghost function Run<V>(size: nat, m: map<Bytes, V>, ops: seq<CacheOp<V>>): map<Bytes, V> {
    if ops == [] then m else Step(size, Run(size, m, ops[..|ops| - 1]), ops[|ops| - 1])
  }

  ghost function RunUnbounded<V>(m: map<Bytes, V>, ops: seq<CacheOp<V>>): map<Bytes, V> {
    if ops == [] then m else Unbounded(RunUnbounded(m, ops[..|ops| - 1]), ops[|ops| - 1])
  }

  ghost predicate SubMap<V>(m: map<Bytes, V>, n: map<Bytes, V>) {
    forall k :: k in m ==> k in n && m[k] == n[k]
  }

  /** Over any operations the cache stays within its bound and never holds
      anything but the last value stored for a key. */
  lemma {:induction false} BoundedSubMap<V>(size: nat, ops: seq<CacheOp<V>>)
    ensures |Run(size, map[], ops)| <= (if size > 1 then size else 1)
    ensures SubMap(Run(size, map[], ops), RunUnbounded(map[], ops))
  {
    if ops != [] {
      BoundedSubMap(size, ops[..|ops| - 1]);
      StepSize(size, Run(size, map[], ops[..|ops| - 1]), ops[|ops| - 1]);
    }
  }

  lemma StepSize<V>(size: nat, m: map<Bytes, V>, op: CacheOp<V>)
    requires |m| <= (if size > 1 then size else 1)
    ensures |Step(size, m, op)| <= (if size > 1 then size else 1)
  {
    match op
    case Insert(k, v) =>
      if |m| >= size && m != map[] {
        assert |m - {Smallest(m.Keys)}| == |m| - 1;
      }
      AddSize(Evicted(size, m), k, v);
    case Write(k, v) =>
      if k in m {
        assert m[k := v].Keys == m.Keys;
        assert |m[k := v].Keys| == |m.Keys|;
      }
    case Remove(k) =>
      assert (m - {k}).Keys <= m.Keys;
      SubsetSize((m - {k}).Keys, m.Keys);
  }

  lemma AddSize<V>(m: map<Bytes, V>, k: Bytes, v: V)
    ensures |m[k := v]| <= |m| + 1
  {
    assert m[k := v].Keys == m.Keys + {k};
    assert |m[k := v].Keys| == |m[k := v]| && |m.Keys| == |m|;
  }

  /** An insert is visible at once; of the other keys exactly the smallest is
      lost, and only when the map was full, even if the key was there already. */
  lemma InsertEffect<V>(size: nat, m: map<Bytes, V>, k: Bytes, v: V, j: Bytes)
    requires j != k
    ensures var m' := Step(size, m, Insert(k, v));
      && k in m' && m'[k] == v
      && (j in m' ==> j in m && m'[j] == m[j])
      && (j in m && j !in m' <==> |m| >= size && IsSmallest(m.Keys, j))
  {
    if m != map[] && IsSmallest(m.Keys, j) {
      SmallestIsUnique(m.Keys, j, Smallest(m.Keys));
    }
  }

  /** The lost key in plain terms: it is the first of the full map's keys, byte by
      byte, a proper prefix coming before what it is a prefix of. */
  lemma InsertEvictsFirst<V>(size: nat, m: map<Bytes, V>, k: Bytes, v: V, j: Bytes)
    requires j != k
    ensures j in m && j !in Step(size, m, Insert(k, v)) <==>
      && |m| >= size && j in m
      && forall i :: i in m && i != j ==>
           || (|j| < |i| && i[..|j|] == j)
           || (exists n :: 0 <= n < |j| && n < |i| && j[..n] == i[..n] && j[n] < i[n])
  {
    InsertEffect(size, m, k, v, j);
    forall i | i in m && i != j
      ensures Below(j, i) <==>
        || (|j| < |i| && i[..|j|] == j)
        || (exists n :: 0 <= n < |j| && n < |i| && j[..n] == i[..n] && j[n] < i[n])
    {
      BelowIsLexicographic(j, i);
    }
  }

  /** A write changes the value of a key that is there, a removal takes the key
      away, and neither touches any other key. */
  lemma OtherEffects<V>(size: nat, m: map<Bytes, V>, k: Bytes, v: V, j: Bytes)
    ensures var m' := Step(size, m, Write(k, v));
      (j in m' <==> j in m) && (j in m ==> m'[j] == if j == k then v else m[j])
    ensures var m' := Step(size, m, Remove(k));
      (j in m' <==> j in m && j != k) && (j in m' ==> m'[j] == m[j])
  {}

  /** A cache of two that holds 1 and 2 loses 1 when 3 comes in. */
  lemma FirstOfTwoGoes()
    ensures Step(2, map[[1] := 10, [2] := 20], Insert([3], 30)) == map[[2] := 20, [3] := 30]
  {
    var m: map<Bytes, int> := map[[1] := 10, [2] := 20];
    assert m.Keys == {[1], [2]} && |m| == |m.Keys|;
    assert Below([1], [2]);
    assert IsSmallest(m.Keys, [1]);
    SmallestIsUnique(m.Keys, [1], Smallest(m.Keys));
    assert m - {[1]} == map[[2] := 20];
  }

  // ---------- the cache object ----------

  class Cell<V> {
    var value: V

    constructor (value: V)
      ensures this.value == value
    {
      this.value := value;
    }
  }

  class SimpleCache<V> {
    var cells: map<Bytes, Cell<V>>
    const size: nat

    constructor (size: nat)
      ensures Valid() && this.size == size && Contents() == map[]
    {
      this.size := size;
      this.cells := map[];
    }

    /** No two keys share a cell. */
    ghost predicate Valid()
      reads this
    {
      forall j, k :: j in cells && k in cells && j != k ==> cells[j] != cells[k]
    }

    ghost function Contents(): map<Bytes, V>
      reads this, cells.Values
    {
      map k | k in cells :: cells[k].value
    }

    /** The first key in order. */
    method FirstKey() returns (first: Bytes)
      requires cells != map[]
      ensures IsSmallest(cells.Keys, first)
    {
      first :| first in cells.Keys;
      var rest := cells.Keys - {first};
      while rest != {}
        invariant first in cells.Keys && rest <= cells.Keys
        invariant forall j :: j in cells.Keys && j !in rest && j != first ==> Below(first, j)
        decreases |rest|
      {
        var k :| k in rest;
        rest := rest - {k};
        Trichotomy(first, k);
        if Below(k, first) {
          forall j | j in cells.Keys && j !in rest && j != k && j != first
            ensures Below(k, j)
          {
            Transitive(k, first, j);
          }
          first := k;
        }
      }
    }

    method MakeRoom()
      requires Valid()
      modifies this
      ensures Valid() && Contents() == Evicted(size, old(Contents()))
      ensures cells.Values <= old(cells.Values)
    {
      hide Smallest;
      ghost var before := Contents();
      assert before.Keys == cells.Keys && |before.Keys| == |cells.Keys|;
      if |cells| >= size && cells != map[] {
        var oldest := FirstKey();
        SmallestIsUnique(cells.Keys, oldest, Smallest(before.Keys));
        cells := cells - {oldest};
        assert Contents() == before - {oldest};
      }
    }

    method Insert(key: Bytes, value: V)
      requires Valid()
      modifies this
      ensures Valid() && Contents() == Step(size, old(Contents()), CacheOp.Insert(key, value))
    {
      hide Evicted;
      MakeRoom();
      ghost var kept := Contents();
      var cell := new Cell(value);
      cells := cells[key := cell];
      assert Contents() == kept[key := value];
    }

    method Get(key: Bytes) returns (r: Option<V>)
      requires Valid()
      ensures r == if key in Contents() then Some(Contents()[key]) else None
    {
      r := if key in cells then Some(cells[key].value) else None;
    }

    method Write(key: Bytes, value: V)
      requires Valid()
      modifies cells.Values
      ensures Valid() && Contents() == Step(size, old(Contents()), CacheOp.Write(key, value))
    {
      if key in cells {
        cells[key].value := value;
      }
    }

    method Remove(key: Bytes)
      requires Valid()
      modifies this
      ensures Valid() && Contents() == Step(size, old(Contents()), CacheOp.Remove(key))
    {
      cells := cells - {key};
    }
  }
}

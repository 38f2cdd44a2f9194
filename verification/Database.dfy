/** The sorted key-value store and its prefix scan. */
module Database {
  import opened Wrappers
  import opened Bytes
  import opened KeyOrder

  datatype DBRow = DBRow(key: Bytes, value: Bytes)
  datatype DBFlush = Disable | Enable

  ghost predicate Sorted(rows: seq<DBRow>) {
    forall i, j :: 0 <= i < j < |rows| ==> Below(rows[i].key, rows[j].key)
  }

  /** rows lists, in key order, what m holds at and after a key. */
  ghost predicate Lists(rows: seq<DBRow>, m: map<Bytes, Bytes>, start: Bytes) {
    && Sorted(rows)
    && (forall r :: r in rows <==> r.key in m && m[r.key] == r.value && !Below(r.key, start))
  }

  /** The leading rows whose keys have the prefix. */
  function TakePrefix(p: Bytes, rows: seq<DBRow>): seq<DBRow> {
    if rows == [] || !HasPrefix(p, rows[0].key) then [] else [rows[0]] + TakePrefix(p, rows[1..])
  }

  /** Stopping at the first other key loses nothing: the scan gives exactly the
      rows with the prefix, in key order. */
  lemma ScanIsComplete(p: Bytes, rows: seq<DBRow>, m: map<Bytes, Bytes>)
    requires Lists(rows, m, p)
    ensures Sorted(TakePrefix(p, rows))
    ensures forall r :: r in TakePrefix(p, rows) <==> r.key in m && m[r.key] == r.value && HasPrefix(p, r.key)
  {
    var n := TakeSplits(p, rows);
    forall r: DBRow | r.key in m && m[r.key] == r.value && HasPrefix(p, r.key)
      ensures r in rows[..n]
    {
      PrefixNotBelow(p, r.key);
      var i :| 0 <= i < |rows| && rows[i] == r;
    }
  }

  lemma {:induction false} TakeSplits(p: Bytes, rows: seq<DBRow>) returns (n: nat)
    requires Sorted(rows) && forall i :: 0 <= i < |rows| ==> !Below(rows[i].key, p)
    ensures n <= |rows| && TakePrefix(p, rows) == rows[..n]
    ensures forall i :: 0 <= i < n ==> HasPrefix(p, rows[i].key)
    ensures forall i :: n <= i < |rows| ==> !HasPrefix(p, rows[i].key)
    decreases |rows|
  {
    if rows == [] {
      n := 0;
    } else if !HasPrefix(p, rows[0].key) {
      n := 0;
      forall i | 1 <= i < |rows|
        ensures !HasPrefix(p, rows[i].key)
      {
        PrefixContiguous(p, rows[0].key, rows[i].key);
      }
    } else {
      var m := TakeSplits(p, rows[1..]);
      n := m + 1;
      assert rows[..n] == [rows[0]] + rows[1..][..m];
      assert forall i :: 1 <= i < |rows| ==> rows[i] == rows[1..][i - 1];
    }
  }

  class ScanIterator {
    const prefix: Bytes
    var rest: seq<DBRow>
    var done: bool

    constructor (prefix: Bytes, rest: seq<DBRow>)
      ensures this.prefix == prefix && Remaining() == TakePrefix(prefix, rest)
    {
      this.prefix, this.rest, this.done := prefix, rest, false;
    }

    ghost function Remaining(): seq<DBRow>
      reads this
    {
      if done then [] else TakePrefix(prefix, rest)
    }

    method Next() returns (r: Option<DBRow>)
      modifies this
      ensures old(Remaining()) == [] ==> r == None && Remaining() == []
      ensures old(Remaining()) != [] ==>
        r == Some(old(Remaining())[0]) && Remaining() == old(Remaining())[1..]
    {
      if done || rest == [] {
        return None;
      }
      var row := rest[0];
      rest := rest[1..];
      if !HasPrefix(prefix, row.key) {
        done := true;
        return None;
      }
      r := Some(row);
    }
  }

  /** after is before with the batch put into it; where the batch has a key
      twice, either value may win. */
  ghost predicate Puts(before: map<Bytes, Bytes>, batch: seq<DBRow>, after: map<Bytes, Bytes>) {
    && (forall k :: k in after <==> k in before || exists r :: r in batch && r.key == k)
    && (forall k :: k in after ==>
          (exists r :: r in batch && r.key == k && after[k] == r.value)
          || ((forall r :: r in batch ==> r.key != k) && k in before && after[k] == before[k]))
  }

  method InsertSorted(rows: seq<DBRow>, row: DBRow) returns (r: seq<DBRow>)
    ensures forall x :: x in r <==> x in rows || x == row
    ensures Sorted(rows) && (forall x :: x in rows ==> x.key != row.key) ==> Sorted(r)
  {
    var i := 0;
    while i < |rows| && Below(rows[i].key, row.key)
      invariant 0 <= i <= |rows|
      invariant forall j :: 0 <= j < i ==> Below(rows[j].key, row.key)
    {
      i := i + 1;
    }
    r := rows[..i] + [row] + rows[i..];
    assert rows == rows[..i] + rows[i..];
    if Sorted(rows) && (forall x :: x in rows ==> x.key != row.key) {
      InsertKeepsSorted(rows, i, row);
    }
  }

  lemma InsertKeepsSorted(rows: seq<DBRow>, i: nat, row: DBRow)
    requires i <= |rows| && Sorted(rows)
    requires forall j :: 0 <= j < i ==> Below(rows[j].key, row.key)
    requires i < |rows| ==> rows[i].key != row.key && !Below(rows[i].key, row.key)
    ensures Sorted(rows[..i] + [row] + rows[i..])
  {
    forall j | i <= j < |rows|
      ensures Below(row.key, rows[j].key)
    {
      Trichotomy(row.key, rows[i].key);
      if j > i {
        Transitive(row.key, rows[i].key, rows[j].key);
      }
    }
  }

  class DB {
    var rows: map<Bytes, Bytes>
    /** Every state the database has been in: what a crash may leave behind. */
    ghost var log: seq<map<Bytes, Bytes>>

    constructor (rows: map<Bytes, Bytes>)
      ensures this.rows == rows && log == [rows]
    {
      this.rows, this.log := rows, [rows];
    }

    /** One atomic batch, sorted by key first. */
    method Write(batch: seq<DBRow>, flush: DBFlush)
      modifies this
      ensures Puts(old(rows), batch, rows)
      ensures log == old(log) + [rows]
    {
      var sorted: seq<DBRow> := [];
      for i := 0 to |batch|
        invariant unchanged(this)
        invariant forall x :: x in sorted <==> x in batch[..i]
      {
        sorted := InsertSorted(sorted, batch[i]);
        assert batch[..i + 1] == batch[..i] + [batch[i]];
      }
      assert batch[..|batch|] == batch;
      var after := rows;
      for i := 0 to |sorted|
        invariant unchanged(this) && Puts(rows, sorted[..i], after)
      {
        PutsOne(rows, sorted[..i], after, sorted[i]);
        assert sorted[..i + 1] == sorted[..i] + [sorted[i]];
        after := after[sorted[i].key := sorted[i].value];
      }
      assert sorted[..|sorted|] == sorted;
      rows := after;
      log := log + [rows];
    }

    method PutSync(key: Bytes, value: Bytes)
      modifies this
      ensures rows == old(rows)[key := value] && log == old(log) + [rows]
    {
      rows := rows[key := value];
      log := log + [rows];
    }

    function Get(key: Bytes): Option<Bytes>
      reads this
    {
      if key in rows then Some(rows[key]) else None
    }

    method IterScan(prefix: Bytes) returns (it: ScanIterator)
      ensures fresh(it) && Sorted(it.Remaining())
      ensures forall r :: r in it.Remaining() <==>
        r.key in rows && rows[r.key] == r.value && HasPrefix(prefix, r.key)
    {
      var listing: seq<DBRow> := [];
      var keys := rows.Keys;
      while keys != {}
        invariant keys <= rows.Keys && Sorted(listing)
        invariant forall r :: r in listing <==>
          r.key in rows && r.key !in keys && rows[r.key] == r.value && !Below(r.key, prefix)
        decreases |keys|
      {
        var k :| k in keys;
        keys := keys - {k};
        if !Below(k, prefix) {
          listing := InsertSorted(listing, DBRow(k, rows[k]));
        }
      }
      it := new ScanIterator(prefix, listing);
      ScanIsComplete(prefix, listing, rows);
    }
  }

  /** Draining the iterator: all rows with the prefix, in key order. */
  method Scan(db: DB, prefix: Bytes) returns (rows: seq<DBRow>)
    ensures Sorted(rows)
    ensures forall r :: r in rows <==> r.key in db.rows && db.rows[r.key] == r.value && HasPrefix(prefix, r.key)
  {
    hide TakePrefix;
    var it := db.IterScan(prefix);
    ghost var all, n := it.Remaining(), 0;
    rows := [];
    while true
      invariant fresh(it) && n <= |all|
      invariant rows == all[..n] && it.Remaining() == all[n..]
      decreases |all| - n
    {
      var row := it.Next();
      if row.None? {
        break;
      }
      rows := rows + [row.value];
      n := n + 1;
    }
    assert all[..n] == all;
  }

  lemma PutsOne(before: map<Bytes, Bytes>, batch: seq<DBRow>, after: map<Bytes, Bytes>, row: DBRow)
    requires Puts(before, batch, after)
    ensures Puts(before, batch + [row], after[row.key := row.value])
  {
    var all := batch + [row];
    assert row in all;
    forall k | k in after[row.key := row.value]
      ensures (exists r :: r in all && r.key == k && after[row.key := row.value][k] == r.value)
        || ((forall r :: r in all ==> r.key != k) && k in before && after[row.key := row.value][k] == before[k])
    {
      if k != row.key && exists r :: r in batch && r.key == k && after[k] == r.value {
        var r :| r in batch && r.key == k && after[k] == r.value;
        assert r in all;
      }
    }
    forall k
      ensures k in after[row.key := row.value] <==> k in before || exists r :: r in all && r.key == k
    {
      if exists r :: r in batch && r.key == k {
        var r :| r in batch && r.key == k;
        assert r in all;
      }
    }
  }
}

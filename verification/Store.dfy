/** The rows in which headers are kept, loading them, and opening and reloading
    the store. */
module Stores {
  import opened Wrappers
  import opened Bytes
  import opened Chain
  import opened Codec
  import opened KeyOrder
  import opened Database
  import opened HeaderLists
  import opened Syncs

  const HEADER_PREFIX: Bytes := [0x62]
  const DONE_PREFIX: Bytes := [0x44]
  const TIP_KEY: Bytes := [0x74]
  const VERSION_KEY: Bytes := [0x56]
  const DB_VERSION: nat := 2
  const KEY_LENGTH: nat := 33

  function HeaderKey(h: BlockHash): Bytes { HEADER_PREFIX + WriteHash(h) }
  function DoneKey(h: BlockHash): Bytes { DONE_PREFIX + WriteHash(h) }

  function HeaderRow(e: HeaderEntry): DBRow { DBRow(HeaderKey(e.hash), WriteHeader(e.header)) }
  function DoneRow(e: HeaderEntry): DBRow { DBRow(DoneKey(e.hash), []) }

  /** The hash in a row key; bytes beyond it are ignored. */
  function KeyHash(key: Bytes): Option<BlockHash> {
    if |key| < KEY_LENGTH then None else
      var r := ReadHash(key[1..]);
      if r.None? then None else Some(r.value.0)
  }

  /** A header value, which must be used up. */
  function ValueHeader(value: Bytes): Option<Header> {
    var r := ReadHeader(value);
    if r.None? || r.value.1 != [] then None else Some(r.value.0)
  }

  lemma KeysReadBack(h: BlockHash)
    ensures KeyHash(HeaderKey(h)) == Some(h) && KeyHash(DoneKey(h)) == Some(h)
    ensures |HeaderKey(h)| == |DoneKey(h)| == KEY_LENGTH
  {
    ReadsBackHash(h, []);
    assert WriteHash(h) + [] == WriteHash(h);
    assert HeaderKey(h)[1..] == WriteHash(h) && DoneKey(h)[1..] == WriteHash(h);
  }

  lemma ValueReadsBack(h: Header)
    ensures ValueHeader(WriteHeader(h)) == Some(h)
  {
    ReadsBackHeader(h, []);
    assert WriteHeader(h) + [] == WriteHeader(h);
  }

  /** Two rows for each header, side by side. */
  function Rows(es: seq<HeaderEntry>): (rows: seq<DBRow>)
    ensures |rows| == 2 * |es|
  {
    seq(2 * |es|, i requires 0 <= i < 2 * |es| => if i % 2 == 0 then HeaderRow(es[i / 2]) else DoneRow(es[i / 2]))
  }

  method AddSyncHeaders(es: seq<HeaderEntry>) returns (rows: seq<DBRow>)
    ensures rows == Rows(es)
  {
    rows := [];
    for i := 0 to |es|
      invariant rows == Rows(es)[..2 * i]
    {
      rows := rows + [HeaderRow(es[i])];
      rows := rows + [DoneRow(es[i])];
      assert Rows(es)[2 * i] == HeaderRow(es[i]) && Rows(es)[2 * i + 1] == DoneRow(es[i]);
    }
  }

  /** An even cut never separates the two rows of a header. */
  lemma RowsSplit(es: seq<HeaderEntry>, n: nat)
    requires n <= |es|
    ensures Rows(es)[..2 * n] == Rows(es[..n]) && Rows(es)[2 * n..] == Rows(es[n..])
  {
    forall j | 0 <= j < 2 * (|es| - n)
      ensures Rows(es)[2 * n + j] == Rows(es[n..])[j]
    {
      assert (2 * n + j) / 2 == n + j / 2;
    }
  }

  // ---------- what the rows mean ----------

  /** The database holds exactly the rows of the disk, the tip key and perhaps a version. */
  ghost predicate Represents(m: map<Bytes, Bytes>, d: Disk) {
    && (forall k :: k in m ==> Classified(k, d))
    && (forall h {:trigger HeaderKey(h)} :: h in d.headers ==>
          HeaderKey(h) in m && m[HeaderKey(h)] == WriteHeader(d.headers[h]))
    && (forall h {:trigger DoneKey(h)} :: h in d.done ==> DoneKey(h) in m && m[DoneKey(h)] == [])
    && (TIP_KEY in m <==> d.tip.Some?)
    && (d.tip.Some? ==> m[TIP_KEY] == WriteHash(d.tip.value))
  }

  ghost predicate Classified(k: Bytes, d: Disk) {
    || k == VERSION_KEY
    || k == TIP_KEY
    || (exists h {:trigger HeaderKey(h)} :: h in d.headers && k == HeaderKey(h))
    || (exists h {:trigger DoneKey(h)} :: h in d.done && k == DoneKey(h))
  }

  /** The bytes themselves: `b` and the hash give the 80 bytes of a header, `D` and
      the hash mark it as done, and `t` gives the hash of the tip. */
  lemma RowBytes(m: map<Bytes, Bytes>, d: Disk, h: BlockHash)
    requires Represents(m, d)
    ensures h in d.headers <==> [0x62] + ToLE(32, h) in m
    ensures h in d.headers ==> m[[0x62] + ToLE(32, h)] == WriteHeader(d.headers[h])
    ensures h in d.done <==> [0x44] + ToLE(32, h) in m
    ensures d.tip == Some(h) <==> [0x74] in m && m[[0x74]] == ToLE(32, h)
  {
    hide WriteHeader, WriteHash, ToLE, KeyHash;
    HashBytes(h);
    KeysReadBack(h);
    assert HeaderKey(h) == [0x62] + ToLE(32, h) && DoneKey(h) == [0x44] + ToLE(32, h);
    if HeaderKey(h) in m {
      var g := HeaderKeysAre(m, d, HeaderKey(h));
      KeysReadBack(g);
    }
    if DoneKey(h) in m {
      var g := DoneKeysAre(m, d, DoneKey(h));
      KeysReadBack(g);
    }
    if d.tip.Some? {
      ReadsBackHash(d.tip.value, []);
      ReadsBackHash(h, []);
    }
  }

  lemma HashBytes(h: BlockHash)
    ensures WriteHash(h) == ToLE(32, h)
  {}

  lemma HeaderKeysAre(m: map<Bytes, Bytes>, d: Disk, k: Bytes) returns (h: BlockHash)
    requires Represents(m, d) && k in m && HasPrefix(HEADER_PREFIX, k)
    ensures h in d.headers && k == HeaderKey(h)
  {
    assert Classified(k, d) && k[0] == k[..1][0];
    h :| h in d.headers && k == HeaderKey(h);
  }

  lemma DoneKeysAre(m: map<Bytes, Bytes>, d: Disk, k: Bytes) returns (h: BlockHash)
    requires Represents(m, d) && k in m && HasPrefix(DONE_PREFIX, k)
    ensures h in d.done && k == DoneKey(h)
  {
    assert Classified(k, d) && k[0] == k[..1][0];
    h :| h in d.done && k == DoneKey(h);
  }

  /** Entries with one hash have one header. */
  ghost predicate Consistent(es: seq<HeaderEntry>) {
    forall i, j :: 0 <= i < |es| && 0 <= j < |es| && es[i].hash == es[j].hash ==> es[i].header == es[j].header
  }

  lemma {:induction false} AddedAt(d: Disk, es: seq<HeaderEntry>, i: nat)
    requires Consistent(es) && i < |es|
    ensures es[i].hash in Add(d, es).headers && Add(d, es).headers[es[i].hash] == es[i].header
    ensures es[i].hash in Add(d, es).done
    decreases |es|
  {
    var n := |es| - 1;
    if i < n {
      AddedAt(d, es[..n], i);
      assert es[..n][i] == es[i];
    }
  }

  lemma {:induction false} AddKeeps(d: Disk, es: seq<HeaderEntry>, h: BlockHash)
    requires forall i :: 0 <= i < |es| ==> es[i].hash != h
    ensures h in Add(d, es).headers <==> h in d.headers
    ensures h in d.headers ==> Add(d, es).headers[h] == d.headers[h]
    ensures h in Add(d, es).done <==> h in d.done
    decreases |es|
  {
    if es != [] {
      AddKeeps(d, es[..|es| - 1], h);
    }
  }

  lemma {:induction false} AddKeepsTip(d: Disk, es: seq<HeaderEntry>)
    ensures Add(d, es).tip == d.tip && d.done <= Add(d, es).done && d.headers.Keys <= Add(d, es).headers.Keys
    decreases |es|
  {
    if es != [] {
      AddKeepsTip(d, es[..|es| - 1]);
    }
  }

  /** Writing the rows of some headers and then reading the database gives the
      disk with those headers added. */
  lemma WriteRepresents(m: map<Bytes, Bytes>, d: Disk, es: seq<HeaderEntry>, m': map<Bytes, Bytes>)
    requires Represents(m, d) && Consistent(es) && Puts(m, Rows(es), m')
    ensures Represents(m', Add(d, es))
  {
    AddKeepsTip(d, es);
    forall k | k in m'
      ensures Classified(k, Add(d, es))
    {
      if k in m {
        assert Classified(k, d);
      } else {
        var r :| r in Rows(es) && r.key == k;
        var i := RowIs(es, r);
        AddedAt(d, es, i);
      }
    }
    forall h {:trigger HeaderKey(h)} | h in Add(d, es).headers
      ensures HeaderKey(h) in m' && m'[HeaderKey(h)] == WriteHeader(Add(d, es).headers[h])
    {
      HeaderWritten(m, d, es, m', h);
    }
    forall h {:trigger DoneKey(h)} | h in Add(d, es).done
      ensures DoneKey(h) in m' && m'[DoneKey(h)] == []
    {
      DoneWritten(m, d, es, m', h);
    }
    forall r | r in Rows(es)
      ensures r.key != TIP_KEY
    {
      var i := RowIs(es, r);
    }
  }

  /** Every row is one of the two rows of some header. */
  lemma RowIs(es: seq<HeaderEntry>, r: DBRow) returns (i: nat)
    requires r in Rows(es)
    ensures i < |es| && (r == HeaderRow(es[i]) || r == DoneRow(es[i]))
    ensures r.key[0] == (if r == HeaderRow(es[i]) then 0x62 else 0x44) && |r.key| == KEY_LENGTH
    ensures KeyHash(r.key) == Some(es[i].hash)
  {
    var j :| 0 <= j < |Rows(es)| && Rows(es)[j] == r;
    i := j / 2;
    KeysReadBack(es[i].hash);
  }

  lemma HeaderWritten(m: map<Bytes, Bytes>, d: Disk, es: seq<HeaderEntry>, m': map<Bytes, Bytes>, h: BlockHash)
    requires Represents(m, d) && Consistent(es) && Puts(m, Rows(es), m') && h in Add(d, es).headers
    ensures HeaderKey(h) in m' && m'[HeaderKey(h)] == WriteHeader(Add(d, es).headers[h])
  {
    hide Add, WriteHeader, KeyHash;
    KeysReadBack(h);
    var k := HeaderKey(h);
    if i :| 0 <= i < |es| && es[i].hash == h {
      assert Rows(es)[2 * i] == HeaderRow(es[i]);
      var r :| r in Rows(es) && r.key == k && m'[k] == r.value;
      var j := RowIs(es, r);
      AddedAt(d, es, j);
    } else {
      AddKeeps(d, es, h);
      forall r | r in Rows(es)
        ensures r.key != k
      {
        var j := RowIs(es, r);
      }
    }
  }

  lemma DoneWritten(m: map<Bytes, Bytes>, d: Disk, es: seq<HeaderEntry>, m': map<Bytes, Bytes>, h: BlockHash)
    requires Represents(m, d) && Consistent(es) && Puts(m, Rows(es), m') && h in Add(d, es).done
    ensures DoneKey(h) in m' && m'[DoneKey(h)] == []
  {
    hide Add, WriteHeader, KeyHash;
    KeysReadBack(h);
    var k := DoneKey(h);
    if i :| 0 <= i < |es| && es[i].hash == h {
      assert Rows(es)[2 * i + 1] == DoneRow(es[i]);
      var r :| r in Rows(es) && r.key == k && m'[k] == r.value;
      var j := RowIs(es, r);
    } else {
      AddKeeps(d, es, h);
      forall r | r in Rows(es)
        ensures r.key != k
      {
        var j := RowIs(es, r);
      }
    }
  }

  lemma TipRepresents(m: map<Bytes, Bytes>, d: Disk, t: BlockHash)
    requires Represents(m, d)
    ensures Represents(m[TIP_KEY := WriteHash(t)], d.(tip := Some(t)))
  {
    var m' := m[TIP_KEY := WriteHash(t)];
    forall k | k in m'
      ensures Classified(k, d.(tip := Some(t)))
    {
      if k in m {
        assert Classified(k, d);
      }
    }
    forall h | h in d.headers
      ensures HeaderKey(h) in m' && m'[HeaderKey(h)] == WriteHeader(d.headers[h])
    {
      KeysReadBack(h);
    }
    forall h | h in d.done
      ensures DoneKey(h) in m' && m'[DoneKey(h)] == []
    {
      KeysReadBack(h);
    }
  }

  // ---------- loading ----------

  method LoadBlockhashes(db: DB, ghost d: Disk) returns (hashes: set<BlockHash>)
    requires Represents(db.rows, d)
    ensures hashes == d.done
  {
    hide KeyHash, WriteHash;
    var rows := Scan(db, DONE_PREFIX);
    hashes := {};
    for i := 0 to |rows|
      invariant hashes <= d.done
      invariant forall j :: 0 <= j < i ==> KeyHash(rows[j].key).Some? && KeyHash(rows[j].key).value in hashes
    {
      assert rows[i] in rows;
      ghost var known := DoneKeysAre(db.rows, d, rows[i].key);
      KeysReadBack(known);
      hashes := hashes + {KeyHash(rows[i].key).value};
    }
    forall h | h in d.done
      ensures h in hashes
    {
      KeysReadBack(h);
      assert DBRow(DoneKey(h), []) in rows;
    }
  }

  method LoadSyncBlockheaders(db: DB, ghost d: Disk) returns (headers: map<BlockHash, Header>)
    requires Represents(db.rows, d)
    ensures headers == d.headers
  {
    hide KeyHash, WriteHash, WriteHeader, ValueHeader;
    var rows := Scan(db, HEADER_PREFIX);
    headers := map[];
    for i := 0 to |rows|
      invariant forall h :: h in headers ==> h in d.headers && headers[h] == d.headers[h]
      invariant forall j :: 0 <= j < i ==> KeyHash(rows[j].key).Some? && KeyHash(rows[j].key).value in headers
    {
      assert rows[i] in rows;
      ghost var known := HeaderKeysAre(db.rows, d, rows[i].key);
      KeysReadBack(known);
      ValueReadsBack(d.headers[known]);
      headers := headers[KeyHash(rows[i].key).value := ValueHeader(rows[i].value).value];
    }
    forall h | h in d.headers
      ensures h in headers
    {
      KeysReadBack(h);
      assert DBRow(HeaderKey(h), WriteHeader(d.headers[h])) in rows;
    }
  }

  lemma VersionBytes()
    ensures ToLE(4, DB_VERSION) == [2, 0, 0, 0]
  {
    assert ToLE(1, 0) == [0] && ToLE(2, 0) == [0, 0] && ToLE(3, 0) == [0, 0, 0];
  }

  lemma VersionRepresents(m: map<Bytes, Bytes>, d: Disk, v: Bytes)
    requires Represents(m, d)
    ensures Represents(m[VERSION_KEY := v], d)
  {
    forall k | k in m[VERSION_KEY := v]
      ensures Classified(k, d)
    {
      assert k in m ==> Classified(k, d);
    }
    forall h {:trigger HeaderKey(h)} | h in d.headers
      ensures HeaderKey(h) != VERSION_KEY
    {
      KeysReadBack(h);
    }
    forall h {:trigger DoneKey(h)} | h in d.done
      ensures DoneKey(h) != VERSION_KEY
    {
      KeysReadBack(h);
    }
  }

  /** The list and the synced set, read from a database. */
  method LoadAll(hash: Header -> BlockHash, db: DB, ghost d: Disk)
    returns (r: Outcome<(set<BlockHash>, HeaderList)>)
    requires Represents(db.rows, d)
    ensures r.Panicked? <==> Reopened(hash, d).Panicked?
    ensures r.Returned? ==>
      && fresh(r.value.1) && r.value.1.hash == hash
      && Reopened(hash, d) == Returned(Node(d, r.value.0, r.value.1.State()))
  {
    hide Rebuild;
    var hashes := LoadBlockhashes(db, d);
    var tip := db.Get(TIP_KEY);
    if tip.None? {
      var empty := new HeaderList.Empty(hash);
      return Returned((hashes, empty));
    }
    TipReadsBack(d);
    var tipHash := ReadHash(tip.value);
    var headers := LoadSyncBlockheaders(db, d);
    var list := HeaderList.New(hash, headers, tipHash.value.0);
    r := if list.Panicked? then Panicked else Returned((hashes, list.value));
  }

  lemma TipReadsBack(d: Disk)
    ensures d.tip.Some? ==> ReadHash(WriteHash(d.tip.value)) == Some((d.tip.value, []))
  {
    if d.tip.Some? {
      ReadsBackHash(d.tip.value, []);
      assert WriteHash(d.tip.value) + [] == WriteHash(d.tip.value);
    }
  }

  class Store {
    const hash: Header -> BlockHash
    const db: DB
    var synced: set<BlockHash>
    var syncHeaders: HeaderList
    /** What the database holds. */
    ghost var disk: Disk

    ghost predicate Valid()
      reads this, db
    {
      Represents(db.rows, disk) && syncHeaders.hash == hash
    }

    ghost function Node(): Node
      reads this, syncHeaders
    {
      Syncs.Node(disk, synced, syncHeaders.State())
    }

    constructor (hash: Header -> BlockHash, db: DB, synced: set<BlockHash>, list: HeaderList, ghost d: Disk)
      ensures this.hash == hash && this.db == db && this.synced == synced && syncHeaders == list && disk == d
    {
      this.hash, this.db, this.synced, this.syncHeaders, this.disk := hash, db, synced, list, d;
    }

    /** Opens a database; it refuses one of another version. */
    static method Open(hash: Header -> BlockHash, db: DB, ghost d: Disk) returns (r: Outcome<Store>)
      requires Represents(db.rows, d)
      modifies db
      ensures r.Panicked? <==>
        || Reopened(hash, d).Panicked?
        || ([0x56] in old(db.rows) && old(db.rows)[[0x56]] != [2, 0, 0, 0])
      ensures db.rows == if [0x56] in old(db.rows) then old(db.rows) else old(db.rows)[[0x56] := [2, 0, 0, 0]]
      ensures r.Returned? ==>
        && fresh(r.value) && fresh(r.value.syncHeaders)
        && r.value.hash == hash && r.value.db == db
        && r.value.Valid() && Reopened(hash, d) == Returned(r.value.Node())
    {
      hide Rebuild;
      VersionBytes();
      var version := db.Get(VERSION_KEY);
      if version.None? {
        VersionRepresents(db.rows, d, ToLE(4, DB_VERSION));
        db.PutSync(VERSION_KEY, ToLE(4, DB_VERSION));
      } else if version.value != ToLE(4, DB_VERSION) {
        return Panicked;
      }
      var loaded := LoadAll(hash, db, d);
      if loaded.Panicked? {
        return Panicked;
      }
      var store := new Store(hash, db, loaded.value.0, loaded.value.1, d);
      r := Returned(store);
    }

    /** Replaces everything in memory by what the database says. */
    method ReloadStore() returns (r: Outcome<()>)
      requires Valid()
      modifies this
      ensures disk == old(disk) && Valid()
      ensures r.Panicked? <==> Reopened(hash, disk).Panicked?
      ensures r.Panicked? ==> Node() == old(Node()) && syncHeaders == old(syncHeaders)
      ensures r.Returned? ==> fresh(syncHeaders) && Reopened(hash, disk) == Returned(Node())
    {
      hide Rebuild;
      var loaded := LoadAll(hash, db, disk);
      if loaded.Panicked? {
        return Panicked;
      }
      synced := loaded.value.0;
      syncHeaders := loaded.value.1;
      r := Returned(());
    }
  }
}

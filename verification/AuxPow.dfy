/** Dogecoin transaction proofs: a header, the merged-mining proof that goes with
    version bit 8, and a partial Merkle tree. */
module AuxPow {
  import opened Wrappers
  import opened Bytes
  import opened Chain
  import opened Codec

  /** The byte formats of transactions and of partial trees are parameters. */
  datatype Format<!T> = Format(write: T -> Bytes, read: Bytes -> Read<T>)

  /** Reading undoes writing, whatever follows. */
  ghost predicate RoundTrips<T(!new)>(f: Format<T>) {
    forall x, rest :: f.read(f.write(x) + rest) == Some((x, rest))
  }

  /** Nothing but what could have been written is read. */
  ghost predicate Exact<T(!new)>(f: Format<T>) {
    forall b :: f.read(b).Some? ==> b == f.write(f.read(b).value.0) + f.read(b).value.1
  }

  datatype MergedMining<Tx> = MergedMining(
    coinbase: Tx, parentHash: BlockHash,
    coinbaseBranch: seq<BlockHash>, coinbaseMask: I32,
    chainBranch: seq<BlockHash>, chainMask: I32,
    parentHeader: Header)

  datatype Proof<Tx, Tree> = Proof(header: Header, merged: Option<MergedMining<Tx>>, tree: Tree)

  predicate HasMergedMining(version: I32) {
    version / 0x100 % 2 == 1
  }

  predicate Encodable<Tx, Tree>(p: Proof<Tx, Tree>) {
    && (p.merged.Some? <==> HasMergedMining(p.header.version))
    && (p.merged.Some? ==> |p.merged.value.coinbaseBranch| < COMPACT_LIMIT
                           && |p.merged.value.chainBranch| < COMPACT_LIMIT)
  }

  // ---------- writing ----------

  function WriteHashes(hs: seq<BlockHash>): Bytes {
    if hs == [] then [] else WriteHash(hs[0]) + WriteHashes(hs[1..])
  }

  function WriteBranch(hs: seq<BlockHash>, mask: I32): Bytes
    requires |hs| < COMPACT_LIMIT
  {
    WriteCompact(|hs|) + (WriteHashes(hs) + WriteI32(mask))
  }

  function WriteMerged<Tx>(tx: Format<Tx>, m: MergedMining<Tx>): Bytes
    requires |m.coinbaseBranch| < COMPACT_LIMIT && |m.chainBranch| < COMPACT_LIMIT
  {
    tx.write(m.coinbase) + (WriteHash(m.parentHash)
      + (WriteBranch(m.coinbaseBranch, m.coinbaseMask) + (WriteBranch(m.chainBranch, m.chainMask)
      + WriteHeader(m.parentHeader))))
  }

  function WriteProof<Tx, Tree>(tx: Format<Tx>, tree: Format<Tree>, p: Proof<Tx, Tree>): Bytes
    requires Encodable(p)
  {
    WriteHeader(p.header)
      + ((if p.merged.Some? then WriteMerged(tx, p.merged.value) else []) + tree.write(p.tree))
  }

  // ---------- reading ----------

  function ReadHashes(n: nat, b: Bytes): Read<seq<BlockHash>> {
    if n == 0 then Some(([], b)) else
      var first := ReadHash(b);
      if first.None? then None else
      var rest := ReadHashes(n - 1, first.value.1);
      if rest.None? then None else Some(([first.value.0] + rest.value.0, rest.value.1))
  }

  function ReadBranch(b: Bytes): Read<(seq<BlockHash>, I32)> {
    var n := ReadCompact(b);
    if n.None? then None else
    var hs := ReadHashes(n.value.0, n.value.1);
    if hs.None? then None else
    var mask := ReadI32(hs.value.1);
    if mask.None? then None else Some(((hs.value.0, mask.value.0), mask.value.1))
  }

  function ReadMerged<Tx>(tx: Format<Tx>, b: Bytes): Read<MergedMining<Tx>> {
    var coinbase := tx.read(b);
    if coinbase.None? then None else
    var parentHash := ReadHash(coinbase.value.1);
    if parentHash.None? then None else
    var branch1 := ReadBranch(parentHash.value.1);
    if branch1.None? then None else
    var branch2 := ReadBranch(branch1.value.1);
    if branch2.None? then None else
    var parent := ReadHeader(branch2.value.1);
    if parent.None? then None else
    Some((MergedMining(coinbase.value.0, parentHash.value.0, branch1.value.0.0, branch1.value.0.1,
                       branch2.value.0.0, branch2.value.0.1, parent.value.0), parent.value.1))
  }

  function ReadProof<Tx, Tree>(tx: Format<Tx>, tree: Format<Tree>, b: Bytes): Read<Proof<Tx, Tree>> {
    var header := ReadHeader(b);
    if header.None? then None
    else if HasMergedMining(header.value.0.version) then
      var merged := ReadMerged(tx, header.value.1);
      if merged.None? then None else
      var t := tree.read(merged.value.1);
      if t.None? then None else Some((Proof(header.value.0, Some(merged.value.0), t.value.0), t.value.1))
    else
      var t := tree.read(header.value.1);
      if t.None? then None else Some((Proof(header.value.0, None, t.value.0), t.value.1))
  }

  /** The loop that steps over one branch and its mask. */
  method SkipBranch(b: Bytes) returns (r: Option<Bytes>)
    ensures r == match ReadBranch(b) case None => None case Some(v) => Some(v.1)
  {
    hide ReadCompact, ReadHash, ReadI32;
    var n := ReadCompact(b);
    if n.None? {
      return None;
    }
    var cursor := n.value.1;
    for i := 0 to n.value.0
      invariant ReadHashes(n.value.0, n.value.1).Some? <==> ReadHashes(n.value.0 - i, cursor).Some?
      invariant ReadHashes(n.value.0, n.value.1).Some? ==>
        ReadHashes(n.value.0, n.value.1).value.1 == ReadHashes(n.value.0 - i, cursor).value.1
    {
      var h := ReadHash(cursor);
      if h.None? {
        return None;
      }
      cursor := h.value.1;
    }
    var mask := ReadI32(cursor);
    r := if mask.None? then None else Some(mask.value.1);
  }

  /** The parser: it keeps the header and the tree and ignores what follows. */
  method ParseProof<Tx, Tree>(tx: Format<Tx>, tree: Format<Tree>, b: Bytes)
    returns (r: Option<(Header, Tree)>)
    ensures r == match ReadProof(tx, tree, b)
      case None => None
      case Some(v) => Some((v.0.header, v.0.tree))
    ensures |b| < 80 ==> r.None?
    ensures |b| >= 80 && b[1] % 2 == 0 ==>
      (r.Some? <==> tree.read(b[80..]).Some?) && (r.Some? ==> r.value.1 == tree.read(b[80..]).value.0)
  {
    PlainLayout(tx, tree, b);
    hide ReadHeader, ReadHash, ReadBranch;
    var header := ReadHeader(b);
    if header.None? {
      return None;
    }
    var cursor := header.value.1;
    if HasMergedMining(header.value.0.version) {
      var coinbase := tx.read(cursor);
      if coinbase.None? {
        return None;
      }
      var parentHash := ReadHash(coinbase.value.1);
      if parentHash.None? {
        return None;
      }
      var branch1 := SkipBranch(parentHash.value.1);
      if branch1.None? {
        return None;
      }
      var branch2 := SkipBranch(branch1.value);
      if branch2.None? {
        return None;
      }
      var parent := ReadHeader(branch2.value);
      if parent.None? {
        return None;
      }
      cursor := parent.value.1;
    }
    var t := tree.read(cursor);
    r := if t.None? then None else Some((header.value.0, t.value.0));
  }

  // ---------- reading undoes writing ----------

  lemma {:induction false} ReadsBackHashes(hs: seq<BlockHash>, rest: Bytes)
    ensures ReadHashes(|hs|, WriteHashes(hs) + rest) == Some((hs, rest))
    decreases |hs|
  {
    hide ReadHash, WriteHash;
    if hs == [] {
      assert [] + rest == rest;
    } else {
      ReadsBackHashes(hs[1..], rest);
      ReadsBackHash(hs[0], WriteHashes(hs[1..]) + rest);
      assert WriteHashes(hs) + rest == WriteHash(hs[0]) + (WriteHashes(hs[1..]) + rest);
      assert hs == [hs[0]] + hs[1..];
    }
  }

  lemma ReadsBackBranch(hs: seq<BlockHash>, mask: I32, rest: Bytes)
    requires |hs| < COMPACT_LIMIT
    ensures ReadBranch(WriteBranch(hs, mask) + rest) == Some(((hs, mask), rest))
  {
    hide ReadHashes, WriteHashes, ReadCompact, WriteCompact, ReadI32, WriteI32;
    var r2 := WriteI32(mask) + rest;
    var r1 := WriteHashes(hs) + r2;
    ReadsBackI32(mask, rest);
    ReadsBackHashes(hs, r2);
    ReadsBackCompact(|hs|, r1);
    assert WriteBranch(hs, mask) + rest == WriteCompact(|hs|) + r1;
  }

  lemma ReadsBackMerged<Tx(!new)>(tx: Format<Tx>, m: MergedMining<Tx>, rest: Bytes)
    requires RoundTrips(tx) && |m.coinbaseBranch| < COMPACT_LIMIT && |m.chainBranch| < COMPACT_LIMIT
    ensures ReadMerged(tx, WriteMerged(tx, m) + rest) == Some((m, rest))
  {
    hide ReadBranch, WriteBranch, ReadHeader, WriteHeader, ReadHash, WriteHash;
    var r4 := WriteHeader(m.parentHeader) + rest;
    var r3 := WriteBranch(m.chainBranch, m.chainMask) + r4;
    var r2 := WriteBranch(m.coinbaseBranch, m.coinbaseMask) + r3;
    var r1 := WriteHash(m.parentHash) + r2;
    ReadsBackHeader(m.parentHeader, rest);
    ReadsBackBranch(m.chainBranch, m.chainMask, r4);
    ReadsBackBranch(m.coinbaseBranch, m.coinbaseMask, r3);
    ReadsBackHash(m.parentHash, r2);
    assert WriteMerged(tx, m) + rest == tx.write(m.coinbase) + r1;
  }

  /** For every header, merged-mining block and tree, and whatever bytes follow,
      parsing the encoding gives back the proof. */
  lemma ReadsBackProof<Tx(!new), Tree(!new)>(
    tx: Format<Tx>, tree: Format<Tree>, p: Proof<Tx, Tree>, rest: Bytes)
    requires RoundTrips(tx) && RoundTrips(tree) && Encodable(p)
    ensures ReadProof(tx, tree, WriteProof(tx, tree, p) + rest) == Some((p, rest))
  {
    hide ReadMerged, WriteMerged, ReadHeader, WriteHeader;
    var r2 := tree.write(p.tree) + rest;
    var r1 := (if p.merged.Some? then WriteMerged(tx, p.merged.value) else []) + r2;
    ReadsBackHeader(p.header, r1);
    assert WriteProof(tx, tree, p) + rest == WriteHeader(p.header) + r1;
    if p.merged.Some? {
      ReadsBackMerged(tx, p.merged.value, r2);
    } else {
      assert r1 == r2;
    }
  }

  // ---------- nothing else is accepted ----------

  lemma {:induction false} ReadHashesIsExact(n: nat, b: Bytes)
    ensures ReadHashes(n, b).Some? ==>
      |ReadHashes(n, b).value.0| == n && b == WriteHashes(ReadHashes(n, b).value.0) + ReadHashes(n, b).value.1
  {
    if n > 0 && ReadHashes(n, b).Some? {
      var first := ReadHash(b).value;
      ReadHashIsExact(b);
      ReadHashesIsExact(n - 1, first.1);
      var rest := ReadHashes(n - 1, first.1).value;
      assert ([first.0] + rest.0)[1..] == rest.0;
      assert b == WriteHash(first.0) + (WriteHashes(rest.0) + rest.1);
    }
  }

  lemma ReadBranchIsExact(b: Bytes)
    ensures ReadBranch(b).Some? ==>
      var v := ReadBranch(b).value;
      |v.0.0| < COMPACT_LIMIT && b == WriteBranch(v.0.0, v.0.1) + v.1
  {
    hide ReadHashes, WriteHashes, ReadCompact, WriteCompact, ReadI32, WriteI32;
    if ReadBranch(b).Some? {
      var n := ReadCompact(b).value;
      var hs := ReadHashes(n.0, n.1).value;
      ReadCompactIsExact(b);
      ReadHashesIsExact(n.0, n.1);
      ReadI32IsExact(hs.1);
    }
  }

  lemma ReadMergedIsExact<Tx(!new)>(tx: Format<Tx>, b: Bytes)
    requires Exact(tx)
    ensures ReadMerged(tx, b).Some? ==>
      var m := ReadMerged(tx, b).value.0;
      |m.coinbaseBranch| < COMPACT_LIMIT && |m.chainBranch| < COMPACT_LIMIT
      && b == WriteMerged(tx, m) + ReadMerged(tx, b).value.1
  {
    hide ReadBranch, WriteBranch, ReadHeader, WriteHeader, ReadHash, WriteHash;
    if ReadMerged(tx, b).Some? {
      var m, end := ReadMerged(tx, b).value.0, ReadMerged(tx, b).value.1;
      var b1 := tx.read(b).value.1;
      var b2 := ReadHash(b1).value.1;
      var b3 := ReadBranch(b2).value.1;
      var b4 := ReadBranch(b3).value.1;
      ReadHashIsExact(b1);
      ReadBranchIsExact(b2);
      ReadBranchIsExact(b3);
      ReadHeaderIsExact(b4);
      assert b4 == WriteHeader(m.parentHeader) + end;
      assert b3 == WriteBranch(m.chainBranch, m.chainMask) + b4;
      assert b2 == WriteBranch(m.coinbaseBranch, m.coinbaseMask) + b3;
      assert b == tx.write(m.coinbase) + (WriteHash(m.parentHash) + b2);
    }
  }

  /** Every accepted input is the encoding of the proof read from it. */
  lemma ReadProofIsExact<Tx(!new), Tree(!new)>(tx: Format<Tx>, tree: Format<Tree>, b: Bytes)
    requires Exact(tx) && Exact(tree)
    ensures ReadProof(tx, tree, b).Some? ==>
      var p := ReadProof(tx, tree, b).value.0;
      Encodable(p) && b == WriteProof(tx, tree, p) + ReadProof(tx, tree, b).value.1
  {
    hide ReadMerged, WriteMerged, ReadHeader, WriteHeader;
    if ReadProof(tx, tree, b).Some? {
      var header := ReadHeader(b).value;
      ReadHeaderIsExact(b);
      ReadMergedIsExact(tx, header.1);
      var p, end := ReadProof(tx, tree, b).value.0, ReadProof(tx, tree, b).value.1;
      if p.merged.Some? {
        assert header.1 == WriteMerged(tx, p.merged.value) + (tree.write(p.tree) + end);
      } else {
        assert header.1 == [] + (tree.write(p.tree) + end);
      }
    }
  }

  // ---------- the bytes of a proof ----------

  /** Bit 8 of the version is the lowest bit of the second byte. */
  lemma VersionBit(b: Bytes)
    requires |b| >= 80
    ensures ReadHeader(b).Some? && ReadHeader(b).value.1 == b[80..]
    ensures HasMergedMining(ReadHeader(b).value.0.version) <==> b[1] % 2 == 1
  {
    hide WriteHeader;
    ReadHeaderIsExact(b);
    var h, rest := ReadHeader(b).value.0, ReadHeader(b).value.1;
    assert b[80..] == rest by { assert b == WriteHeader(h) + rest; }
    VersionOf(b);
    LittleEndian(b[..4]);
    SecondByte(b[0], b[1], b[2], b[3]);
  }

  lemma SecondByte(b0: int, b1: int, b2: int, b3: int)
    requires 0 <= b0 < 256
    ensures var n := b0 + 0x100 * b1 + 0x1_0000 * b2 + 0x100_0000 * b3;
      n / 0x100 % 2 == b1 % 2 && (n - 0x1_0000_0000) / 0x100 % 2 == b1 % 2
  {
    var high := b1 + 0x100 * b2 + 0x1_0000 * b3;
    var n := b0 + 0x100 * b1 + 0x1_0000 * b2 + 0x100_0000 * b3;
    assert n / 0x100 == high && (n - 0x1_0000_0000) / 0x100 == high - 0x100_0000;
  }

  lemma VersionOf(b: Bytes)
    requires ReadHeader(b).Some? && |b| >= 4
    ensures var n := FromLE(b[..4]);
      ReadHeader(b).value.0.version == if n < 0x8000_0000 then n else n - 0x1_0000_0000
  {}

  /** Without that bit the tree stands right after the header. */
  lemma PlainLayout<Tx, Tree>(tx: Format<Tx>, tree: Format<Tree>, b: Bytes)
    ensures |b| < 80 ==> ReadProof(tx, tree, b).None?
    ensures |b| >= 80 && b[1] % 2 == 0 ==>
      && (ReadProof(tx, tree, b).Some? <==> tree.read(b[80..]).Some?)
      && (ReadProof(tx, tree, b).Some? ==> ReadProof(tx, tree, b).value.0.tree == tree.read(b[80..]).value.0)
  {
    hide ReadHeader, HasMergedMining, ReadMerged;
    ReadHeaderIsExact(b);
    if |b| >= 80 {
      VersionBit(b);
    }
  }

  /** A list of hashes with its length and its mask, as bytes. */
  predicate IsBranch(length: Bytes, hashes: Bytes, mask: Bytes) {
    && ReadCompact(length) == Some((|hashes| / 32, [])) && |hashes| % 32 == 0
    && |mask| == 4
  }

  /** With that bit there stand between header and tree the parent's coinbase, 32
      bytes of hash, two branches and 80 bytes of parent header. */
  lemma MergedLayout<Tx, Tree>(
    tx: Format<Tx>, tree: Format<Tree>, header: Bytes, coinbase: Bytes, hash: Bytes,
    length1: Bytes, hashes1: Bytes, mask1: Bytes, length2: Bytes, hashes2: Bytes, mask2: Bytes,
    parent: Bytes, rest: Bytes)
    requires |header| == 80 && header[1] % 2 == 1 && |hash| == 32 && |parent| == 80
    requires IsBranch(length1, hashes1, mask1) && IsBranch(length2, hashes2, mask2)
    requires forall more :: tx.read(coinbase + more).Some? && tx.read(coinbase + more).value.1 == more
    ensures var b := header + (coinbase + (hash + ((length1 + (hashes1 + mask1))
          + ((length2 + (hashes2 + mask2)) + (parent + rest)))));
      && (ReadProof(tx, tree, b).Some? <==> tree.read(rest).Some?)
      && (ReadProof(tx, tree, b).Some? ==> ReadProof(tx, tree, b).value.0.tree == tree.read(rest).value.0)
  {
    hide ReadHeader, HasMergedMining, ReadBranch, ReadHash;
    var r5 := parent + rest;
    var r4 := (length2 + (hashes2 + mask2)) + r5;
    var r3 := (length1 + (hashes1 + mask1)) + r4;
    var r2 := hash + r3;
    var r1 := coinbase + r2;
    var b := header + r1;
    VersionBit(b);
    assert b[80..] == r1;
    HashThen(hash, r3);
    BranchThen(length1, hashes1, mask1, r4);
    BranchThen(length2, hashes2, mask2, r5);
    VersionBit(r5);
    assert r5[80..] == rest;
    assert tx.read(r1).value.1 == r2;
  }

  lemma HashThen(hash: Bytes, rest: Bytes)
    requires |hash| == 32
    ensures ReadHash(hash + rest).Some? && ReadHash(hash + rest).value.1 == rest
  {
    hide FromLE;
    assert (hash + rest)[32..] == rest;
  }

  lemma BranchThen(length: Bytes, hashes: Bytes, mask: Bytes, rest: Bytes)
    requires IsBranch(length, hashes, mask)
    ensures ReadBranch((length + (hashes + mask)) + rest).Some?
    ensures ReadBranch((length + (hashes + mask)) + rest).value.1 == rest
  {
    hide ReadCompact, ReadHashes, ReadI32, FromLE;
    LengthThen(length, hashes + mask + rest);
    assert (length + (hashes + mask)) + rest == length + (hashes + mask + rest);
    HashesThen(hashes, mask + rest);
    assert hashes + mask + rest == hashes + (mask + rest);
    MaskThen(mask, rest);
  }

  lemma MaskThen(mask: Bytes, rest: Bytes)
    requires |mask| == 4
    ensures ReadI32(mask + rest).Some? && ReadI32(mask + rest).value.1 == rest
  {
    hide FromLE;
    assert (mask + rest)[4..] == rest;
  }

  lemma LengthThen(length: Bytes, rest: Bytes)
    requires ReadCompact(length).Some? && ReadCompact(length).value.1 == []
    ensures ReadCompact(length + rest) == Some((ReadCompact(length).value.0, rest))
  {
    hide ReadCompact, WriteCompact;
    ReadCompactIsExact(length);
    var n := ReadCompact(length).value.0;
    assert length == WriteCompact(n) + [] == WriteCompact(n);
    ReadsBackCompact(n, rest);
  }

  lemma {:induction false} HashesThen(hashes: Bytes, rest: Bytes)
    requires |hashes| % 32 == 0
    ensures ReadHashes(|hashes| / 32, hashes + rest).Some?
    ensures ReadHashes(|hashes| / 32, hashes + rest).value.1 == rest
    decreases |hashes|
  {
    hide ReadHash;
    if hashes == [] {
      assert hashes + rest == rest;
    } else {
      assert hashes + rest == hashes[..32] + (hashes[32..] + rest);
      HashThen(hashes[..32], hashes[32..] + rest);
      HashesThen(hashes[32..], rest);
    }
  }

  // ---------- the truncating header parser ----------

  /** The parser used for single headers: it keeps the first 80 bytes and needs
      to read all of them. */
  function HeaderOf(b: Bytes): Result<Header, string> {
    if |b| < HEADER_LENGTH then Err("header is too short") else
      var r := ReadHeader(b[..HEADER_LENGTH]);
      if r.None? || r.value.1 != [] then Err("failed to parse header") else Ok(r.value.0)
  }

  /** It fails only on short input, and agrees with every proof parsed from the
      same bytes. */
  lemma HeaderParsersAgree<Tx, Tree>(tx: Format<Tx>, tree: Format<Tree>, b: Bytes)
    ensures HeaderOf(b).Ok? <==> |b| >= HEADER_LENGTH
    ensures ReadProof(tx, tree, b).Some? ==> HeaderOf(b) == Ok(ReadProof(tx, tree, b).value.0.header)
  {
    ReadHeaderIsExact(b);
    if |b| >= HEADER_LENGTH {
      var h := ReadHeader(b).value.0;
      assert b[..HEADER_LENGTH] == WriteHeader(h) + [];
      ReadsBackHeader(h, []);
    }
  }
}

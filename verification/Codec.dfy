/** Bitcoin's consensus encoding of numbers, hashes, headers and list lengths.
    A reader takes the remaining bytes and gives a value and what is left. */
module Codec {
  import opened Wrappers
  import opened Bytes
  import opened Chain

  type Read<T> = Option<(T, Bytes)>

  lemma PowFacts()
    ensures Pow256(1) == 0x100 && Pow256(2) == 0x1_0000
    ensures Pow256(4) == 0x1_0000_0000 && Pow256(8) == 0x1_0000_0000_0000_0000
    ensures Pow256(32) == HASHES
  {
    assert Pow256(14) == 0x1_0000_0000_0000_0000_0000_0000_0000;
    assert Pow256(20) == 0x1_0000_0000_0000_0000_0000_0000_0000_0000_0000_0000;
    assert Pow256(26) == 0x1_0000_0000_0000_0000_0000_0000_0000_0000_0000_0000_0000_0000_0000;
  }

  function ReadLE(n: nat, b: Bytes): Read<nat> {
    if |b| < n then None else Some((FromLE(b[..n]), b[n..]))
  }

  lemma ReadsBackLE(n: nat, x: nat, rest: Bytes)
    requires x < Pow256(n)
    ensures ReadLE(n, ToLE(n, x) + rest) == Some((x, rest))
  {
    FromToLE(n, x);
    hide ToLE, FromLE, Pow256;
    assert (ToLE(n, x) + rest)[..n] == ToLE(n, x);
    assert (ToLE(n, x) + rest)[n..] == rest;
  }

  lemma ReadLEIsExact(n: nat, b: Bytes)
    requires n <= |b|
    ensures ReadLE(n, b).value.0 < Pow256(n)
    ensures b == ToLE(n, ReadLE(n, b).value.0) + ReadLE(n, b).value.1
  {
    hide ToLE, FromLE, Pow256;
    ToFromLE(b[..n]);
    assert b == b[..n] + b[n..];
  }

  function WriteU32(x: U32): Bytes { ToLE(4, x) }
  function WriteI32(x: I32): Bytes { ToLE(4, x % 0x1_0000_0000) }
  function WriteHash(h: BlockHash): Bytes { ToLE(32, h) }

  function ReadU32(b: Bytes): Read<U32> {
    PowFacts();
    if |b| < 4 then None else Some((FromLE(b[..4]), b[4..]))
  }

  function ReadI32(b: Bytes): Read<I32> {
    var r := ReadU32(b);
    if r.None? then None
    else Some((if r.value.0 < 0x8000_0000 then r.value.0 else r.value.0 - 0x1_0000_0000, r.value.1))
  }

  function ReadHash(b: Bytes): Read<BlockHash> {
    PowFacts();
    if |b| < 32 then None else Some((FromLE(b[..32]), b[32..]))
  }

  lemma ReadsBackU32(x: U32, rest: Bytes)
    ensures ReadU32(WriteU32(x) + rest) == Some((x, rest))
  {
    PowFacts();
    ReadsBackLE(4, x, rest);
  }

  lemma ReadsBackI32(x: I32, rest: Bytes)
    ensures ReadI32(WriteI32(x) + rest) == Some((x, rest))
  {
    ReadsBackU32(x % 0x1_0000_0000, rest);
  }

  lemma ReadsBackHash(h: BlockHash, rest: Bytes)
    ensures ReadHash(WriteHash(h) + rest) == Some((h, rest))
  {
    PowFacts();
    ReadsBackLE(32, h, rest);
  }

  lemma ReadU32IsExact(b: Bytes)
    ensures ReadU32(b).Some? ==> b == WriteU32(ReadU32(b).value.0) + ReadU32(b).value.1
  {
    if |b| >= 4 { ReadLEIsExact(4, b); }
  }

  lemma ReadI32IsExact(b: Bytes)
    ensures ReadI32(b).Some? ==> b == WriteI32(ReadI32(b).value.0) + ReadI32(b).value.1
  {
    hide ToLE, FromLE;
    ReadU32IsExact(b);
  }

  lemma ReadHashIsExact(b: Bytes)
    ensures ReadHash(b).Some? ==> b == WriteHash(ReadHash(b).value.0) + ReadHash(b).value.1
  {
    if |b| >= 32 { ReadLEIsExact(32, b); }
  }

  // ---------- headers ----------

  const HEADER_LENGTH: nat := 80

  function WriteHeader(h: Header): (b: Bytes)
    ensures |b| == HEADER_LENGTH
  {
    WriteI32(h.version) + (WriteHash(h.prev) + (WriteHash(h.merkleRoot)
      + (WriteU32(h.time) + (WriteU32(h.bits) + WriteU32(h.nonce)))))
  }

  function ReadHeader(b: Bytes): Read<Header> {
    var version := ReadI32(b);
    if version.None? then None else
    var prev := ReadHash(version.value.1);
    if prev.None? then None else
    var root := ReadHash(prev.value.1);
    if root.None? then None else
    var time := ReadU32(root.value.1);
    if time.None? then None else
    var bits := ReadU32(time.value.1);
    if bits.None? then None else
    var nonce := ReadU32(bits.value.1);
    if nonce.None? then None else
    Some((Header(version.value.0, prev.value.0, root.value.0, time.value.0, bits.value.0, nonce.value.0),
          nonce.value.1))
  }

  lemma ReadsBackHeader(h: Header, rest: Bytes)
    ensures ReadHeader(WriteHeader(h) + rest) == Some((h, rest))
  {
    var r5 := WriteU32(h.nonce) + rest;
    var r4 := WriteU32(h.bits) + r5;
    var r3 := WriteU32(h.time) + r4;
    var r2 := WriteHash(h.merkleRoot) + r3;
    var r1 := WriteHash(h.prev) + r2;
    ReadsBackU32(h.nonce, rest);
    ReadsBackU32(h.bits, r5);
    ReadsBackU32(h.time, r4);
    ReadsBackHash(h.merkleRoot, r3);
    ReadsBackHash(h.prev, r2);
    ReadsBackI32(h.version, r1);
    assert WriteHeader(h) + rest == WriteI32(h.version) + r1;
  }

  lemma ReadHeaderIsExact(b: Bytes)
    ensures ReadHeader(b).Some? <==> |b| >= HEADER_LENGTH
    ensures ReadHeader(b).Some? ==> b == WriteHeader(ReadHeader(b).value.0) + ReadHeader(b).value.1
  {
    hide ReadI32, ReadHash, ReadU32, WriteI32, WriteHash, WriteU32;
    FieldLengths(b);
    ReadI32IsExact(b);
    if |b| >= 4 {
      var b1 := ReadI32(b).value.1;
      FieldLengths(b1);
      ReadHashIsExact(b1);
      if |b1| >= 32 {
        var b2 := ReadHash(b1).value.1;
        FieldLengths(b2);
        ReadHashIsExact(b2);
        if |b2| >= 32 {
          var b3 := ReadHash(b2).value.1;
          TimeBitsNonceLengths(b3);
          if |b3| >= 12 {
            TimeBitsNonceExact(b3);
          }
        }
      }
    }
  }

  lemma FieldLengths(b: Bytes)
    ensures ReadI32(b).Some? <==> |b| >= 4
    ensures ReadU32(b).Some? <==> |b| >= 4
    ensures ReadHash(b).Some? <==> |b| >= 32
    ensures |b| >= 4 ==> |ReadI32(b).value.1| == |ReadU32(b).value.1| == |b| - 4
    ensures |b| >= 32 ==> |ReadHash(b).value.1| == |b| - 32
  {
    hide FromLE, Pow256;
  }

  lemma TimeBitsNonceLengths(b: Bytes)
    ensures |b| >= 12 <==>
      && ReadU32(b).Some? && ReadU32(ReadU32(b).value.1).Some?
      && ReadU32(ReadU32(ReadU32(b).value.1).value.1).Some?
  {
    hide ReadU32;
    FieldLengths(b);
    if |b| >= 4 {
      FieldLengths(ReadU32(b).value.1);
      if |b| >= 8 {
        FieldLengths(ReadU32(ReadU32(b).value.1).value.1);
      }
    }
  }

  lemma TimeBitsNonceExact(b: Bytes)
    requires |b| >= 12
    ensures var time := ReadU32(b).value;
      var bits := ReadU32(time.1).value;
      var nonce := ReadU32(bits.1).value;
      b == WriteU32(time.0) + (WriteU32(bits.0) + (WriteU32(nonce.0) + nonce.1))
  {
    ReadU32IsExact(b);
    ReadU32IsExact(ReadU32(b).value.1);
    ReadU32IsExact(ReadU32(ReadU32(b).value.1).value.1);
  }

  /** Where the fields of an encoded header stand. */
  lemma HeaderLayout(h: Header)
    ensures var b := WriteHeader(h);
      && b[..4] == ToLE(4, h.version % 0x1_0000_0000)
      && b[4..36] == ToLE(32, h.prev)
      && b[36..68] == ToLE(32, h.merkleRoot)
      && b[68..72] == ToLE(4, h.time)
      && b[72..76] == ToLE(4, h.bits)
      && b[76..] == ToLE(4, h.nonce)
  {
    hide ToLE;
  }

  // ---------- CompactSize ----------

  const COMPACT_LIMIT: nat := 0x1_0000_0000_0000_0000

  function WriteCompact(n: nat): Bytes
    requires n < COMPACT_LIMIT
  {
    if n < 0xFD then [n]
    else if n < 0x1_0000 then [0xFD] + ToLE(2, n)
    else if n < 0x1_0000_0000 then [0xFE] + ToLE(4, n)
    else [0xFF] + ToLE(8, n)
  }

  /** Refuses an encoding that is longer than it need be. */
  function ReadCompact(b: Bytes): Read<nat> {
    if b == [] then None
    else if b[0] < 0xFD then Some((b[0], b[1..]))
    else
      var width, least :=
        (if b[0] == 0xFD then 2 else if b[0] == 0xFE then 4 else 8),
        (if b[0] == 0xFD then 0xFD else if b[0] == 0xFE then 0x1_0000 else 0x1_0000_0000);
      var r := ReadLE(width, b[1..]);
      if r.None? || r.value.0 < least then None else r
  }

  lemma ReadsBackCompact(n: nat, rest: Bytes)
    requires n < COMPACT_LIMIT
    ensures ReadCompact(WriteCompact(n) + rest) == Some((n, rest))
  {
    PowFacts();
    hide ToLE, Pow256, FromLE;
    var b := WriteCompact(n) + rest;
    if n < 0xFD {
      assert b[1..] == rest;
    } else {
      var width := if n < 0x1_0000 then 2 else if n < 0x1_0000_0000 then 4 else 8;
      ReadsBackLE(width, n, rest);
      assert b[1..] == ToLE(width, n) + rest;
    }
  }

  lemma ReadCompactIsExact(b: Bytes)
    ensures ReadCompact(b).Some? ==>
      ReadCompact(b).value.0 < COMPACT_LIMIT && b == WriteCompact(ReadCompact(b).value.0) + ReadCompact(b).value.1
  {
    PowFacts();
    hide ToLE, FromLE, Pow256;
    if b != [] {
      assert b == [b[0]] + b[1..];
      var width := if b[0] == 0xFD then 2 else if b[0] == 0xFE then 4 else 8;
      if b[0] >= 0xFD && |b[1..]| >= width {
        ReadLEIsExact(width, b[1..]);
      }
    }
  }

  /** Numbers of two, four and eight bytes, lowest byte first. */
  lemma LittleEndian(b: Bytes)
    ensures |b| == 2 ==> FromLE(b) == b[0] + 0x100 * (b[1] as int)
    ensures |b| == 4 ==> FromLE(b) == b[0] + 0x100 * (b[1] as int) + 0x1_0000 * (b[2] as int) + 0x100_0000 * (b[3] as int)
    ensures |b| == 8 ==> FromLE(b) == FromLE(b[..4]) + 0x1_0000_0000 * FromLE(b[4..])
  {
    if |b| == 2 {
      FourBytes([b[0], b[1], 0, 0]);
      assert FromLE(b) == b[0] + 0x100 * FromLE(b[1..]) && FromLE(b[1..]) == b[1] + 0x100 * FromLE(b[1..][1..]);
    } else if |b| == 4 {
      FourBytes(b);
    } else if |b| == 8 {
      FourBytes(b[..4]);
      assert FromLE(b) == b[0] + 0x100 * FromLE(b[1..]);
      assert FromLE(b[1..]) == b[1] + 0x100 * FromLE(b[2..]) by { assert b[1..][1..] == b[2..]; }
      assert FromLE(b[2..]) == b[2] + 0x100 * FromLE(b[3..]) by { assert b[2..][1..] == b[3..]; }
      assert FromLE(b[3..]) == b[3] + 0x100 * FromLE(b[4..]) by { assert b[3..][1..] == b[4..]; }
    }
  }

  lemma FourBytes(b: Bytes)
    requires |b| == 4
    ensures FromLE(b) == b[0] + 0x100 * (b[1] as int) + 0x1_0000 * (b[2] as int) + 0x100_0000 * (b[3] as int)
  {
    assert FromLE(b[1..]) == b[1] + 0x100 * FromLE(b[2..]) by { assert b[1..][1..] == b[2..]; }
    assert FromLE(b[2..]) == b[2] + 0x100 * FromLE(b[3..]) by { assert b[2..][1..] == b[3..]; }
    assert FromLE(b[3..]) == b[3] + 0x100 * FromLE([]) by { assert b[3..][1..] == []; }
  }

  /** What the first byte of a CompactSize says: the number itself below 253, and
      else that two, four or eight bytes follow, which must not hold less than
      would need them. */
  lemma CompactLayout(b: Bytes)
    ensures b == [] ==> ReadCompact(b).None?
    ensures b != [] && b[0] < 253 ==> ReadCompact(b) == Some((b[0], b[1..]))
    ensures |b| >= 3 && b[0] == 253 ==>
      var n := b[1] + 0x100 * (b[2] as int);
      ReadCompact(b) == if n < 253 then None else Some((n, b[3..]))
    ensures |b| >= 5 && b[0] == 254 ==>
      var n := b[1] + 0x100 * (b[2] as int) + 0x1_0000 * (b[3] as int) + 0x100_0000 * (b[4] as int);
      ReadCompact(b) == if n < 0x1_0000 then None else Some((n, b[5..]))
    ensures |b| >= 9 && b[0] == 255 ==>
      var low := b[1] + 0x100 * (b[2] as int) + 0x1_0000 * (b[3] as int) + 0x100_0000 * (b[4] as int);
      var high := b[5] + 0x100 * (b[6] as int) + 0x1_0000 * (b[7] as int) + 0x100_0000 * (b[8] as int);
      ReadCompact(b) == if high == 0 then None else Some((low + 0x1_0000_0000 * high, b[9..]))
    ensures (0 < |b| < 3 && b[0] == 253) || (0 < |b| < 5 && b[0] == 254) || (0 < |b| < 9 && b[0] == 255) ==>
      ReadCompact(b).None?
  {
    hide FromLE;
    if b != [] {
      var width := if b[0] == 253 then 2 else if b[0] == 254 then 4 else 8;
      var rest := b[1..];
      if |rest| >= width {
        assert rest[width..] == b[width + 1..];
        if b[0] == 253 {
          assert rest[..2] == [b[1], b[2]];
          LittleEndian([b[1], b[2]]);
        } else if b[0] == 254 {
          assert rest[..4] == [b[1], b[2], b[3], b[4]];
          LittleEndian([b[1], b[2], b[3], b[4]]);
        } else if b[0] == 255 {
          EightBytes(b[1..9]);
          assert rest[..8] == b[1..9];
        }
      }
    }
  }

  lemma EightBytes(b: Bytes)
    requires |b| == 8
    ensures var low := b[0] + 0x100 * (b[1] as int) + 0x1_0000 * (b[2] as int) + 0x100_0000 * (b[3] as int);
      var high := b[4] + 0x100 * (b[5] as int) + 0x1_0000 * (b[6] as int) + 0x100_0000 * (b[7] as int);
      FromLE(b) == low + 0x1_0000_0000 * high
  {
    hide FromLE;
    LittleEndian(b);
    FourBytes(b[..4]);
    FourBytes(b[4..]);
  }
}

/**
 Block headers and the tree they form.

 A block hash is a 256-bit number and 0 is the null hash.  The hash function is
 a parameter: all that is known about it is what a `World` says of the finitely
 many headers that occur.
 */
module Chain {
  type BlockHash = h: int | 0 <= h < HASHES
  const HASHES: nat := 0x1_00000000_00000000_00000000_00000000_00000000_00000000_00000000_00000000
  type U32 = x: int | 0 <= x < 0x1_0000_0000
  type I32 = x: int | -0x8000_0000 <= x < 0x8000_0000

  const NULL_HASH: BlockHash := 0

  datatype Header = Header(
    version: I32, prev: BlockHash, merkleRoot: BlockHash, time: U32, bits: U32, nonce: U32)

  datatype HeaderEntry = HeaderEntry(height: nat, hash: BlockHash, header: Header)

  /** The headers without their heights and hashes. */
  function HeadersOf(es: seq<HeaderEntry>): (hs: seq<Header>)
    ensures |hs| == |es|
  {
    seq(|es|, i requires 0 <= i < |es| => es[i].header)
  }

  /** The hashes of some entries. */
  function HashesOf(es: seq<HeaderEntry>): (s: set<BlockHash>)
    ensures forall i :: 0 <= i < |es| ==> es[i].hash in s
  {
    set e | e in es :: e.hash
  }

  /** Neighbours are linked and their heights go up by one. */
  predicate Stacked(es: seq<HeaderEntry>) {
    forall i, j :: 0 <= i < |es| && 0 <= j < |es| && j == i + 1 ==>
      es[j].height == es[i].height + 1 && es[j].header.prev == es[i].hash
  }

  lemma {:induction false} StackedHeights(es: seq<HeaderEntry>, i: nat)
    requires Stacked(es) && i < |es|
    ensures es[i].height == es[0].height + i
  {
    if i > 0 {
      StackedHeights(es, i - 1);
      assert es[i].height == es[i - 1].height + 1;
    }
  }

  /** All headers that any honest daemon ever serves: a finite tree in which
      every header is filed under its own hash and leads to the null hash. */
  datatype World = World(
    hash: Header -> BlockHash, headers: map<BlockHash, Header>, height: map<BlockHash, nat>)
  {
    ghost predicate Valid() {
      && NULL_HASH !in headers
      && height.Keys == headers.Keys
      && (forall h {:trigger headers[h]} :: h in headers ==> hash(headers[h]) == h)
      && (forall h {:trigger Rooted(h)} :: h in headers ==> Rooted(h))
    }

    /** The predecessor of h is known and one lower, or h is a genesis header. */
    ghost predicate Rooted(h: BlockHash)
      requires h in headers && height.Keys == headers.Keys
    {
      var prev := headers[h].prev;
      if prev == NULL_HASH then height[h] == 0 else prev in headers && height[h] == height[prev] + 1
    }

    ghost predicate Knows(t: BlockHash) {
      t == NULL_HASH || t in headers
    }

    ghost function Len(t: BlockHash): nat
      requires Valid() && Knows(t)
    {
      if t == NULL_HASH then 0 else height[t] + 1
    }

    /** The entry of header h at its true height. */
    ghost function Entry(h: BlockHash): HeaderEntry
      requires Valid() && h in headers
    {
      HeaderEntry(height[h], h, headers[h])
    }

    /** The chain from genesis up to t. */
    ghost function ChainOf(t: BlockHash): seq<HeaderEntry>
      requires Valid() && Knows(t)
      decreases Len(t)
    {
      if t == NULL_HASH then [] else
        assert Rooted(t);
        ChainOf(headers[t].prev) + [Entry(t)]
    }

    /** es are entries of known headers filed under their own hashes; their
        heights may still be wrong. */
    ghost predicate Files(es: seq<HeaderEntry>) {
      forall i :: 0 <= i < |es| ==> es[i].hash in headers && headers[es[i].hash] == es[i].header
    }

    lemma {:induction false} ChainLength(t: BlockHash)
      requires Valid() && Knows(t)
      ensures |ChainOf(t)| == Len(t)
      ensures t != NULL_HASH ==> ChainOf(t)[Len(t) - 1] == Entry(t)
      decreases Len(t)
    {
      if t != NULL_HASH {
        assert Rooted(t);
        ChainLength(headers[t].prev);
      }
    }

    /** Entry i of a chain stands at height i. */
    lemma {:induction false} ChainAt(t: BlockHash, i: nat)
      requires Valid() && Knows(t) && i < |ChainOf(t)|
      ensures ChainOf(t)[i].hash in headers
      ensures ChainOf(t)[i] == Entry(ChainOf(t)[i].hash) && ChainOf(t)[i].height == i
      ensures Rooted(ChainOf(t)[i].hash)
      decreases Len(t)
    {
      assert Rooted(t);
      var prev := headers[t].prev;
      ChainLength(t);
      ChainLength(prev);
      if i < Len(prev) {
        ChainAt(prev, i);
      }
    }

    /** The part of a chain up to entry i is that entry's own chain. */
    lemma {:induction false} ChainUpTo(t: BlockHash, i: nat)
      requires Valid() && Knows(t) && i < |ChainOf(t)|
      ensures Knows(ChainOf(t)[i].hash) && ChainOf(ChainOf(t)[i].hash) == ChainOf(t)[..i + 1]
      ensures Knows(ChainOf(t)[i].header.prev) && ChainOf(ChainOf(t)[i].header.prev) == ChainOf(t)[..i]
      decreases Len(t)
    {
      assert Rooted(t);
      var prev := headers[t].prev;
      ChainLength(t);
      ChainLength(prev);
      if i < Len(prev) {
        ChainUpTo(prev, i);
        assert ChainOf(t)[..i + 1] == ChainOf(prev)[..i + 1];
        assert ChainOf(t)[..i] == ChainOf(prev)[..i];
      } else {
        assert ChainOf(t)[..i + 1] == ChainOf(t);
        assert ChainOf(t)[..i] == ChainOf(prev);
      }
    }

    /** Neighbouring entries are linked, and the first one starts from null. */
    lemma ChainLinks(t: BlockHash, i: nat)
      requires Valid() && Knows(t) && i < |ChainOf(t)|
      ensures ChainOf(t)[i].header.prev == if i == 0 then NULL_HASH else ChainOf(t)[i - 1].hash
    {
      ChainAt(t, i);
      ChainUpTo(t, i);
      var prev := ChainOf(t)[i].header.prev;
      ChainLength(prev);
      if i > 0 {
        assert ChainOf(prev)[i - 1] == ChainOf(t)[i - 1];
      }
    }

    /** A hash sits at one height in all chains; so a chain never repeats one. */
    lemma OneHeight(t: BlockHash, i: nat, u: BlockHash, j: nat)
      requires Valid() && Knows(t) && i < |ChainOf(t)|
      requires Knows(u) && j < |ChainOf(u)|
      ensures ChainOf(t)[i].hash == ChainOf(u)[j].hash ==> i == j
    {
      ChainAt(t, i);
      ChainAt(u, j);
    }

    /** Chains that meet in one entry agree below it. */
    lemma SharedBelow(t: BlockHash, u: BlockHash, i: nat)
      requires Valid() && Knows(t) && i < |ChainOf(t)| && Knows(u) && i < |ChainOf(u)|
      requires ChainOf(t)[i].hash == ChainOf(u)[i].hash
      ensures ChainOf(t)[..i + 1] == ChainOf(u)[..i + 1]
    {
      ChainUpTo(t, i);
      ChainUpTo(u, i);
    }

    lemma ChainFiles(t: BlockHash)
      requires Valid() && Knows(t)
      ensures Files(ChainOf(t))
    {
      forall i | 0 <= i < |ChainOf(t)|
        ensures ChainOf(t)[i].hash in headers && headers[ChainOf(t)[i].hash] == ChainOf(t)[i].header
      {
        ChainAt(t, i);
      }
    }

    /** One more known header on top of its predecessor's chain. */
    lemma PushOnChain(e: HeaderEntry)
      requires Valid() && e.hash in headers && headers[e.hash] == e.header
      requires Knows(e.header.prev) ==> e.height == Len(e.header.prev)
      ensures Knows(e.header.prev) && ChainOf(e.hash) == ChainOf(e.header.prev) + [e]
      ensures Len(e.hash) == e.height + 1
    {
      assert Rooted(e.hash);
      assert e == Entry(e.hash);
    }

    /** Any linked run of known headers on top of a chain is the chain of its last header. */
    lemma {:induction false} ExtendChain(base: BlockHash, es: seq<HeaderEntry>)
      requires Valid() && Knows(base) && es != [] && Files(es) && Stacked(es)
      requires es[0].header.prev == base && es[0].height == Len(base)
      ensures ChainOf(es[|es| - 1].hash) == ChainOf(base) + es
      ensures Len(es[|es| - 1].hash) == es[|es| - 1].height + 1
      decreases |es|
    {
      var n := |es| - 1;
      var below := es[..n];
      assert es == below + [es[n]];
      if n > 0 {
        ExtendChain(base, below);
        assert below[n - 1] == es[n - 1];
      }
      PushOnChain(es[n]);
    }
  }

  /** How many leading entries two lists share. */
  function CommonPrefix(a: seq<HeaderEntry>, b: seq<HeaderEntry>): (n: nat)
    ensures n <= |a| && n <= |b| && a[..n] == b[..n]
    ensures n < |a| && n < |b| ==> a[n] != b[n]
  {
    if a == [] || b == [] || a[0] != b[0] then 0 else
      var n := CommonPrefix(a[1..], b[1..]);
      SharedOneMore(a, b, n);
      n + 1
  }

  lemma SharedOneMore(a: seq<HeaderEntry>, b: seq<HeaderEntry>, n: nat)
    requires n < |a| && n < |b| && a[0] == b[0] && a[1..][..n] == b[1..][..n]
    ensures a[..n + 1] == b[..n + 1]
  {
    assert a[..n + 1] == [a[0]] + a[1..][..n] && b[..n + 1] == [b[0]] + b[1..][..n];
  }

  lemma {:induction false} CommonPrefixIsMax(a: seq<HeaderEntry>, b: seq<HeaderEntry>, k: nat)
    requires k <= |a| && k <= |b| && a[..k] == b[..k]
    ensures CommonPrefix(a, b) >= k
  {
    if k > 0 {
      assert a[0] == a[..k][0] && b[0] == b[..k][0];
      assert a[1..][..k - 1] == a[..k][1..] && b[1..][..k - 1] == b[..k][1..];
      CommonPrefixIsMax(a[1..], b[1..], k - 1);
    }
  }
}

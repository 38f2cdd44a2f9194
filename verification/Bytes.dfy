/** Bytes, little-endian numbers and Bitcoin's variable-length CompactSize. */
module Bytes {
  type Byte = b: int | 0 <= b < 256
  type Bytes = seq<Byte>

  function Pow256(n: nat): (r: nat)
    ensures r >= 1
  {
    if n == 0 then 1 else 256 * Pow256(n - 1)
  }

  function ToLE(n: nat, x: nat): (b: Bytes)
    ensures |b| == n
  {
    if n == 0 then [] else [x % 256] + ToLE(n - 1, x / 256)
  }

  function FromLE(b: Bytes): (x: nat)
    ensures x < Pow256(|b|)
  {
    if b == [] then 0 else b[0] + 256 * FromLE(b[1..])
  }

  lemma {:induction false} FromToLE(n: nat, x: nat)
    requires x < Pow256(n)
    ensures FromLE(ToLE(n, x)) == x
  {
    if n > 0 {
      FromToLE(n - 1, x / 256);
      assert ToLE(n, x)[1..] == ToLE(n - 1, x / 256);
    }
  }

  lemma {:induction false} ToFromLE(b: Bytes)
    ensures ToLE(|b|, FromLE(b)) == b
  {
    if b != [] {
      ToFromLE(b[1..]);
      assert FromLE(b) / 256 == FromLE(b[1..]);
      assert b == [b[0]] + b[1..];
    }
  }

  /** Byte i of the encoding is digit i, counted from the least significant. */
  lemma {:induction false} LEDigits(n: nat, x: nat, i: nat)
    requires i < n
    ensures ToLE(n, x)[i] == Shifted(x, i) % 256
  {
    if i > 0 {
      LEDigits(n - 1, x / 256, i - 1);
    }
  }

  /** x without its i lowest bytes. */
  function Shifted(x: nat, i: nat): (r: nat)
    ensures r * Pow256(i) <= x < (r + 1) * Pow256(i)
  {
    if i == 0 then x else
      var r := Shifted(x / 256, i - 1);
      ShiftBounds(x, r, Pow256(i - 1));
      r
  }

  lemma ShiftBounds(x: nat, r: nat, p: nat)
    requires r * p <= x / 256 < (r + 1) * p
    ensures r * (256 * p) <= x < (r + 1) * (256 * p)
  {
    assert r * (256 * p) == 256 * (r * p);
    assert (r + 1) * (256 * p) == 256 * ((r + 1) * p);
  }
}

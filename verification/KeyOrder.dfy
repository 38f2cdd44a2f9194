/** The order in which a sorted store keeps its keys. */
module KeyOrder {
  import opened Bytes

  predicate Below(a: Bytes, b: Bytes) {
    if b == [] then false
    else if a == [] then true
    else a[0] < b[0] || (a[0] == b[0] && Below(a[1..], b[1..]))
  }

  /** It is the lexicographic order of bytes: a proper prefix comes first, and
      else the lower byte at the first place where the keys differ. */
  lemma {:induction false} BelowIsLexicographic(a: Bytes, b: Bytes)
    ensures Below(a, b) <==>
      || (|a| < |b| && b[..|a|] == a)
      || (exists i :: 0 <= i < |a| && i < |b| && a[..i] == b[..i] && a[i] < b[i])
  {
    if a != [] && b != [] {
      BelowIsLexicographic(a[1..], b[1..]);
      if a[0] == b[0] {
        forall i | 0 <= i < |a[1..]| && i <= |b[1..]|
          ensures a[..i + 1] == b[..i + 1] <==> a[1..][..i] == b[1..][..i]
        {
          SamePrefixTail(a, b, i);
        }
        SamePrefixTail(a, b, |a| - 1);
        if i :| 0 <= i < |a| && i < |b| && a[..i] == b[..i] && a[i] < b[i] {
          assert a[1..][..i - 1] == b[1..][..i - 1] && a[1..][i - 1] < b[1..][i - 1];
        }
        if i :| 0 <= i < |a[1..]| && i < |b[1..]| && a[1..][..i] == b[1..][..i] && a[1..][i] < b[1..][i] {
          assert a[..i + 1] == b[..i + 1] && a[i + 1] < b[i + 1];
        }
      } else {
        assert a[..0] == b[..0];
        forall i | 0 < i <= |a| && i <= |b|
          ensures a[..i] != b[..i]
        {
          assert a[..i][0] != b[..i][0];
        }
      }
    }
  }

  lemma SamePrefixTail(a: Bytes, b: Bytes, i: nat)
    requires a != [] && b != [] && a[0] == b[0] && i < |a|
    ensures i < |b| ==> (a[..i + 1] == b[..i + 1] <==> a[1..][..i] == b[1..][..i])
  {
    if i < |b| {
      assert a[..i + 1] == [a[0]] + a[1..][..i] && b[..i + 1] == [b[0]] + b[1..][..i];
    }
  }

  predicate HasPrefix(p: Bytes, k: Bytes) {
    |p| <= |k| && k[..|p|] == p
  }

  lemma {:induction false} Trichotomy(a: Bytes, b: Bytes)
    ensures a == b || Below(a, b) || Below(b, a)
    ensures !(Below(a, b) && Below(b, a)) && (a == b ==> !Below(a, b))
  {
    if a != [] && b != [] {
      assert a == [a[0]] + a[1..] && b == [b[0]] + b[1..];
      Trichotomy(a[1..], b[1..]);
    }
  }

  lemma {:induction false} Transitive(a: Bytes, b: Bytes, c: Bytes)
    requires Below(a, b) && Below(b, c)
    ensures Below(a, c)
  {
    if a != [] && a[0] == b[0] && b[0] == c[0] {
      Transitive(a[1..], b[1..], c[1..]);
    }
  }

  lemma PrefixStep(p: Bytes, k: Bytes)
    requires p != []
    ensures HasPrefix(p, k) <==> k != [] && p[0] == k[0] && HasPrefix(p[1..], k[1..])
  {
    if k != [] && |p| <= |k| {
      assert k[..|p|] == [k[0]] + k[1..][..|p| - 1];
      assert p == [p[0]] + p[1..];
    }
  }

  lemma {:induction false} PrefixNotBelow(p: Bytes, k: Bytes)
    requires HasPrefix(p, k)
    ensures !Below(k, p)
  {
    if p != [] {
      PrefixStep(p, k);
      PrefixNotBelow(p[1..], k[1..]);
    }
  }

  /** Keys with a common prefix are neighbours: past the first key that lacks the
      prefix there is no other key that has it. */
  lemma {:induction false} PrefixContiguous(p: Bytes, a: Bytes, b: Bytes)
    requires !Below(a, p) && !HasPrefix(p, a) && Below(a, b)
    ensures !HasPrefix(p, b)
  {
    PrefixStep(p, a);
    PrefixStep(p, b);
    if p[0] == a[0] && a[0] == b[0] {
      PrefixContiguous(p[1..], a[1..], b[1..]);
    }
  }
}

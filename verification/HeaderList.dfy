/** The in-memory header list: a vector by height, a hash index that is never
    cleaned, and a cached tip. */
module HeaderLists {
  import opened Wrappers
  import opened Chain

  datatype ListState = ListState(
    headers: seq<HeaderEntry>, heights: map<BlockHash, nat>, tip: BlockHash)

  const EMPTY := ListState([], map[], NULL_HASH)

  // ---------- what the operations compute ----------

  function Lookup(l: ListState, h: BlockHash): Option<HeaderEntry> {
    if h in l.heights && l.heights[h] < |l.headers| && l.headers[l.heights[h]].hash == h
    then Some(l.headers[l.heights[h]]) else None
  }

  predicate Linked(hash: Header -> BlockHash, hs: seq<Header>) {
    forall i, j :: 0 <= i < |hs| && 0 <= j < |hs| && j == i + 1 ==> hs[j].prev == hash(hs[i])
  }

  function Numbered(hash: Header -> BlockHash, start: nat, hs: seq<Header>): (es: seq<HeaderEntry>)
    ensures |es| == |hs|
  {
    seq(|hs|, i requires 0 <= i < |hs| => HeaderEntry(start + i, hash(hs[i]), hs[i]))
  }

  function Order(hash: Header -> BlockHash, l: ListState, hs: seq<Header>): Outcome<seq<HeaderEntry>> {
    if !Linked(hash, hs) then Panicked
    else if hs == [] then Returned([])
    else if hs[0].prev == NULL_HASH then Returned(Numbered(hash, 0, hs))
    else match Lookup(l, hs[0].prev)
      case None => Panicked
      case Some(e) => Returned(Numbered(hash, e.height + 1, hs))
  }

  /** The index after entering es, later entries last. */
  function Indexed(heights: map<BlockHash, nat>, es: seq<HeaderEntry>): map<BlockHash, nat> {
    if es == [] then heights else
      Indexed(heights, es[..|es| - 1])[es[|es| - 1].hash := es[|es| - 1].height]
  }

  /** `apply` as a value: unchanged when it refuses or has nothing to add. */
  function Applied(l: ListState, es: seq<HeaderEntry>): Outcome<ListState> {
    if !Stacked(es) then Panicked
    else if es == [] then Returned(l)
    else
      var h := es[0].height;
      if h > |l.headers| then Panicked
      else if es[0].header.prev != (if h > 0 then l.headers[h - 1].hash else NULL_HASH) then Returned(l)
      else Returned(ListState(l.headers[..h] + es, Indexed(l.heights, es), es[|es| - 1].hash))
  }

  /** Walk from t to the null hash through m, using each header once. */
  function Walk(m: map<BlockHash, Header>, t: BlockHash): Option<seq<Header>>
    decreases |m|
  {
    if t == NULL_HASH then Some([])
    else if t !in m then None
    else
      var rest := Walk(m - {t}, m[t].prev);
      if rest.None? then None else Some(rest.value + [m[t]])
  }

  /** `HeaderList::new` as a value. */
  function Rebuild(hash: Header -> BlockHash, m: map<BlockHash, Header>, t: BlockHash): Outcome<ListState> {
    match Walk(m, t)
    case None => Panicked
    case Some(hs) =>
      match Order(hash, EMPTY, hs)
      case Panicked => Panicked
      case Returned(es) => Applied(EMPTY, es)
  }

  /** `order` panics exactly when two neighbours are not linked by the hash of the
      lower one, or the first one stands neither on null nor on an entry of the
      list. */
  lemma OrderPanics(hash: Header -> BlockHash, l: ListState, hs: seq<Header>)
    ensures Order(hash, l, hs).Panicked? <==>
      || (exists i, j :: 0 <= i < |hs| && 0 <= j < |hs| && j == i + 1 && hs[j].prev != hash(hs[i]))
      || (hs != [] && hs[0].prev != 0 && Lookup(l, hs[0].prev).None?)
    ensures Order(hash, l, hs).Returned? ==> |Order(hash, l, hs).value| == |hs|
  {
    hide Lookup, Numbered;
  }

  // ---------- the class ----------

  class HeaderList {
    const hash: Header -> BlockHash
    var headers: seq<HeaderEntry>
    var heights: map<BlockHash, nat>
    var tip: BlockHash

    function State(): ListState
      reads this
    {
      ListState(headers, heights, tip)
    }

    constructor Empty(hash: Header -> BlockHash)
      ensures State() == EMPTY && this.hash == hash
    {
      this.hash := hash;
      headers, heights, tip := [], map[], NULL_HASH;
    }

    static method New(hash: Header -> BlockHash, headersMap: map<BlockHash, Header>, tipHash: BlockHash)
      returns (r: Outcome<HeaderList>)
      ensures r.Panicked? <==> Rebuild(hash, headersMap, tipHash).Panicked?
      ensures r.Returned? ==>
        && fresh(r.value) && r.value.hash == hash
        && Rebuild(hash, headersMap, tipHash) == Returned(r.value.State())
    {
      var remaining, blockhash, chain := headersMap, tipHash, [];
      while blockhash != NULL_HASH
        invariant Walk(headersMap, tipHash).Some? <==> Walk(remaining, blockhash).Some?
        invariant Walk(headersMap, tipHash).Some? ==>
          Walk(headersMap, tipHash).value == Walk(remaining, blockhash).value + Reversed(chain)
        decreases |remaining|
      {
        if blockhash !in remaining {
          return Panicked;
        }
        var header := remaining[blockhash];
        remaining := remaining - {blockhash};
        blockhash := header.prev;
        chain := chain + [header];
      }
      assert Walk(headersMap, tipHash).value == Reversed(chain);
      var list := new HeaderList.Empty(hash);
      var ordered := list.InOrder(Reversed(chain));
      if ordered.Panicked? {
        return Panicked;
      }
      var applied := list.Apply(ordered.value);
      r := if applied.Panicked? then Panicked else Returned(list);
    }

    function InOrder(newHeaders: seq<Header>): (r: Outcome<seq<HeaderEntry>>)
      reads this
      ensures r == Order(hash, State(), newHeaders)
    {
      if !Linked(hash, newHeaders) then Panicked
      else if newHeaders == [] then Returned([])
      else
        var prev := newHeaders[0].prev;
        if prev == NULL_HASH then Returned(Numbered(hash, 0, newHeaders))
        else
          var parent := HeaderByBlockhash(prev);
          if parent.None? then Panicked
          else Returned(Numbered(hash, parent.value.height + 1, newHeaders))
    }

    /** The assertion loop at the head of `apply`. */
    static method AssertStacked(es: seq<HeaderEntry>) returns (ok: bool)
      ensures ok == Stacked(es)
    {
      for i := 0 to |es|
        invariant forall j, k :: 0 <= j < i && 0 <= k < i && k == j + 1 ==>
          es[k].height == es[j].height + 1 && es[k].header.prev == es[j].hash
      {
        if i > 0 && (es[i - 1].height + 1 != es[i].height || es[i - 1].hash != es[i].header.prev) {
          return false;
        }
      }
      ok := true;
    }

    method Apply(newHeaders: seq<HeaderEntry>) returns (r: Outcome<()>)
      modifies this
      ensures r.Panicked? <==> Applied(old(State()), newHeaders).Panicked?
      ensures r.Panicked? ==> State() == old(State())
      ensures r.Returned? ==> Applied(old(State()), newHeaders) == Returned(State())
      ensures r.Panicked? <==>
        || (exists i, j :: 0 <= i < |newHeaders| && 0 <= j < |newHeaders| && j == i + 1 &&
              (newHeaders[j].height != newHeaders[i].height + 1 || newHeaders[j].header.prev != newHeaders[i].hash))
        || (newHeaders != [] && newHeaders[0].height > |old(headers)|)
      ensures r.Returned? && newHeaders != [] ==>
        var h := newHeaders[0].height;
        var below := if h == 0 then 0 else old(headers)[h - 1].hash;
        headers == if newHeaders[0].header.prev == below then old(headers)[..h] + newHeaders else old(headers)
      ensures newHeaders == [] ==> headers == old(headers)
    {
      var stacked := AssertStacked(newHeaders);
      if !stacked {
        return Panicked;
      }
      if newHeaders == [] {
        return Returned(());
      }
      var newHeight := newHeaders[0].height;
      if newHeight > 0 && newHeight - 1 >= |headers| {
        return Panicked;
      }
      var expected := if newHeight > 0 then headers[newHeight - 1].hash else NULL_HASH;
      if newHeaders[0].header.prev != expected {
        return Returned(());
      }
      Replace(newHeaders);
      r := Returned(());
    }

    /** Cuts the list at the first new height and pushes the new entries. */
    method Replace(newHeaders: seq<HeaderEntry>)
      requires newHeaders != [] && Stacked(newHeaders) && newHeaders[0].height <= |headers|
      modifies this
      ensures headers == old(headers)[..newHeaders[0].height] + newHeaders
      ensures heights == Indexed(old(heights), newHeaders)
      ensures tip == newHeaders[|newHeaders| - 1].hash
    {
      ghost var kept := headers[..newHeaders[0].height];
      headers := headers[..newHeaders[0].height];
      for i := 0 to |newHeaders|
        invariant headers == kept + newHeaders[..i]
        invariant heights == Indexed(old(heights), newHeaders[..i])
        invariant tip == if i == 0 then old(tip) else newHeaders[i - 1].hash
      {
        StackedHeights(newHeaders, i);
        assert newHeaders[i].height == |headers|;  // the source's own assertion
        tip := newHeaders[i].hash;
        headers := headers + [newHeaders[i]];
        heights := heights[tip := newHeaders[i].height];
        assert newHeaders[..i + 1] == newHeaders[..i] + [newHeaders[i]];
      }
      assert newHeaders[..|newHeaders|] == newHeaders;
    }

    function HeaderByBlockhash(blockhash: BlockHash): (r: Option<HeaderEntry>)
      reads this
      ensures r == Lookup(State(), blockhash)
    {
      if blockhash !in heights || heights[blockhash] >= |headers| then None
      else
        var entry := headers[heights[blockhash]];
        if blockhash == entry.hash then Some(entry) else None
    }

    function HeaderByHeight(height: nat): Outcome<Option<HeaderEntry>>
      reads this
    {
      if height >= |headers| then Returned(None)
      else if headers[height].height != height then Panicked
      else Returned(Some(headers[height]))
    }

    /** Two lists are taken to be equal when their last entries are. */
    function Equals(other: HeaderList): bool
      reads this, other
    {
      if headers == [] || other.headers == [] then headers == other.headers
      else headers[|headers| - 1] == other.headers[|other.headers| - 1]
    }

    function Tip(): Outcome<BlockHash>
      reads this
    {
      var last := if headers == [] then NULL_HASH else headers[|headers| - 1].hash;
      if tip == last then Returned(tip) else Panicked
    }
  }

  function Reversed<T>(s: seq<T>): seq<T> {
    if s == [] then [] else [s[|s| - 1]] + Reversed(s[..|s| - 1])
  }

  // ---------- the invariant ----------

  /** The list is the chain of its tip, and the index finds every chain hash.
      Nothing is said of other hashes in the index: they may be stale. */
  ghost predicate Valid(w: World, l: ListState) {
    && w.Valid() && w.Knows(l.tip)
    && l.headers == w.ChainOf(l.tip)
    && (forall i :: 0 <= i < |l.headers| ==>
          l.headers[i].hash in l.heights && l.heights[l.headers[i].hash] == i)
  }

  /** Everything the code takes for granted: true heights, links down to null,
      no repeated hash, and a tip that is the last hash. */
  lemma ValidMeans(w: World, l: ListState)
    requires Valid(w, l)
    ensures forall i :: 0 <= i < |l.headers| ==>
      && l.headers[i].height == i
      && w.hash(l.headers[i].header) == l.headers[i].hash
      && (i == 0 ==> l.headers[i].header.prev == NULL_HASH)
    ensures Stacked(l.headers)
    ensures forall i, j :: 0 <= i < j < |l.headers| ==> l.headers[i].hash != l.headers[j].hash
    ensures l.tip == if l.headers == [] then NULL_HASH else l.headers[|l.headers| - 1].hash
  {
    forall i | 0 <= i < |l.headers|
      ensures l.headers[i].height == i
      ensures w.hash(l.headers[i].header) == l.headers[i].hash
      ensures i == 0 ==> l.headers[i].header.prev == NULL_HASH
    {
      w.ChainAt(l.tip, i);
      w.ChainLinks(l.tip, i);
    }
    forall i, j | 0 <= i < j < |l.headers|
      ensures l.headers[i].hash != l.headers[j].hash
    {
      w.OneHeight(l.tip, i, l.tip, j);
    }
    w.ChainLength(l.tip);
    ChainStacked(w, l.tip);
  }

  /** The hash index agrees with searching the vector, stale entries or not. */
  lemma IndexAgreesWithSearch(w: World, l: ListState, h: BlockHash)
    requires Valid(w, l)
    ensures Lookup(l, h).None? <==> forall i :: 0 <= i < |l.headers| ==> l.headers[i].hash != h
    ensures Lookup(l, h).Some? ==>
      && Lookup(l, h).value in l.headers
      && h in w.headers && Lookup(l, h).value == w.Entry(h)
  {
    if Lookup(l, h).Some? {
      w.ChainAt(l.tip, l.heights[h]);
    }
  }

  /** Looking up a height never fails its assertion and finds the entry there. */
  lemma HeightLookup(w: World, list: HeaderList, height: nat)
    requires Valid(w, list.State())
    ensures list.HeaderByHeight(height).Returned?
    ensures list.HeaderByHeight(height).value ==
      if height < |list.headers| then Some(w.ChainOf(list.tip)[height]) else None
  {
    if height < |list.headers| {
      w.ChainAt(list.tip, height);
    }
  }

  /** Comparing the last entries decides whether the whole lists are the same. */
  lemma EqualsIsEquality(w: World, a: HeaderList, b: HeaderList)
    requires Valid(w, a.State()) && Valid(w, b.State())
    ensures a.Equals(b) <==> a.headers == b.headers
    ensures a.Tip() == Returned(a.tip)
  {
    w.ChainLength(a.tip);
    w.ChainLength(b.tip);
  }

  lemma {:induction false} IndexedFinds(heights: map<BlockHash, nat>, es: seq<HeaderEntry>)
    requires forall i, j :: 0 <= i < j < |es| ==> es[i].hash != es[j].hash
    ensures forall i :: 0 <= i < |es| ==>
      es[i].hash in Indexed(heights, es) && Indexed(heights, es)[es[i].hash] == es[i].height
    ensures forall h :: h in heights && (forall i :: 0 <= i < |es| ==> es[i].hash != h) ==>
      h in Indexed(heights, es) && Indexed(heights, es)[h] == heights[h]
  {
    if es != [] {
      var below := es[..|es| - 1];
      IndexedFinds(heights, below);
      forall i | 0 <= i < |es| - 1
        ensures es[i].hash in Indexed(heights, es) && Indexed(heights, es)[es[i].hash] == es[i].height
      {
        assert below[i] == es[i];
      }
    }
  }

  /** Whatever known entries `apply` is given, it panics, or leaves the list as
      it was, or cuts it at the first new height and appends the entries; and
      the invariant holds again. */
  lemma ApplyKeepsValid(w: World, l: ListState, es: seq<HeaderEntry>)
    requires Valid(w, l) && w.Files(es)
    ensures Applied(l, es).Returned? ==>
      && Valid(w, Applied(l, es).value)
      && (Applied(l, es).value == l
          || (es != [] && es[0].height <= |l.headers|
              && Applied(l, es).value.headers == l.headers[..es[0].height] + es
              && Applied(l, es).value.tip == es[|es| - 1].hash))
  {
    if Applied(l, es).Returned? && Applied(l, es).value != l {
      var l' := Applied(l, es).value;
      var h := es[0].height;
      var base := es[0].header.prev;
      w.ChainLength(l.tip);
      if h > 0 {
        w.ChainUpTo(l.tip, h - 1);
      }
      assert w.ChainOf(base) == l.headers[..h];
      w.ChainLength(base);
      w.ExtendChain(base, es);
      forall i, j | 0 <= i < j < |l'.headers|
        ensures l'.headers[i].hash != l'.headers[j].hash
      {
        w.OneHeight(l'.tip, i, l'.tip, j);
      }
      IndexSurvives(w, l, es);
    }
  }

  lemma IndexSurvives(w: World, l: ListState, es: seq<HeaderEntry>)
    requires Valid(w, l) && es != [] && es[0].height <= |l.headers| && Stacked(es)
    requires var all := l.headers[..es[0].height] + es;
      forall i, j :: 0 <= i < j < |all| ==> all[i].hash != all[j].hash
    ensures var all := l.headers[..es[0].height] + es;
      forall i :: 0 <= i < |all| ==>
        all[i].hash in Indexed(l.heights, es) && Indexed(l.heights, es)[all[i].hash] == i
  {
    hide World.ChainOf, World.Valid, Indexed;
    var h := es[0].height;
    var all := l.headers[..h] + es;
    forall i, j | 0 <= i < j < |es|
      ensures es[i].hash != es[j].hash
    {
      assert all[h + i].hash != all[h + j].hash;
    }
    IndexedFinds(l.heights, es);
    forall i | 0 <= i < |all|
      ensures all[i].hash in Indexed(l.heights, es) && Indexed(l.heights, es)[all[i].hash] == i
    {
      if i < h {
        assert all[i] == l.headers[i];
        forall k | 0 <= k < |es|
          ensures es[k].hash != all[i].hash
        {
          assert es[k] == all[h + k];
        }
      } else {
        StackedHeights(es, i - h);
        assert all[i] == es[i - h];
      }
    }
  }

  /** `order` then `apply`, over and over, with any headers the world knows. */
  function Session(hash: Header -> BlockHash, l: ListState, batches: seq<seq<Header>>): Outcome<ListState>
    decreases |batches|
  {
    if batches == [] then Returned(l) else
      match Order(hash, l, batches[0])
      case Panicked => Panicked
      case Returned(es) =>
        match Applied(l, es)
        case Panicked => Panicked
        case Returned(l') => Session(hash, l', batches[1..])
  }

  lemma {:induction false} SessionKeepsValid(w: World, l: ListState, batches: seq<seq<Header>>)
    requires Valid(w, l)
    requires forall b :: 0 <= b < |batches| ==> forall i :: 0 <= i < |batches[b]| ==>
      w.hash(batches[b][i]) in w.headers && w.headers[w.hash(batches[b][i])] == batches[b][i]
    ensures Session(w.hash, l, batches).Returned? ==> Valid(w, Session(w.hash, l, batches).value)
    decreases |batches|
  {
    if batches != [] {
      var ordered := Order(w.hash, l, batches[0]);
      if ordered.Returned? {
        ApplyKeepsValid(w, l, ordered.value);
        var applied := Applied(l, ordered.value);
        if applied.Returned? {
          forall b | 0 <= b < |batches[1..]|
            ensures forall i :: 0 <= i < |batches[1..][b]| ==>
              w.hash(batches[1..][b][i]) in w.headers
              && w.headers[w.hash(batches[1..][b][i])] == batches[1..][b][i]
          {
            assert batches[1..][b] == batches[b + 1];
          }
          SessionKeepsValid(w, applied.value, batches[1..]);
        }
      }
    }
  }

  // ---------- rebuilding ----------

  /** m files known headers, possibly with branches that t does not use. */
  ghost predicate Filed(w: World, m: map<BlockHash, Header>) {
    forall h :: h in m ==> h in w.headers && m[h] == w.headers[h]
  }

  lemma {:induction false} WalkFindsChain(w: World, m: map<BlockHash, Header>, t: BlockHash)
    requires w.Valid() && w.Knows(t) && Filed(w, m)
    ensures Walk(m, t) ==
      if forall i :: 0 <= i < |w.ChainOf(t)| ==> w.ChainOf(t)[i].hash in m
      then Some(HeadersOf(w.ChainOf(t))) else None
    decreases w.Len(t)
  {
    if t != NULL_HASH {
      assert w.Rooted(t);
      var prev := w.headers[t].prev;
      w.ChainLength(t);
      w.ChainLength(prev);
      var below := w.ChainOf(prev);
      assert w.ChainOf(t) == below + [w.Entry(t)];
      if t in m {
        WalkFindsChain(w, m - {t}, prev);
        forall i | 0 <= i < |below|
          ensures below[i].hash in m - {t} <==> below[i].hash in m
        {
          w.ChainAt(prev, i);
        }
        forall i | 0 <= i < |below|
          ensures w.ChainOf(t)[i] == below[i]
        {}
        assert HeadersOf(w.ChainOf(t)) == HeadersOf(below) + [w.headers[t]];
      } else {
        assert w.ChainOf(t)[|below|].hash == t;
      }
    }
  }

  /** Rebuilding succeeds exactly when no ancestor of the tip is missing, and
      then gives the tip's chain; orphan branches make no difference. */
  lemma RebuildGivesChain(w: World, m: map<BlockHash, Header>, t: BlockHash)
    requires w.Valid() && w.Knows(t) && Filed(w, m)
    ensures Rebuild(w.hash, m, t).Returned? <==>
      forall i :: 0 <= i < |w.ChainOf(t)| ==> w.ChainOf(t)[i].hash in m
    ensures Rebuild(w.hash, m, t).Returned? ==>
      Valid(w, Rebuild(w.hash, m, t).value) && Rebuild(w.hash, m, t).value.tip == t
  {
    hide Walk, Order, Applied, Valid;
    WalkFindsChain(w, m, t);
    EmptyIsValid(w);
    assert w.ChainOf(t)[0..] == w.ChainOf(t);
    OrderNumbersChain(w, EMPTY, t, 0);
    ApplyWholeChain(w, t);
  }

  lemma EmptyIsValid(w: World)
    requires w.Valid()
    ensures Valid(w, EMPTY)
  {}

  lemma ApplyWholeChain(w: World, t: BlockHash)
    requires w.Valid() && w.Knows(t)
    ensures Applied(EMPTY, w.ChainOf(t)).Returned?
    ensures Valid(w, Applied(EMPTY, w.ChainOf(t)).value) && Applied(EMPTY, w.ChainOf(t)).value.tip == t
  {
    w.ChainFiles(t);
    w.ChainLength(t);
    ChainStacked(w, t);
    ApplyKeepsValid(w, EMPTY, w.ChainOf(t));
    if t != NULL_HASH {
      w.ChainAt(t, 0);
      w.ChainLinks(t, 0);
    }
  }

  lemma ChainStacked(w: World, t: BlockHash)
    requires w.Valid() && w.Knows(t)
    ensures Stacked(w.ChainOf(t))
  {
    forall i, j | 0 <= i < j < |w.ChainOf(t)| && j == i + 1
      ensures w.ChainOf(t)[j].height == w.ChainOf(t)[i].height + 1
      ensures w.ChainOf(t)[j].header.prev == w.ChainOf(t)[i].hash
    {
      w.ChainAt(t, i);
      w.ChainAt(t, j);
      w.ChainLinks(t, j);
    }
  }

  /** `order` gives the upper part of a chain its true heights, provided the
      list holds the entry it hangs on. */
  lemma OrderNumbersChain(w: World, l: ListState, t: BlockHash, from: nat)
    requires Valid(w, l) && w.Knows(t) && from <= |w.ChainOf(t)|
    requires 0 < from < |w.ChainOf(t)| ==> w.ChainOf(t)[from - 1] in l.headers
    ensures Order(w.hash, l, HeadersOf(w.ChainOf(t)[from..])) == Returned(w.ChainOf(t)[from..])
  {
    hide World.ChainOf, Lookup, Linked, Numbered;
    var es := w.ChainOf(t)[from..];
    UpperLinked(w, t, from);
    if es != [] {
      w.ChainLinks(t, from);
      if from > 0 {
        ParentFound(w, l, t, from - 1);
      }
    }
  }

  lemma UpperLinked(w: World, t: BlockHash, from: nat)
    requires w.Valid() && w.Knows(t) && from <= |w.ChainOf(t)|
    ensures var es := w.ChainOf(t)[from..];
      Numbered(w.hash, from, HeadersOf(es)) == es && Linked(w.hash, HeadersOf(es))
  {
    hide World.ChainOf;
    var es := w.ChainOf(t)[from..];
    forall i | 0 <= i < |es|
      ensures HeaderEntry(from + i, w.hash(es[i].header), es[i].header) == es[i]
    {
      w.ChainAt(t, from + i);
    }
    forall i, j | 0 <= i < |es| && 0 <= j < |es| && j == i + 1
      ensures es[j].header.prev == w.hash(es[i].header)
    {
      w.ChainLinks(t, from + j);
      w.ChainAt(t, from + i);
    }
  }

  lemma ParentFound(w: World, l: ListState, t: BlockHash, i: nat)
    requires Valid(w, l) && w.Knows(t) && i < |w.ChainOf(t)| && w.ChainOf(t)[i] in l.headers
    ensures w.ChainOf(t)[i].height == i
    ensures w.ChainOf(t)[i].hash != NULL_HASH
    ensures Lookup(l, w.ChainOf(t)[i].hash) == Some(w.ChainOf(t)[i])
  {
    w.ChainAt(t, i);
    IndexAgreesWithSearch(w, l, w.ChainOf(t)[i].hash);
  }
}

/** The Bitcoin daemon as the indexer sees it, and the two ways of downloading headers. */
module Daemons {
  import opened Wrappers
  import opened Chain
  import opened HeaderLists

  const CHUNK: nat := 100_000

  /** What the daemon answers during one call.  A missing entry is a request that
      fails; None is a reply that is left out, or has no numeric height. */
  datatype Daemon = Daemon(
    headers: map<BlockHash, Option<Header>>,
    heights: map<BlockHash, Option<nat>>,
    active: map<nat, Option<BlockHash>>)
  {
    /** The header returned for a hash is the one that hashes to it. */
    ghost predicate Honest(w: World) {
      forall h :: h in headers ==> h in w.headers && headers[h] == Some(w.headers[h])
    }

    /** Heights and height lookups describe the chain of t. */
    ghost predicate Follows(w: World, t: BlockHash)
      requires w.Valid() && w.Knows(t)
    {
      && (t in heights ==> t in w.headers && heights[t] == Some(w.height[t]))
      && (forall i :: i in active && i < |w.ChainOf(t)| ==> active[i] == Some(w.ChainOf(t)[i].hash))
    }

    /** A request for the hash or the header at height i fails. */
    predicate FailsAt(i: nat) {
      i !in active || (active[i].Some? && active[i].value !in headers)
    }

    /** Hash and header at height i both arrive. */
    predicate ServesAt(i: nat) {
      i in active && active[i].Some? && active[i].value in headers && headers[active[i].value].Some?
    }

    predicate Fails(lo: nat, hi: nat) {
      exists i :: lo <= i < hi && FailsAt(i)
    }

    predicate Serves(lo: nat, hi: nat) {
      forall i :: lo <= i < hi ==> ServesAt(i)
    }

    function HeadersAt(lo: nat, hi: nat): (hs: seq<Header>)
      requires lo <= hi && Serves(lo, hi)
      ensures |hs| == hi - lo
    {
      seq(hi - lo, i requires 0 <= i < hi - lo => assert ServesAt(lo + i); HeaderAt(lo + i))
    }

    function HeaderAt(i: nat): Header
      requires ServesAt(i)
    {
      headers[active[i].value].value
    }

    predicate ServesAll(t: BlockHash) {
      t in heights && heights[t].Some? && Serves(0, heights[t].value + 1)
    }

    function Download(t: BlockHash): seq<Header>
      requires ServesAll(t)
    {
      HeadersAt(0, heights[t].value + 1)
    }

    /** The hashes at some heights; a reply that is left out makes the result
        shorter. */
    method GetBlockHashes(lo: nat, hi: nat) returns (r: Result<seq<BlockHash>, string>, ghost from: seq<nat>)
      requires lo <= hi
      ensures r.Err? <==> exists i :: lo <= i < hi && i !in active
      ensures r.Ok? ==> |from| == |r.value| <= hi - lo
      ensures r.Ok? ==> forall k :: 0 <= k < |from| ==>
        lo <= from[k] < hi && from[k] in active && active[from[k]] == Some(r.value[k])
      ensures r.Ok? ==> forall i :: lo <= i < hi && active[i].Some? ==> i in from
      ensures r.Ok? ==> (|from| == hi - lo <==> forall i :: lo <= i < hi ==> active[i].Some?)
      ensures r.Ok? && |from| == hi - lo ==> forall k :: 0 <= k < |from| ==> from[k] == lo + k
    {
      var hashes: seq<BlockHash> := [];
      from := [];
      for i := lo to hi
        invariant forall k :: lo <= k < i ==> k in active
        invariant |from| == |hashes| <= i - lo
        invariant forall k :: 0 <= k < |from| ==>
          lo <= from[k] < i && from[k] in active && active[from[k]] == Some(hashes[k])
        invariant forall k :: lo <= k < i && active[k].Some? ==> k in from
        invariant |from| == i - lo <==> forall k :: lo <= k < i ==> active[k].Some?
        invariant |from| == i - lo ==> forall k :: 0 <= k < |from| ==> from[k] == lo + k
      {
        if i !in active {
          return Err("failed to get hash"), [];
        }
        if active[i].Some? {
          hashes := hashes + [active[i].value];
          from := from + [i];
        }
      }
      r := Ok(hashes);
    }

    /** The headers of some hashes, with the same caveat. */
    method GetHeadersOf(hashes: seq<BlockHash>) returns (r: Result<seq<Header>, string>)
      ensures r.Err? <==> exists k :: 0 <= k < |hashes| && hashes[k] !in headers
      ensures r.Ok? ==> |r.value| <= |hashes|
      ensures r.Ok? ==> (|r.value| == |hashes| <==> forall k :: 0 <= k < |hashes| ==> headers[hashes[k]].Some?)
      ensures r.Ok? && |r.value| == |hashes| ==>
        forall k :: 0 <= k < |hashes| ==> headers[hashes[k]] == Some(r.value[k])
    {
      var result: seq<Header> := [];
      for i := 0 to |hashes|
        invariant forall k :: 0 <= k < i ==> hashes[k] in headers
        invariant |result| <= i
        invariant |result| == i <==> forall k :: 0 <= k < i ==> headers[hashes[k]].Some?
        invariant |result| == i ==> forall k :: 0 <= k < i ==> headers[hashes[k]] == Some(result[k])
      {
        if hashes[i] !in headers {
          return Err("failed to get header");
        }
        if headers[hashes[i]].Some? {
          result := result + [headers[hashes[i]].value];
        }
      }
      r := Ok(result);
    }

    method GetBlockHeaders(lo: nat, hi: nat) returns (r: Result<seq<Header>, string>)
      requires lo <= hi
      ensures r.Err? <==> Fails(lo, hi)
      ensures r.Err? <==>
        exists i :: lo <= i < hi && (i !in active || (active[i].Some? && active[i].value !in headers))
      ensures r.Ok? ==> (|r.value| == hi - lo <==> Serves(lo, hi))
      ensures r.Ok? && Serves(lo, hi) ==> r.value == HeadersAt(lo, hi)
    {
      var hashes, from := GetBlockHashes(lo, hi);
      if hashes.Err? {
        ghost var i :| lo <= i < hi && i !in active;
        assert FailsAt(i);
        return Err(hashes.error);
      }
      r := GetHeadersOf(hashes.value);
      if r.Err? {
        ghost var k :| 0 <= k < |hashes.value| && hashes.value[k] !in headers;
        assert FailsAt(from[k]);
      } else {
        NoFailure(lo, hi, hashes.value, from);
        if |r.value| == hi - lo {
          forall i | lo <= i < hi
            ensures ServesAt(i) && r.value[i - lo] == HeaderAt(i)
          {
            assert from[i - lo] == i;
          }
        } else if Serves(lo, hi) {
          forall i | lo <= i < hi
            ensures active[i].Some?
          {
            assert ServesAt(i);
          }
          assert |hashes.value| == hi - lo;
          forall k | 0 <= k < |hashes.value|
            ensures headers[hashes.value[k]].Some?
          {
            assert ServesAt(from[k]);
          }
          assert false;
        }
      }
    }

    lemma NoFailure(lo: nat, hi: nat, hashes: seq<BlockHash>, from: seq<nat>)
      requires |from| == |hashes|
      requires forall k :: 0 <= k < |from| ==> from[k] in active && active[from[k]] == Some(hashes[k])
      requires forall i :: lo <= i < hi ==> i in active && (active[i].Some? ==> i in from)
      requires forall k :: 0 <= k < |hashes| ==> hashes[k] in headers
      ensures !Fails(lo, hi)
    {
      forall i | lo <= i < hi
        ensures !FailsAt(i)
      {
        if active[i].Some? {
          var k :| 0 <= k < |from| && from[k] == i;
          assert hashes[k] in headers;
        }
      }
    }

    /** Downloads by height, asserts that each chunk is complete, and then checks
        the links. */
    method GetAllHeaders(hash: Header -> BlockHash, tip: BlockHash)
      returns (r: Outcome<Result<seq<Header>, string>>)
      ensures Delivers(r, AllFetched(hash, this, tip))
    {
      if tip !in heights {
        return Returned(Err("request failed"));
      }
      if heights[tip].None? {
        return Panicked;
      }
      var total := heights[tip].value + 1;
      var result: seq<Header> := [];
      while |result| < total
        invariant |result| <= total && Serves(0, |result|) && result == HeadersAt(0, |result|)
        invariant ByHeight(this, 0, total) == After(result, ByHeight(this, |result|, total))
      {
        var hi := if |result| + CHUNK < total then |result| + CHUNK else total;
        var chunk := GetBlockHeaders(|result|, hi);
        if chunk.Err? {
          return Returned(Err(chunk.error));
        }
        if |chunk.value| != hi - |result| {
          return Panicked;
        }
        ChunkArrives(this, result, hi, total);
        result := result + chunk.value;
      }
      assert result + [] == result;
      var linked := CheckLinks(hash, result, tip);
      r := if linked then Returned(Ok(result)) else Panicked;
    }

    /** The assertions after the download. */
    static method CheckLinks(hash: Header -> BlockHash, headers: seq<Header>, tip: BlockHash) returns (ok: bool)
      requires headers != []
      ensures ok == Anchored(hash, headers, tip)
    {
      var blockhash := NULL_HASH;
      for i := 0 to |headers|
        invariant blockhash == if i == 0 then NULL_HASH else hash(headers[i - 1])
        invariant forall j, k :: 0 <= j < i && 0 <= k < i && k == j + 1 ==> headers[k].prev == hash(headers[j])
        invariant i > 0 ==> headers[0].prev == NULL_HASH
      {
        if headers[i].prev != blockhash {
          assert i > 0 ==> headers[i].prev != hash(headers[i - 1]);
          return false;
        }
        blockhash := hash(headers[i]);
      }
      ok := blockhash == tip;
    }

    /** The download, for any daemon whose answers do not go round in a circle. */
    method GetNewHeaders(list: HeaderList, best: BlockHash) returns (r: Outcome<Result<seq<Header>, string>>)
      requires !Fetched(list.hash, list.State(), this, best).Endless?
      ensures Delivers(r, Fetched(list.hash, list.State(), this, best))
    {
      if list.headers == [] {
        r := GetAllHeaders(list.hash, best);
        return;
      }
      hide WalkBack, Lookup;
      var newHeaders: seq<Header> := [];
      var blockhash := best;
      ghost var unseen := headers.Keys;
      NothingBelow(WalkBack(headers, unseen, list.State(), best));
      while blockhash != NULL_HASH
        invariant Below(WalkBack(headers, unseen, list.State(), blockhash), Reversed(newHeaders))
          == WalkBack(headers, headers.Keys, list.State(), best)
        decreases |unseen|
      {
        WalkStep(headers, unseen, list.State(), blockhash, newHeaders);
        if list.HeaderByBlockhash(blockhash).Some? {
          break;
        }
        if blockhash !in headers {
          return Returned(Err("failed to get header"));
        }
        if headers[blockhash].None? {
          return Panicked;
        }
        var header := headers[blockhash].value;
        unseen := unseen - {blockhash};
        blockhash := header.prev;
        newHeaders := newHeaders + [header];
      }
      WalkStep(headers, unseen, list.State(), blockhash, newHeaders);
      r := Returned(Ok(Reversed(newHeaders)));
    }
  }

  // ---------- what a download gives, whatever the daemon answers ----------

  /** Headers, a failed request, headers that fail the assertions, or no end,
      because the answers go round in a circle. */
  datatype Fetch = Got(headers: seq<Header>) | Refused | Broken | Endless

  /** The walk from h back to the list or to null. */
  function WalkBack(answers: map<BlockHash, Option<Header>>, unseen: set<BlockHash>, l: ListState, h: BlockHash): Fetch
    decreases |unseen|
  {
    if h == NULL_HASH || Lookup(l, h).Some? then Got([])
    else if h !in answers then Refused
    else if answers[h].None? then Broken
    else if h !in unseen then Endless
    else Below(WalkBack(answers, unseen - {h}, l, answers[h].value.prev), [answers[h].value])
  }

  /** What was fetched further down comes first. */
  function Below(f: Fetch, hs: seq<Header>): Fetch {
    if f.Got? then Got(f.headers + hs) else f
  }

  lemma NothingBelow(f: Fetch)
    ensures Below(f, Reversed([])) == f
  {
    if f.Got? {
      assert f.headers + [] == f.headers;
    }
  }

  /** One turn of the loop: it stops, fails, or goes one header down. */
  lemma WalkStep(
    answers: map<BlockHash, Option<Header>>, unseen: set<BlockHash>, l: ListState, h: BlockHash, collected: seq<Header>)
    ensures var f := Below(WalkBack(answers, unseen, l, h), Reversed(collected));
      if h == NULL_HASH || Lookup(l, h).Some? then f == Got(Reversed(collected))
      else if h !in answers then f == Refused
      else if answers[h].None? then f == Broken
      else if h !in unseen then f == Endless
      else
        var header := answers[h].value;
        f == Below(WalkBack(answers, unseen - {h}, l, header.prev), Reversed(collected + [header]))
  {
    hide Lookup;
    if h == NULL_HASH || Lookup(l, h).Some? {
      assert [] + Reversed(collected) == Reversed(collected);
    } else if h in answers && answers[h].Some? {
      var header := answers[h].value;
      BelowTwice(WalkBack(answers, unseen - {h}, l, header.prev), [header], Reversed(collected));
      assert (collected + [header])[..|collected|] == collected;
    }
  }

  lemma BelowTwice(f: Fetch, hs: seq<Header>, more: seq<Header>)
    ensures Below(Below(f, hs), more) == Below(f, hs + more)
  {
    if f.Got? {
      assert f.headers + hs + more == f.headers + (hs + more);
    }
  }

  /** The headers from height lo on, chunk by chunk: a chunk in which a request
      fails is an error, and else one with a missing reply a panic. */
  ghost function ByHeight(d: Daemon, lo: nat, total: nat): Fetch
    decreases total - lo
  {
    if lo >= total then Got([]) else
      var hi := if lo + CHUNK < total then lo + CHUNK else total;
      if d.Fails(lo, hi) then Refused
      else if !d.Serves(lo, hi) then Broken
      else After(d.HeadersAt(lo, hi), ByHeight(d, hi, total))
  }

  function After(hs: seq<Header>, f: Fetch): Fetch {
    if f.Got? then Got(hs + f.headers) else f
  }

  lemma ServesParts(d: Daemon, lo: nat, mid: nat, hi: nat)
    requires lo <= mid <= hi
    ensures d.Serves(lo, hi) <==> d.Serves(lo, mid) && d.Serves(mid, hi)
    ensures d.Serves(lo, hi) ==> d.HeadersAt(lo, hi) == d.HeadersAt(lo, mid) + d.HeadersAt(mid, hi)
    ensures d.Serves(lo, mid) ==> !d.Fails(lo, mid)
  {
    if d.Serves(lo, mid) {
      forall i | lo <= i < mid
        ensures !d.FailsAt(i)
      {
        assert d.ServesAt(i);
      }
    }
  }

  lemma ChunkArrives(d: Daemon, sofar: seq<Header>, hi: nat, total: nat)
    requires |sofar| < hi <= total && hi == (if |sofar| + CHUNK < total then |sofar| + CHUNK else total)
    requires d.Serves(0, |sofar|) && d.Serves(|sofar|, hi) && sofar == d.HeadersAt(0, |sofar|)
    ensures d.Serves(0, hi) && sofar + d.HeadersAt(|sofar|, hi) == d.HeadersAt(0, hi)
    ensures After(sofar, ByHeight(d, |sofar|, total)) == After(d.HeadersAt(0, hi), ByHeight(d, hi, total))
  {
    ServesParts(d, 0, |sofar|, hi);
    ServesParts(d, |sofar|, hi, hi);
    AfterTwice(sofar, d.HeadersAt(|sofar|, hi), ByHeight(d, hi, total));
  }

  lemma AfterTwice(a: seq<Header>, b: seq<Header>, f: Fetch)
    ensures After(a, After(b, f)) == After(a + b, f)
  {
    if f.Got? {
      assert a + (b + f.headers) == a + b + f.headers;
    }
  }

  /** The download by height is complete exactly when every request is answered. */
  lemma {:induction false} ByHeightIsAll(d: Daemon, lo: nat, total: nat)
    requires lo <= total
    ensures ByHeight(d, lo, total).Got? <==> d.Serves(lo, total)
    ensures d.Serves(lo, total) ==> ByHeight(d, lo, total) == Got(d.HeadersAt(lo, total))
    ensures !ByHeight(d, lo, total).Endless?
    decreases total - lo
  {
    if lo < total {
      var hi := if lo + CHUNK < total then lo + CHUNK else total;
      ByHeightIsAll(d, hi, total);
      ServesParts(d, lo, hi, total);
    }
  }

  lemma {:induction false} GapInChunk(d: Daemon, lo: nat, total: nat, k: nat)
    requires lo % 100_000 == 0 && lo <= k && k % 100_000 == 0 && k < total
    requires forall i :: lo <= i < k ==> d.ServesAt(i)
    requires exists i :: k <= i < total && i < k + 100_000 && !d.ServesAt(i)
    ensures ByHeight(d, lo, total) ==
      if exists i :: k <= i < total && i < k + 100_000 && d.FailsAt(i) then Refused else Broken
    decreases k - lo
  {
    var hi := if lo + 100_000 < total then lo + 100_000 else total;
    if lo < k {
      assert hi == lo + 100_000 <= k;
      ServesParts(d, lo, hi, hi);
      GapInChunk(d, hi, total, k);
    } else {
      assert !d.Serves(lo, hi);
    }
  }

  /** The full download: the height of the tip, all headers by height, and the
      assertions on the links. */
  ghost function AllFetched(hash: Header -> BlockHash, d: Daemon, t: BlockHash): Fetch {
    if t !in d.heights then Refused
    else if d.heights[t].None? then Broken
    else
      match ByHeight(d, 0, d.heights[t].value + 1)
      case Got(hs) => if Anchored(hash, hs, t) then Got(hs) else Broken
      case other => other
  }

  /** It succeeds exactly when everything is answered and what is served is a
      chain from null to the tip, and then it is that chain. */
  lemma AllFetchedExactly(hash: Header -> BlockHash, d: Daemon, t: BlockHash)
    ensures AllFetched(hash, d, t).Got? <==> d.ServesAll(t) && Anchored(hash, d.Download(t), t)
    ensures AllFetched(hash, d, t).Got? ==> AllFetched(hash, d, t).headers == d.Download(t)
    ensures !AllFetched(hash, d, t).Endless?
  {
    if t in d.heights && d.heights[t].Some? {
      ByHeightIsAll(d, 0, d.heights[t].value + 1);
    }
  }

  /** Everything by height for an empty list, else the walk. */
  ghost function Fetched(hash: Header -> BlockHash, l: ListState, d: Daemon, t: BlockHash): Fetch {
    if l.headers != [] then WalkBack(d.headers, d.headers.Keys, l, t) else AllFetched(hash, d, t)
  }

  /** For an empty list: without the tip's height the download fails or panics at
      once; and when everything is served but is no chain from null to the tip, it
      panics. */
  lemma EmptyListFetch(hash: Header -> BlockHash, l: ListState, d: Daemon, t: BlockHash)
    requires l.headers == []
    ensures t !in d.heights ==> Fetched(hash, l, d, t) == Refused
    ensures t in d.heights && d.heights[t].None? ==> Fetched(hash, l, d, t) == Broken
    ensures t in d.heights && d.heights[t].Some? && d.Serves(0, d.heights[t].value + 1) ==>
      var hs := d.HeadersAt(0, d.heights[t].value + 1);
      Fetched(hash, l, d, t) ==
        if hs[0].prev == 0 && hash(hs[|hs| - 1]) == t && Linked(hash, hs) then Got(hs) else Broken
  {
    if t in d.heights && d.heights[t].Some? {
      ByHeightIsAll(d, 0, d.heights[t].value + 1);
    }
  }

  /** And of its chunks of 100000 the first that is not complete decides: a failed
      request in it is an error, and else a reply left out a panic. */
  lemma FirstGapDecides(hash: Header -> BlockHash, l: ListState, d: Daemon, t: BlockHash, k: nat)
    requires l.headers == [] && t in d.heights && d.heights[t].Some?
    requires k % 100_000 == 0 && forall i :: 0 <= i < k ==> d.ServesAt(i)
    requires exists i :: k <= i <= d.heights[t].value && i < k + 100_000 && !d.ServesAt(i)
    ensures Fetched(hash, l, d, t) ==
      if exists i :: k <= i <= d.heights[t].value && i < k + 100_000 && d.FailsAt(i) then Refused else Broken
  {
    GapInChunk(d, 0, d.heights[t].value + 1, k);
  }

  ghost predicate Delivers(r: Outcome<Result<seq<Header>, string>>, f: Fetch) {
    match f
    case Got(hs) => r == Returned(Ok(hs))
    case Refused => r.Returned? && r.value.Err?
    case Broken => r.Panicked?
    case Endless => false
  }

  /** The hashes asked for, one after the other: each is answered with a header
      whose predecessor comes next, and none before the last stops the walk. */
  ghost predicate IsWalk(answers: map<BlockHash, Option<Header>>, l: ListState, path: seq<BlockHash>) {
    && path != []
    && forall i :: 0 <= i < |path| - 1 ==> GoesOn(answers, l, path[i]) && answers[path[i]].value.prev == path[i + 1]
  }

  ghost predicate GoesOn(answers: map<BlockHash, Option<Header>>, l: ListState, h: BlockHash) {
    h != 0 && Lookup(l, h).None? && h in answers && answers[h].Some?
  }

  /** The last hash decides what the walk gives: at null or an entry of the list
      the headers collected, the lowest first; at a request that fails an error;
      at a reply that is left out a panic. */
  lemma WalkDecides(hash: Header -> BlockHash, l: ListState, d: Daemon, path: seq<BlockHash>)
    requires l.headers != [] && IsWalk(d.headers, l, path) && !GoesOn(d.headers, l, path[|path| - 1])
    ensures var end, f, answers := path[|path| - 1], Fetched(hash, l, d, path[0]), d.headers;
      if end == 0 || Lookup(l, end).Some? then
        && f.Got? && |f.headers| == |path| - 1
        && forall i :: 0 <= i < |path| - 1 ==> Some(f.headers[|path| - 2 - i]) == answers[path[i]]
      else if end !in answers then f == Refused
      else f == Broken
  {
    hide Lookup;
    NeverTwice(d.headers, l, path);
    WalkAlong(d.headers, d.headers.Keys, l, path);
  }

  /** A walk that stops does not come to a hash twice. */
  lemma NeverTwice(answers: map<BlockHash, Option<Header>>, l: ListState, path: seq<BlockHash>)
    requires IsWalk(answers, l, path) && !GoesOn(answers, l, path[|path| - 1])
    ensures forall i, j :: 0 <= i < j < |path| ==> path[i] != path[j]
  {
    forall i, j | 0 <= i < j < |path|
      ensures path[i] != path[j]
    {
      SameEnd(answers, l, path, i, j);
    }
  }

  lemma {:induction false} SameEnd(
    answers: map<BlockHash, Option<Header>>, l: ListState, path: seq<BlockHash>, i: nat, j: nat)
    requires IsWalk(answers, l, path) && !GoesOn(answers, l, path[|path| - 1]) && i < j < |path|
    ensures path[i] != path[j]
    decreases |path| - j
  {
    hide GoesOn;
    if path[i] == path[j] {
      assert GoesOn(answers, l, path[i]);
      if j < |path| - 1 {
        SameEnd(answers, l, path, i + 1, j + 1);
      }
    }
  }

  lemma {:induction false} WalkAlong(
    answers: map<BlockHash, Option<Header>>, unseen: set<BlockHash>, l: ListState, path: seq<BlockHash>)
    requires IsWalk(answers, l, path) && !GoesOn(answers, l, path[|path| - 1])
    requires forall i, j :: 0 <= i < j < |path| ==> path[i] != path[j]
    requires forall i :: 0 <= i < |path| - 1 ==> path[i] in unseen
    ensures var end, f := path[|path| - 1], WalkBack(answers, unseen, l, path[0]);
      if end == 0 || Lookup(l, end).Some? then
        && f.Got? && |f.headers| == |path| - 1
        && forall i :: 0 <= i < |path| - 1 ==> Some(f.headers[|path| - 2 - i]) == answers[path[i]]
      else if end !in answers then f == Refused
      else f == Broken
    decreases |path|
  {
    hide Lookup;
    if |path| > 1 {
      assert GoesOn(answers, l, path[0]);
      var rest := path[1..];
      assert forall i :: 0 <= i < |rest| ==> rest[i] == path[i + 1];
      WalkAlong(answers, unseen - {path[0]}, l, rest);
      var f := WalkBack(answers, unseen - {path[0]}, l, rest[0]);
      if f.Got? {
        forall i | 0 <= i < |path| - 1
          ensures Some((f.headers + [answers[path[0]].value])[|path| - 2 - i]) == answers[path[i]]
        {
          if i > 0 {
            assert Some(f.headers[|rest| - 2 - (i - 1)]) == answers[rest[i - 1]];
          }
        }
      }
    }
  }

  /** From each of these hashes the walk goes on to another of them. */
  ghost predicate Circular(answers: map<BlockHash, Option<Header>>, l: ListState, hashes: set<BlockHash>) {
    forall h :: h in hashes ==>
      h != NULL_HASH && Lookup(l, h).None? && h in answers && answers[h].Some? && answers[h].value.prev in hashes
  }

  /** The walk has no end exactly when it can never leave a set of hashes. */
  lemma EndlessIffCircular(answers: map<BlockHash, Option<Header>>, l: ListState, h: BlockHash)
    ensures WalkBack(answers, answers.Keys, l, h).Endless? <==> exists c :: h in c && Circular(answers, l, c)
  {
    hide Lookup;
    if WalkBack(answers, answers.Keys, l, h).Endless? {
      var c := WalkVisits(answers, answers.Keys, l, h);
    }
    forall c | h in c && Circular(answers, l, c)
      ensures WalkBack(answers, answers.Keys, l, h).Endless?
    {
      CircleHasNoEnd(answers, answers.Keys, l, h, c);
    }
  }

  /** What an endless walk has visited when it comes back to one of its hashes. */
  lemma {:induction false} WalkVisits(
    answers: map<BlockHash, Option<Header>>, unseen: set<BlockHash>, l: ListState, h: BlockHash)
    returns (visited: set<BlockHash>)
    requires WalkBack(answers, unseen, l, h).Endless?
    requires forall v :: v in answers.Keys - unseen ==>
      v != NULL_HASH && Lookup(l, v).None? && answers[v].Some? && answers[v].value.prev in answers.Keys - unseen + {h}
    ensures answers.Keys - unseen + {h} <= visited && Circular(answers, l, visited)
    decreases |unseen|
  {
    hide Lookup;
    if h in unseen {
      assert answers.Keys - (unseen - {h}) == answers.Keys - unseen + {h};
      visited := WalkVisits(answers, unseen - {h}, l, answers[h].value.prev);
    } else {
      visited := answers.Keys - unseen;
    }
  }

  lemma {:induction false} CircleHasNoEnd(
    answers: map<BlockHash, Option<Header>>, unseen: set<BlockHash>, l: ListState, h: BlockHash, hashes: set<BlockHash>)
    requires h in hashes && Circular(answers, l, hashes)
    ensures WalkBack(answers, unseen, l, h).Endless?
    decreases |unseen|
  {
    hide Lookup;
    if h in unseen {
      CircleHasNoEnd(answers, unseen - {h}, l, answers[h].value.prev, hashes);
    }
  }

  /** Header j names the one below it, which was asked for by that name. */
  ghost predicate AsksBelow(answers: map<BlockHash, Option<Header>>, unseen: set<BlockHash>, hs: seq<Header>, j: nat)
    requires 0 < j < |hs|
  {
    hs[j].prev in unseen && hs[j].prev in answers && answers[hs[j].prev] == Some(hs[j - 1])
  }

  /** Every header but the newest was asked for by the link of the one above it,
      and nothing is asked for twice. */
  lemma {:induction false} WalkAsks(
    answers: map<BlockHash, Option<Header>>, unseen: set<BlockHash>, l: ListState, h: BlockHash, hs: seq<Header>)
    requires WalkBack(answers, unseen, l, h) == Got(hs)
    ensures hs == [] <==> h == NULL_HASH || Lookup(l, h).Some?
    ensures hs != [] ==> h in unseen && h in answers && answers[h] == Some(hs[|hs| - 1])
    ensures forall j {:trigger AsksBelow(answers, unseen - {h}, hs, j)} :: 0 < j < |hs| ==>
      AsksBelow(answers, unseen - {h}, hs, j)
    decreases |unseen|
  {
    hide Lookup;
    if hs != [] {
      var n := |hs| - 1;
      var prev := answers[h].value.prev;
      var below := WalkBack(answers, unseen - {h}, l, prev).headers;
      assert hs == below + [answers[h].value];
      WalkAsks(answers, unseen - {h}, l, prev, below);
      forall j | 0 < j < |hs|
        ensures AsksBelow(answers, unseen - {h}, hs, j)
      {
        if j < n {
          assert AsksBelow(answers, unseen - {h} - {prev}, below, j);
        }
      }
    }
  }

  /** The newest header is the only one that need not hash to what was asked for. */
  lemma OnlyTipUnchecked(hash: Header -> BlockHash, l: ListState, d: Daemon, t: BlockHash, hs: seq<Header>)
    requires Fetched(hash, l, d, t) == Got(hs) && Linked(hash, hs)
    ensures hs == [] ==> t == NULL_HASH || Lookup(l, t).Some?
    ensures hs != [] && hash(hs[|hs| - 1]) != t ==>
      t != NULL_HASH && Lookup(l, t).None? && forall i :: 0 <= i < |hs| ==> hash(hs[i]) != t
  {
    if l.headers != [] {
      WalkAsks(d.headers, d.headers.Keys, l, t, hs);
      forall i | 0 <= i < |hs| - 1
        ensures hash(hs[i]) != t
      {
        assert AsksBelow(d.headers, d.headers.Keys - {t}, hs, i + 1);
      }
    } else {
      AllFetchedExactly(hash, d, t);
    }
  }

  // ---------- an honest daemon ----------

  /** It is honest, and while the list is still empty its height lookups follow
      the tip. */
  ghost predicate Serving(w: World, l: ListState, d: Daemon, t: BlockHash)
    requires w.Valid() && w.Knows(t)
  {
    d.Honest(w) && (l.headers == [] ==> d.Follows(w, t))
  }

  /** Every request the download needs is answered. */
  ghost predicate Fetches(w: World, l: ListState, d: Daemon, t: BlockHash)
    requires w.Valid() && w.Knows(t)
  {
    if l.headers == [] then d.ServesAll(t) else forall e :: e in NewEntries(w, l, t) ==> e.hash in d.headers
  }

  /** An honest daemon's download ends, does not panic and is exactly the tip's
      ancestors above the fork with the list, oldest first; it fails exactly when
      one of them is not served. */
  lemma HonestFetch(w: World, l: ListState, d: Daemon, t: BlockHash)
    requires Valid(w, l) && w.Knows(t) && Serving(w, l, d, t)
    ensures Fetched(w.hash, l, d, t) ==
      if Fetches(w, l, d, t) then Got(HeadersOf(NewEntries(w, l, t))) else Refused
  {
    if l.headers == [] {
      DownloadIsChain(w, d, t);
    } else {
      HonestWalk(w, d, d.headers.Keys, l, t);
    }
  }

  ghost function Served(w: World, d: Daemon, l: ListState, t: BlockHash): Fetch
    requires w.Valid() && w.Knows(t)
  {
    if forall e :: e in NewEntries(w, l, t) ==> e.hash in d.headers
    then Got(HeadersOf(NewEntries(w, l, t))) else Refused
  }

  lemma {:induction false} HonestWalk(w: World, d: Daemon, unseen: set<BlockHash>, l: ListState, t: BlockHash)
    requires Valid(w, l) && w.Knows(t) && d.Honest(w)
    requires forall i :: 0 <= i < |w.ChainOf(t)| && w.ChainOf(t)[i].hash in d.headers ==> w.ChainOf(t)[i].hash in unseen
    ensures WalkBack(d.headers, unseen, l, t) == Served(w, d, l, t)
    decreases w.Len(t)
  {
    hide Lookup, Served;
    if t == NULL_HASH {
      NothingToServe(w, d, l, t);
    } else {
      KnownIffShared(w, l, t);
      if Lookup(l, t).Some? {
        NothingToServe(w, d, l, t);
      } else {
        NewEntriesBelow(w, l, t);
        w.ChainLength(t);
        ServedBelow(w, d, l, t);
        if t in d.headers {
          var below := w.ChainOf(w.headers[t].prev);
          assert w.ChainOf(t)[|below|].hash == t;
          forall i | 0 <= i < |below| && below[i].hash in d.headers
            ensures below[i].hash in unseen - {t}
          {
            assert below[i] == w.ChainOf(t)[i];
            w.OneHeight(t, i, t, |below|);
          }
          HonestWalk(w, d, unseen - {t}, l, w.headers[t].prev);
        }
      }
    }
  }

  lemma NothingToServe(w: World, d: Daemon, l: ListState, t: BlockHash)
    requires w.Valid() && w.Knows(t) && NewEntries(w, l, t) == []
    ensures Served(w, d, l, t) == Got([])
  {}

  lemma ServedBelow(w: World, d: Daemon, l: ListState, t: BlockHash)
    requires w.Valid() && t in w.headers && w.Knows(w.headers[t].prev)
    requires NewEntries(w, l, t) == NewEntries(w, l, w.headers[t].prev) + [w.Entry(t)]
    ensures Served(w, d, l, t) ==
      if t in d.headers then Below(Served(w, d, l, w.headers[t].prev), [w.headers[t]]) else Refused
  {
    hide NewEntries;
    var upper := NewEntries(w, l, w.headers[t].prev);
    assert HeadersOf(NewEntries(w, l, t)) == HeadersOf(upper) + [w.headers[t]];
    assert forall e :: e in NewEntries(w, l, t) <==> e in upper || e == w.Entry(t);
  }

  lemma KnownIffShared(w: World, l: ListState, t: BlockHash)
    requires Valid(w, l) && t in w.headers
    ensures w.Valid() && (Lookup(l, t).Some? <==> NewEntries(w, l, t) == [])
  {
    w.ChainLength(t);
    InListIffCommon(w, l, t, w.Len(t) - 1);
  }

  lemma ChainBelow(w: World, t: BlockHash)
    requires w.Valid() && t in w.headers
    ensures w.Knows(w.headers[t].prev) && w.Len(t) == |w.ChainOf(t)| == |w.ChainOf(w.headers[t].prev)| + 1
    ensures w.Len(w.headers[t].prev) < w.Len(t)
    ensures w.ChainOf(t) == w.ChainOf(w.headers[t].prev) + [w.Entry(t)]
  {
    assert w.Rooted(t);
    w.ChainLength(t);
  }

  /** One step down the chain, the fork stays where it is. */
  lemma NewEntriesBelow(w: World, l: ListState, t: BlockHash)
    requires Valid(w, l) && t in w.headers && Lookup(l, t).None?
    ensures w.Knows(w.headers[t].prev) && w.Len(w.headers[t].prev) < w.Len(t)
    ensures w.ChainOf(t) == w.ChainOf(w.headers[t].prev) + [w.Entry(t)]
    ensures NewEntries(w, l, t) == NewEntries(w, l, w.headers[t].prev) + [w.Entry(t)]
  {
    hide Lookup, World.ChainOf, CommonPrefix;
    ChainBelow(w, t);
    var below, chain := w.ChainOf(w.headers[t].prev), w.ChainOf(t);
    var n, k := CommonPrefix(l.headers, chain), CommonPrefix(l.headers, below);
    InListIffCommon(w, l, t, |below|);
    assert below[..n] == chain[..n] && below[..k] == chain[..k];
    CommonPrefixIsMax(l.headers, below, n);
    CommonPrefixIsMax(l.headers, chain, k);
  }

  predicate Anchored(hash: Header -> BlockHash, hs: seq<Header>, tip: BlockHash) {
    hs != [] && Linked(hash, hs) && hs[0].prev == NULL_HASH && hash(hs[|hs| - 1]) == tip
  }

  /** The entries of t's chain that the list does not share. */
  ghost function NewEntries(w: World, l: ListState, t: BlockHash): seq<HeaderEntry>
    requires w.Valid() && w.Knows(t)
  {
    w.ChainOf(t)[CommonPrefix(l.headers, w.ChainOf(t))..]
  }

  /** The list knows a hash of another chain exactly below the fork. */
  lemma InListIffCommon(w: World, l: ListState, t: BlockHash, i: nat)
    requires Valid(w, l) && w.Knows(t) && i < |w.ChainOf(t)|
    ensures Lookup(l, w.ChainOf(t)[i].hash).Some? <==> i < CommonPrefix(l.headers, w.ChainOf(t))
  {
    var chain := w.ChainOf(t);
    var n, h := CommonPrefix(l.headers, chain), chain[i].hash;
    if i < n {
      assert l.headers[i] == l.headers[..n][i] == chain[..n][i];
    } else if Lookup(l, h).Some? {
      var j := l.heights[h];
      w.OneHeight(l.tip, j, t, i);
      w.SharedBelow(l.tip, t, i);
      CommonPrefixIsMax(l.headers, chain, i + 1);
    }
  }

  /** A full download from an honest daemon is the chain of the tip. */
  lemma DownloadIsChain(w: World, d: Daemon, t: BlockHash)
    requires w.Valid() && w.Knows(t) && d.Honest(w) && d.Follows(w, t)
    ensures AllFetched(w.hash, d, t) == if d.ServesAll(t) then Got(HeadersOf(w.ChainOf(t))) else Refused
  {
    AllFetchedExactly(w.hash, d, t);
    if d.ServesAll(t) {
      var chain := w.ChainOf(t);
      w.ChainLength(t);
      forall i | 0 <= i < |chain|
        ensures d.Download(t)[i] == chain[i].header && w.hash(chain[i].header) == chain[i].hash
      {
        w.ChainAt(t, i);
        assert d.ServesAt(i);
      }
      assert d.Download(t) == HeadersOf(chain);
      ChainStacked(w, t);
      w.ChainLinks(t, 0);
    } else if t in d.heights {
      w.ChainLength(t);
      HonestIsWhole(w, d, t, 0);
      ByHeightIsAll(d, 0, |w.ChainOf(t)|);
    }
  }

  /** An honest daemon leaves no reply out, so a download that does not succeed
      is an error and not a panic. */
  lemma {:induction false} HonestIsWhole(w: World, d: Daemon, t: BlockHash, lo: nat)
    requires w.Valid() && w.Knows(t) && d.Honest(w) && d.Follows(w, t)
    ensures !ByHeight(d, lo, |w.ChainOf(t)|).Broken?
    decreases |w.ChainOf(t)| - lo
  {
    var total := |w.ChainOf(t)|;
    if lo < total {
      var hi := if lo + CHUNK < total then lo + CHUNK else total;
      if !d.Serves(lo, hi) {
        var i :| lo <= i < hi && !d.ServesAt(i);
        assert d.FailsAt(i);
      }
      HonestIsWhole(w, d, t, hi);
    }
  }
}

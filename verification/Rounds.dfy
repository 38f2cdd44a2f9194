/** The indexer's thread: its first sync, its polling loop, and what it leaves
    behind when it ends. */
module Rounds {
  import opened Wrappers
  import opened Chain
  import opened HeaderLists
  import opened Daemons
  import opened Syncs
  import opened Runs
  import opened AnyDaemon

  /** What the daemon does in one round: the tip it reports, if it answers at
      all, and its answers to the download. */
  datatype Round = Round(best: Option<BlockHash>, daemon: Daemon)

  /** Where the thread has got to: it is in its loop; or a panic has ended it, and
      this is the node before that round and the disk after it; or it waits for a
      download that has no end. */
  datatype Progress = Going(state: LoopState) | Ended(before: Node, round: Round, disk: Disk) | Stuck

  /** One round of the loop. */
  ghost function RoundStep(hash: Header -> BlockHash, s: LoopState, r: Round): Progress {
    if r.best.None? || r.best.value == s.tip then Going(s) else
      var f := Fetched(hash, s.node.list, r.daemon, r.best.value);
      if f.Endless? then Stuck else
        var (n, outcome) := SyncFrom(hash, s.node, f, r.best.value);
        match outcome
        case Synced => Going(LoopState(n, r.best.value))
        case TryAgain => Going(LoopState(n, s.tip))
        case DaemonFailed => Going(LoopState(n, s.tip))
        case SyncPanicked => Ended(s.node, r, n.disk)
  }

  ghost function RoundsRun(hash: Header -> BlockHash, s: LoopState, rounds: seq<Round>): Progress
    decreases |rounds|
  {
    if rounds == [] then Going(s) else
      match RoundStep(hash, s, rounds[0])
      case Going(s') => RoundsRun(hash, s', rounds[1..])
      case other => other
  }

  /** The two `unwrap`s before the loop. */
  ghost function ThreadStart(hash: Header -> BlockHash, n: Node, first: Round): Progress {
    if first.best.None? then Ended(n, first, n.disk) else
      var f := Fetched(hash, n.list, first.daemon, first.best.value);
      if f.Endless? then Stuck else
        var (n', outcome) := SyncFrom(hash, n, f, first.best.value);
        if outcome.Synced? then Going(LoopState(n', first.best.value)) else Ended(n, first, n'.disk)
  }

  ghost function ThreadRun(hash: Header -> BlockHash, n: Node, first: Round, rounds: seq<Round>): Progress {
    match ThreadStart(hash, n, first)
    case Going(s) => RoundsRun(hash, s, rounds)
    case other => other
  }

  // ---------- any daemon ----------

  /** The sync of a round that asks for something. */
  function AskOf(r: Round): Ask
    requires r.best.Some?
  {
    Ask(r.daemon, r.best.value, None)
  }

  /** The answers end, and what passes `order` is filed in the world. */
  ghost predicate Heard(w: World, n: Node, a: Ask) {
    !Delivery(w.hash, n, a).Endless? && Plausible(w, n.list, Delivery(w.hash, n, a))
  }

  ghost predicate RoundHeard(w: World, s: LoopState, r: Round) {
    r.best.Some? && r.best.value != s.tip ==> Heard(w, s.node, AskOf(r))
  }

  ghost predicate RoundsHeard(w: World, s: LoopState, rounds: seq<Round>)
    decreases |rounds|
  {
    rounds != [] ==>
      && RoundHeard(w, s, rounds[0])
      && (RoundStep(w.hash, s, rounds[0]).Going? ==> RoundsHeard(w, RoundStep(w.hash, s, rounds[0]).state, rounds[1..]))
  }

  /** In every round that is reached the answers end, and what passes `order` is
      filed in the world. */
  ghost predicate ThreadHeard(w: World, n: Node, first: Round, rounds: seq<Round>) {
    && (first.best.Some? ==> Heard(w, n, AskOf(first)))
    && (ThreadStart(w.hash, n, first).Going? ==> RoundsHeard(w, ThreadStart(w.hash, n, first).state, rounds))
  }

  /** Either the node is good, or the disk can be opened exactly when the reply for
      the last tip was fine. */
  ghost predicate EndsWell(w: World, p: Progress) {
    match p
    case Going(s) => Good(w, s.node)
    case Ended(n, r, d) =>
      && Good(w, n)
      && (Reopened(w.hash, d).Returned? <==> (r.best.Some? ==> Survives(w.hash, n, AskOf(r))))
      && (Reopened(w.hash, d).Returned? ==> Good(w, Reopened(w.hash, d).value))
    case Stuck => false
  }

  lemma RoundEndsWell(w: World, s: LoopState, r: Round)
    requires Good(w, s.node) && RoundHeard(w, s, r)
    ensures EndsWell(w, RoundStep(w.hash, s, r))
  {
    hide SyncFrom, Fetched, Survives, Good, Reopened, Plausible;
    if r.best.Some? && r.best.value != s.tip {
      AnyStepExactly(w, s.node, AskOf(r));
      var (n, outcome) := SyncFrom(w.hash, s.node, Delivery(w.hash, s.node, AskOf(r)), r.best.value);
      assert AnyStep(w.hash, s.node, AskOf(r)) == if outcome.SyncPanicked? then Reopened(w.hash, n.disk) else Returned(n);
    }
  }

  lemma StartEndsWell(w: World, n: Node, first: Round)
    requires Good(w, n) && (first.best.Some? ==> Heard(w, n, AskOf(first)))
    ensures EndsWell(w, ThreadStart(w.hash, n, first))
  {
    hide SyncFrom, Fetched, Survives, Good, Reopened, Plausible;
    if first.best.Some? {
      AnyStepExactly(w, n, AskOf(first));
      FailedKeepsDisk(w, n, AskOf(first));
    } else {
      GoodReopens(w, n);
    }
  }

  lemma GoodReopens(w: World, n: Node)
    requires Good(w, n)
    ensures Reopened(w.hash, n.disk).Returned? && Good(w, Reopened(w.hash, n.disk).value)
  {
    ReopenSound(w, n.disk);
  }

  /** Without a panic the next state is good, and so is the disk by itself. */
  lemma FailedKeepsDisk(w: World, n: Node, a: Ask)
    requires Good(w, n) && Heard(w, n, a)
    ensures var (n', outcome) := SyncFrom(w.hash, n, Delivery(w.hash, n, a), a.tip);
      !outcome.SyncPanicked? && a.writes.None? ==>
        Reopened(w.hash, n'.disk).Returned? && Good(w, Reopened(w.hash, n'.disk).value)
  {
    hide SyncFrom, Delivery, Survives, Good, Reopened, Plausible;
    AnyStepExactly(w, n, a);
    var (n', outcome) := SyncFrom(w.hash, n, Delivery(w.hash, n, a), a.tip);
    if !outcome.SyncPanicked? && a.writes.None? {
      GoodReopens(w, n');
    }
  }

  lemma {:induction false} RoundsEndWell(w: World, s: LoopState, rounds: seq<Round>)
    requires Good(w, s.node) && RoundsHeard(w, s, rounds)
    ensures EndsWell(w, RoundsRun(w.hash, s, rounds))
    decreases |rounds|
  {
    hide Good, RoundStep, RoundHeard;
    if rounds != [] {
      RoundEndsWell(w, s, rounds[0]);
      if RoundStep(w.hash, s, rounds[0]).Going? {
        RoundsEndWell(w, RoundStep(w.hash, s, rounds[0]).state, rounds[1..]);
      }
    }
  }

  /** The thread with any daemons: while it goes on the invariant holds, and if it
      ends its database opens exactly when the last reply for a tip was fine. */
  lemma ThreadEndsWell(w: World, n: Node, first: Round, rounds: seq<Round>)
    requires Good(w, n) && ThreadHeard(w, n, first, rounds)
    ensures EndsWell(w, ThreadRun(w.hash, n, first, rounds))
  {
    hide Good, ThreadStart, RoundsHeard, RoundsRun, Heard;
    StartEndsWell(w, n, first);
    if ThreadStart(w.hash, n, first).Going? {
      RoundsEndWell(w, ThreadStart(w.hash, n, first).state, rounds);
    }
  }

  /** The rounds that write nothing: without an answer, with the loop's own tip, or
      with a failed request the loop goes on as it was; an unusable delivery ends
      the thread with the disk untouched. */
  lemma QuietRounds(w: World, s: LoopState, r: Round)
    requires Good(w, s.node)
    ensures r.best.None? || r.best.value == s.tip ==> RoundStep(w.hash, s, r) == Going(s)
    ensures r.best.Some? && r.best.value != s.tip ==>
      var f := Fetched(w.hash, s.node.list, r.daemon, r.best.value);
      && (f.Endless? ==> RoundStep(w.hash, s, r) == Stuck)
      && (f.Refused? ==> RoundStep(w.hash, s, r) == Going(s))
      && (Unusable(w.hash, s.node, f) ==> RoundStep(w.hash, s, r) == Ended(s.node, r, s.node.disk))
  {
    hide SyncFrom, Fetched, Written;
    if r.best.Some? && r.best.value != s.tip {
      var f := Fetched(w.hash, s.node.list, r.daemon, r.best.value);
      if !f.Endless? {
        UnwrittenAnswers(w, s.node, f, r.best.value);
      }
    }
  }

  /** At the start all of these end the thread, with the disk untouched. */
  lemma QuietStart(w: World, n: Node, first: Round)
    requires Good(w, n)
    ensures first.best.None? ==> ThreadStart(w.hash, n, first) == Ended(n, first, n.disk)
    ensures first.best.Some? ==>
      var f := Fetched(w.hash, n.list, first.daemon, first.best.value);
      && (f.Endless? ==> ThreadStart(w.hash, n, first) == Stuck)
      && (f.Refused? || Unusable(w.hash, n, f) ==> ThreadStart(w.hash, n, first) == Ended(n, first, n.disk))
  {
    hide SyncFrom, Fetched, Written;
    if first.best.Some? {
      var f := Fetched(w.hash, n.list, first.daemon, first.best.value);
      if !f.Endless? {
        UnwrittenAnswers(w, n, f, first.best.value);
      }
    }
  }

  // ---------- honest daemons ----------

  /** The reported tip is known, and the daemon is honest about what the sync asks. */
  ghost predicate Honest(w: World, n: Node, r: Round)
    requires w.Valid()
  {
    r.best.Some? ==> r.best.value in w.headers && Serving(w, n.list, r.daemon, r.best.value)
  }

  /** The headers a round needs arrive. */
  ghost predicate Arrives(w: World, n: Node, r: Round)
    requires w.Valid() && Honest(w, n, r)
  {
    r.best.Some? && Fetches(w, n.list, r.daemon, r.best.value)
  }

  ghost predicate HonestRounds(w: World, s: LoopState, rounds: seq<Round>)
    requires w.Valid()
    decreases |rounds|
  {
    rounds != [] ==>
      && Honest(w, s.node, rounds[0])
      && (RoundStep(w.hash, s, rounds[0]).Going? ==> HonestRounds(w, RoundStep(w.hash, s, rounds[0]).state, rounds[1..]))
  }

  ghost predicate HonestThread(w: World, n: Node, first: Round, rounds: seq<Round>)
    requires w.Valid()
  {
    && Honest(w, n, first)
    && (ThreadStart(w.hash, n, first).Going? ==> HonestRounds(w, ThreadStart(w.hash, n, first).state, rounds))
  }

  /** What the round's answers amount to for a loop in state s. */
  ghost function RoundPoll(w: World, s: LoopState, r: Round): (p: Poll)
    requires w.Valid() && Honest(w, s.node, r)
    ensures p.Answer? ==> p.tip in w.headers
  {
    if r.best.None? then NoAnswer
    else Answer(r.best.value, Fetches(w, s.node.list, r.daemon, r.best.value))
  }

  /** A round with an honest daemon is the loop's step. */
  lemma HonestRound(w: World, s: LoopState, r: Round)
    requires Good(w, s.node) && Honest(w, s.node, r)
    ensures RoundHeard(w, s, r)
    ensures RoundStep(w.hash, s, r) ==
      match LoopStep(w, s, RoundPoll(w, s, r))
      case Returned(s') => Going(s')
      case Panicked => Ended(s.node, r, Sync(w, s.node, r.best.value).0.disk)
    ensures RoundStep(w.hash, s, r).Ended? ==> Arrives(w, s.node, r)
  {
    hide Sync, SyncFrom, Fetched, Fetches, Written, Plausible, Overhang, Direct, Sound;
    if r.best.Some? {
      HonestSync(w, s.node, r.daemon, r.best.value);
      SyncExact(w, s.node, r.best.value);
    }
  }

  /** The first sync of a thread with an honest daemon. */
  lemma HonestStart(w: World, n: Node, first: Round)
    requires Good(w, n) && Honest(w, n, first)
    ensures first.best.Some? ==> Heard(w, n, AskOf(first))
    ensures ThreadStart(w.hash, n, first) ==
      if !Arrives(w, n, first) then Ended(n, first, n.disk)
      else if Direct(w, n, first.best.value) then Going(LoopState(Sync(w, n, first.best.value).0, first.best.value))
      else Ended(n, first, Sync(w, n, first.best.value).0.disk)
  {
    hide Sync, SyncFrom, Fetched, Fetches, Written, Plausible, Overhang, Direct, Sound;
    if first.best.Some? {
      HonestSync(w, n, first.daemon, first.best.value);
      SyncExact(w, n, first.best.value);
    }
  }

  /** The polls of a loop that starts in state s, up to a panic. */
  ghost function PollsOf(w: World, s: LoopState, rounds: seq<Round>): (polls: seq<Poll>)
    requires w.Valid() && HonestRounds(w, s, rounds)
    ensures Polls(w, polls)
    decreases |rounds|
  {
    if rounds == [] then [] else
      var rest := match RoundStep(w.hash, s, rounds[0])
        case Going(s') => PollsOf(w, s', rounds[1..])
        case _ => [];
      [RoundPoll(w, s, rounds[0])] + rest
  }

  /** The rounds of honest daemons make up a run of the polling loop. */
  lemma {:induction false} HonestRoundsAreLoop(w: World, s: LoopState, rounds: seq<Round>)
    requires Good(w, s.node) && HonestRounds(w, s, rounds)
    ensures RoundsHeard(w, s, rounds)
    ensures LoopRun(w, s, PollsOf(w, s, rounds)) ==
      if RoundsRun(w.hash, s, rounds).Going? then Returned(RoundsRun(w.hash, s, rounds).state) else Panicked
    decreases |rounds|
  {
    hide LoopStep, RoundStep, RoundPoll, RoundHeard;
    if rounds != [] {
      HonestRound(w, s, rounds[0]);
      RoundEndsWell(w, s, rounds[0]);
      var p := RoundPoll(w, s, rounds[0]);
      if RoundStep(w.hash, s, rounds[0]).Going? {
        var s' := RoundStep(w.hash, s, rounds[0]).state;
        HonestRoundsAreLoop(w, s', rounds[1..]);
        assert ([p] + PollsOf(w, s', rounds[1..]))[1..] == PollsOf(w, s', rounds[1..]);
      } else {
        assert PollsOf(w, s, rounds) == [p];
      }
    }
  }

  /** What a thread with honest daemons leaves when a panic has ended it: the
      database opens.  If the headers of the last round arrived, which they did if
      the thread was in its loop, it opens with the chain of that round's tip, and
      the next thread that is told the same tip gets into its loop; else it is as
      it was before. */
  ghost predicate Heals(w: World, n: Node, r: Round, d: Disk)
    requires w.Valid()
  {
    && Honest(w, n, r)
    && Reopened(w.hash, d).Returned? && Good(w, Reopened(w.hash, d).value)
    && (Arrives(w, n, r) ==>
          && Reopened(w.hash, d).value.list.headers == w.ChainOf(r.best.value)
          && forall second: Round :: second.best == r.best && Honest(w, Reopened(w.hash, d).value, second) ==>
               ThreadStart(w.hash, Reopened(w.hash, d).value, second).Going?)
    && (!Arrives(w, n, r) ==> d == n.disk)
  }

  /** After a sync whose headers arrived the next thread starts. */
  lemma SyncedHeals(w: World, n: Node, r: Round)
    requires Good(w, n) && Honest(w, n, r) && Arrives(w, n, r)
    ensures Heals(w, n, r, Sync(w, n, r.best.value).0.disk)
  {
    hide Sync, Direct, ThreadStart, Overhang, Sound;
    var t := r.best.value;
    NextStartIsDirect(w, n, t);
    var n' := Reopened(w.hash, Sync(w, n, t).0.disk).value;
    forall second: Round | second.best == r.best && Honest(w, n', second)
      ensures ThreadStart(w.hash, n', second).Going?
    {
      NothingToFetch(w, n', second.daemon, t);
      HonestStart(w, n', second);
    }
  }

  lemma NothingToFetch(w: World, n: Node, d: Daemon, t: BlockHash)
    requires Good(w, n) && t in w.headers && n.list.headers == w.ChainOf(t)
    ensures Fetches(w, n.list, d, t)
  {
    w.ChainLength(t);
    CommonPrefixIsMax(n.list.headers, w.ChainOf(t), |w.ChainOf(t)|);
    assert NewEntries(w, n.list, t) == [];
  }

  lemma {:induction false} RoundsHeal(w: World, s: LoopState, rounds: seq<Round>)
    requires Good(w, s.node) && HonestRounds(w, s, rounds)
    ensures !RoundsRun(w.hash, s, rounds).Stuck?
    ensures RoundsRun(w.hash, s, rounds).Ended? ==>
      var end := RoundsRun(w.hash, s, rounds);
      end.round in rounds && Heals(w, end.before, end.round, end.disk) && Arrives(w, end.before, end.round)
    decreases |rounds|
  {
    hide LoopStep, RoundStep, RoundPoll, RoundHeard, Sync, Heals, Arrives;
    if rounds != [] {
      HonestRound(w, s, rounds[0]);
      RoundEndsWell(w, s, rounds[0]);
      var p := RoundStep(w.hash, s, rounds[0]);
      if p.Going? {
        RoundsHeal(w, p.state, rounds[1..]);
      } else {
        SyncedHeals(w, s.node, rounds[0]);
      }
    }
  }

  /** The whole thread: it is never stuck, and whatever ends it heals. */
  lemma ThreadHeals(w: World, n: Node, first: Round, rounds: seq<Round>)
    requires Good(w, n) && HonestThread(w, n, first, rounds)
    ensures ThreadHeard(w, n, first, rounds)
    ensures !ThreadRun(w.hash, n, first, rounds).Stuck?
    ensures ThreadRun(w.hash, n, first, rounds).Ended? ==>
      var end := ThreadRun(w.hash, n, first, rounds);
      && Heals(w, end.before, end.round, end.disk)
      && (ThreadStart(w.hash, n, first).Going? ==> end.round in rounds && Arrives(w, end.before, end.round))
      && (!ThreadStart(w.hash, n, first).Going? ==> end.round == first && end.before == n)
  {
    hide RoundsRun, Heals, Arrives, Sync, Heard, HonestRounds, RoundsHeard, ThreadStart, Direct, Honest;
    HonestStart(w, n, first);
    StartEndsWell(w, n, first);
    if ThreadStart(w.hash, n, first).Going? {
      RoundsHeal(w, ThreadStart(w.hash, n, first).state, rounds);
      HonestRoundsAreLoop(w, ThreadStart(w.hash, n, first).state, rounds);
    } else if Arrives(w, n, first) {
      SyncedHeals(w, n, first);
    } else {
      UntouchedHeals(w, n, first);
    }
  }

  lemma UntouchedHeals(w: World, n: Node, r: Round)
    requires Good(w, n) && Honest(w, n, r) && !Arrives(w, n, r)
    ensures Heals(w, n, r, n.disk)
  {
    hide ThreadStart;
    GoodReopens(w, n);
  }

  // ---------- tips that never get lower ----------

  /** The reported tips are known and never lower than floor or than one before. */
  ghost predicate RisingRounds(w: World, floor: nat, rounds: seq<Round>)
    requires w.Valid()
    decreases |rounds|
  {
    rounds == [] ||
    if rounds[0].best.None? then RisingRounds(w, floor, rounds[1..])
    else
      && rounds[0].best.value in w.headers && w.Len(rounds[0].best.value) >= floor
      && RisingRounds(w, w.Len(rounds[0].best.value), rounds[1..])
  }

  lemma {:induction false} CalmRounds(w: World, s: LoopState, floor: nat, rounds: seq<Round>)
    requires Good(w, s.node) && Covered(w, s.node) && |s.node.list.headers| <= floor
    requires HonestRounds(w, s, rounds) && RisingRounds(w, floor, rounds)
    ensures var end := RoundsRun(w.hash, s, rounds);
      end.Going? && Good(w, end.state.node) && Covered(w, end.state.node)
    decreases |rounds|
  {
    hide LoopStep, RoundStep, Covered;
    if rounds != [] {
      var p := RoundPoll(w, s, rounds[0]);
      var floor' := if p.Answer? then w.Len(p.tip) else floor;
      CalmStep(w, s, floor, p);
      HonestRound(w, s, rounds[0]);
      CalmRounds(w, RoundStep(w.hash, s, rounds[0]).state, floor', rounds[1..]);
    }
  }

  /** When reported tips never get lower and nothing synced stands above the
      list, a thread that gets into its loop never panics. */
  lemma CalmThread(w: World, n: Node, first: Round, rounds: seq<Round>)
    requires Good(w, n) && Covered(w, n) && HonestThread(w, n, first, rounds)
    requires RisingRounds(w, |n.list.headers|, [first] + rounds) && ThreadStart(w.hash, n, first).Going?
    ensures var end := ThreadRun(w.hash, n, first, rounds);
      end.Going? && Good(w, end.state.node) && Covered(w, end.state.node)
  {
    hide Sync, Covered, ThreadStart, HonestRounds, RoundsRun, Direct;
    HonestStart(w, n, first);
    assert ([first] + rounds)[0] == first && ([first] + rounds)[1..] == rounds;
    w.ChainLength(first.best.value);
    CalmSync(w, n, first.best.value);
    CalmRounds(w, ThreadStart(w.hash, n, first).state, w.Len(first.best.value), rounds);
  }
}

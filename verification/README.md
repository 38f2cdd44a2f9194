# Verified model of the SPV service's chain index and readers

This project models, in Dafny 4.11, the parts of the service that keep state or
decide something: the header list and its durable store, the sync that updates
both, the polling thread, the median time, the Dogecoin proof parser, the Solana
quorum reader and the response cache.  `dafny verify dfyconfig.toml` checks it.

How the parts are modelled:

- **Hashes and the daemon.**  A block hash is a 256-bit number, 0 is the null
  hash, and the hash function is a parameter.  `World` is a finite tree of
  headers, each filed under its own hash and leading down to null; it stands for
  all headers that pass the link assertions (`Runs.ToyExists` gives one of three
  headers).  It need not be given: `Growth` makes
  it out of the headers that arrive, as long as different headers have different
  hashes.  A `Daemon` value says what is answered during one call, which requests
  fail, and which replies are left out or malformed.  Downloads, syncs, runs and
  the thread are modelled for any daemon; a daemon is honest when its answers come
  from the world.
- **Panics.**  A failed assertion, `unwrap` or index is the outcome `Panicked`.
  Where the source's own assertion is proved to hold, it is a Dafny assertion.
- **Objects.**  `HeaderList`, `DB`, `ScanIterator`, `Store`, `Indexer` and
  `SimpleCache` are classes whose methods follow the source step by step.  Each
  method is proved to compute a value-level function (`Applied`, `Rebuild`,
  `Reopened`, `SyncFrom`, `Step`), and the theorems are about those functions and
  about whole runs of them.
- **The database** maps byte keys to byte values and is iterated in key order.
  `DB.log` records every state it goes through, which are the states a crash can
  leave behind.  `Represents` ties the rows to the typed `Disk`.
- **Crashes.**  A crash stops a sync after any number of its durable writes and
  loses memory; the process then opens the database again.
- **Concurrency.**  The cache is a transition system whose steps are the lock
  sections of the source, and the reader's channel is an arbitrary arrival order.

What the proofs found about the code as it stands:

- A sync panics (index in `apply`) exactly when the new chain has a header that is
  marked synced at or above the list's length and its tip is not synced
  (`Syncs.SyncExact`).  That happens after a crash between the header rows and the
  tip key (`Runs.CrashThenPanic`), and after the daemon's tip moves down and up
  again (`Runs.RollbackThenPanic`); it cannot happen without crashes while tips
  never get lower (`Runs.CalmRun`, `Runs.CalmLoop`).  With an honest daemon the
  panic always comes after the tip key is durable, so a restart heals it
  (`Runs.PanicHealsOnRestart`).
- The polling loop remembers the last tip whose sync returned Ok.  When a sync
  says "try again" the list has already moved; if the daemon then goes back to the
  remembered tip, the loop does not sync and the list stays behind
  (`Runs.LoopFollowsTip` gives the exact condition, `Runs.LoopLeftBehind` the case).
- The thread's first sync is unwrapped, so the thread ends unless that sync is
  `Syncs.Direct` (`Rounds.HonestStart`).  It is not after a crash just before the
  tip key (`Runs.CrashThenTryAgain`, from an empty database `Runs.ThreeRestart`).
  With honest daemons whatever ends the thread heals: the database it leaves opens,
  with the chain of the last tip if that tip's headers arrived, and a thread that
  is then told the same tip gets into its loop (`Rounds.ThreadHeals`).
- The daemon's reply for the requested tip is the only one that no assertion
  checks.  It is fine if it was not needed, or hashes to the tip, or the tip was
  synced before.  Over any runs of any daemons, with crashes, the database opens
  in the end exactly when every such reply was fine or came too late to be written
  (`Growth.AnyRunFromNew`); else it panics and so does every later start
  (`AnyDaemon.WrongTipReply` is an instance).
- The intersections count occurrences.  An entry that one provider repeats can be
  accepted although another lacks it, or dropped although all have it.  Counting is
  right about an entry iff nobody repeats it, or the number of providers that lack
  it is neither 0 nor the number of repetitions (`Intersection.CountingIsExact`,
  with both failures in `Intersection.RepeatedEntryMisleads`).  An entry that the
  judge has twice is accepted exactly when the counting rejects it
  (`Intersection.AcceptingIsExact`, `Intersection.RepeatedJudgeEntryMisleads`).
- An insert into a full cache evicts the smallest key even when the inserted key
  is already present (`Cache.InsertEffect`).

## Model

| member | source | states |
|---|---|---|
| Chain.World.ExtendChain | src/header.rs:172-178 | any linked run of known headers on top of a chain is exactly the chain of its last header |
| HeaderLists.HeaderList.New | src/header.rs:63-99 | the loop that removes headers from the map, and the ordering and applying after it, give the rebuilt list, or panic when a header is missing |
| HeaderLists.RebuildGivesChain | src/header.rs:77-98 | rebuilding succeeds iff no ancestor of the tip is missing, and gives the tip's chain whatever orphan branches the map also holds |
| HeaderLists.OrderNumbersChain | src/header.rs:101-139 | ordering the part of a chain above an entry of the list does not panic and assigns every header its true height |
| HeaderLists.OrderPanics | src/header.rs:112-133 | ordering panics iff two neighbours are not linked by the lower one's hash, or the first one stands neither on null nor on an entry of the list |
| HeaderLists.HeaderList.Apply | src/header.rs:141-179 | panics iff the entries are not stacked or start above the list; else, if the first one links to the entry below it or to null, cuts the list there and appends them, and if not leaves the list as it was |
| HeaderLists.ApplyKeepsValid | src/header.rs:141-179 | given any known entries the list is unchanged, or cut at the first new height and extended by the entries, and is again a chain with a working index |
| HeaderLists.ValidMeans | src/header.rs:201-210 | entry i has height i, hashes to its hash and links to entry i-1 or null; hashes are distinct; the tip is the last hash or null |
| HeaderLists.IndexAgreesWithSearch | src/header.rs:181-189 | looking a hash up finds an entry iff the hash is in the current chain, and then its true entry, despite stale index entries |
| HeaderLists.HeightLookup | src/header.rs:191-195 | looking a height up never fails its assertion and finds the chain's entry at that height |
| HeaderLists.EqualsIsEquality | src/header.rs:197-210 | comparing the last entries decides whether two lists are the same entry for entry, and the tip assertion holds |
| HeaderLists.SessionKeepsValid | src/header.rs:101-179 | the same holds after any sequence of order and apply with known headers |
| MedianTime.GetMtp | src/header.rs:225-237 | panics on an empty list, is 0 above it, and else the median of the times from height - 10 to height: at most half of them are below it and more than half are not above it |
| MedianTime.RankIsUnique | src/header.rs:231-235 | a rank has one value, which is one of the timestamps |
| MedianTime.MtpNonDecreasing | src/header.rs:225-237 | if every header is later than the median of its predecessor (BIP 113), the median never goes down with height, also while the window grows |
| Daemons.Daemon.GetAllHeaders | src/daemon.rs:258-282 | for any daemon: the value-level download, with an error for a failed request, and a panic for a reply without a height, a chunk with replies left out, or headers that are not a chain from null to the tip |
| Daemons.AllFetchedExactly | src/daemon.rs:258-282 | the full download succeeds iff everything is answered and what is served is a chain from null to the tip, and then gives that chain |
| Daemons.EmptyListFetch | src/daemon.rs:258-282 | with an empty list, without the tip's height the full download fails or panics at once; when all is served but is no chain from null to the tip it panics |
| Daemons.FirstGapDecides | src/daemon.rs:266-273 | of the chunks of 100000 the first incomplete one decides: an error if a request in it fails, else a panic |
| Daemons.Daemon.GetBlockHeaders | src/daemon.rs:234-256 | an error iff a request in the range fails; else the result is as long as the range iff no reply is left out, and then it holds the headers of the range |
| Daemons.Daemon.GetNewHeaders | src/daemon.rs:284-315 | for any daemon whose answers do not go round in a circle: the headers of the walk back from the tip to the list or to null, oldest first, an error when a request fails, a panic when a reply is left out |
| Daemons.WalkDecides | src/daemon.rs:298-314 | where the walk stops decides: at null or an entry of the list it gives the headers collected, lowest first; at a failed request an error; at a reply left out a panic |
| Daemons.HonestFetch | src/daemon.rs:298-314 | from an honest daemon the download ends, does not panic and is exactly the tip's ancestors that the list does not share; it fails iff one of them is not served |
| Daemons.EndlessIffCircular | src/daemon.rs:301-310 | the walk has no end iff the answers lead round in a set of hashes that holds neither null nor an entry of the list |
| Daemons.OnlyTipUnchecked | src/daemon.rs:301-310 | of linked replies only the newest need not hash to what was asked for; then no reply hashes to the tip |
| Daemons.InListIffCommon | src/daemon.rs:302-305 | the list finds a hash of another chain iff it lies below the fork |
| Syncs.ToAddIsSuffix | src/index.rs:49-56 | filtering out synced hashes leaves exactly the chain above its synced depth, a contiguous suffix of the new headers |
| Syncs.DurableSound | src/index.rs:31-36 | after any number of a sync's writes header rows and done rows are for the same true headers, closed under predecessors, and include the stored tip, which is the old one until the last write |
| Syncs.ChunkedExactly | src/index.rs:34-36 | after each chunk 25000 headers more, counted from the lowest, are on disk |
| Syncs.CrashConsistent | src/index.rs:67-68 | a crash after any number of writes leaves a database that opens, with the chain of the old tip or of the new one |
| Syncs.ReopenSound | src/store.rs:314-337 | opening a sound database never panics and restores the invariant |
| Syncs.SyncExact | src/index.rs:58-85 | exact outcome of a sync in every state that runs and crashes produce: it panics iff unsynced headers hang on a synced one above the list, returns Ok iff nothing but the list lies below them, else "try again"; without a panic the list is the chain of the tip |
| Runs.RunStaysGood | src/main.rs:264-285 | over any run of syncs, daemon failures, crashes and restarts the invariant holds and the database can always be opened |
| Runs.RunFromNew | src/store.rs:314-337 | so it is for every run that starts from an empty database |
| Runs.RebuildRefinesIncremental | src/store.rs:340-379 | rebuilding from disk gives the same entries, tip and synced set as the step-by-step list, and the same answer to every lookup |
| Runs.SecondCallSettles | src/index.rs:74-84 | a second sync with the same tip returns Ok and changes nothing |
| Runs.PanicHealsOnRestart | src/index.rs:68-71 | after a panic in apply a restart has the requested chain, and the call then succeeds |
| Runs.CalmRun | src/index.rs:58-85 | without crashes and with tips that never get lower no sync panics, through extensions, reorganisations and returns to abandoned branches, and the list follows the last tip |
| Runs.CalmFromNew | src/index.rs:58-85 | so it is for every such run from an empty database |
| Runs.CalmLoop | src/main.rs:264-285 | the polling loop never panics while the polled tips that it can fetch never get lower, whatever it skips, misses and retries |
| Runs.RollbackThenPanic | src/header.rs:153-154 | a tip that falls back to a synced ancestor and then rises above the old tip makes the sync panic |
| Runs.CrashThenPanic | src/header.rs:153-154 | a crash after the header rows and before the tip key makes every unsynced descendant panic after the restart |
| Runs.CrashThenTryAgain | src/index.rs:74-84 | after the same crash the first sync to the tip itself says "try again" |
| Runs.NextStartIsDirect | src/index.rs:67-85 | whatever a sync comes to, the database it leaves opens with the tip's chain, and the next first sync to that tip is Ok |
| Runs.ThreeCrash | src/header.rs:153-154 | a concrete instance of the crash, from an empty database |
| Runs.ThreeRollback | src/header.rs:153-154 | a concrete instance of the rollback: tips 2, 1, 3 |
| Runs.ThreeRestart | src/main.rs:261-262 | a concrete instance of a restart whose first sync says "try again", from an empty database |
| Runs.LoopFollowsTip | src/main.rs:274-285 | a poll whose headers arrive leaves the list at the polled tip iff the poll is not skipped while the list is elsewhere; it panics iff it is not skipped and the sync panics |
| Runs.LoopSettles | src/main.rs:274-285 | two polls of one tip leave loop and list at that tip |
| Runs.LoopLeftBehind | src/main.rs:274-279 | going to another synced header and straight back leaves the list behind the loop's tip |
| Runs.ThreePolls | src/main.rs:274-279 | a concrete instance: after 2, the polls 1 and 2 |
| Database.DB.Write | src/store.rs:152-172 | one atomic batch: every written key has one of its written values, all else is as before |
| Database.ScanIterator.Next | src/store.rs:34-51 | yields the rows with the prefix one by one and then only None |
| Database.ScanIsComplete | src/store.rs:121-127 | stopping at the first key without the prefix loses nothing: exactly the rows with the prefix, in key order |
| KeyOrder.PrefixContiguous | src/store.rs:42-45 | past the first key at or after the prefix that lacks it, no key has it |
| KeyOrder.BelowIsLexicographic | src/utils.rs:99-106 | keys are ordered byte by byte, a proper prefix first |
| Stores.AddSyncHeaders | src/store.rs:410-419 | a header row and a done row for each header, side by side |
| Stores.RowsSplit | src/index.rs:33-36 | a cut at an even number of rows never separates a header's two rows |
| Stores.WriteRepresents | src/store.rs:392-419 | writing the rows of some headers gives a database that reads as the old one with those headers added |
| Stores.RowBytes | src/store.rs:255-276 | the bytes on disk: `b` and the hash give the 80-byte header, `D` and the hash mark it as done, `t` gives the tip's hash |
| Stores.LoadBlockhashes | src/store.rs:392-397 | the done rows read back exactly the done set |
| Stores.LoadSyncBlockheaders | src/store.rs:399-408 | the header rows read back exactly the header map |
| Stores.Store.Open | src/store.rs:314-337 | the store after opening is the reopened node; it panics iff rebuilding does or the bytes stored under `V` are not 2, 0, 0, 0; if nothing is stored there it stores them |
| Stores.Store.ReloadStore | src/store.rs:340-379 | memory is replaced by the reopened node |
| Indexers.Indexer.AddSyncBlockHeader | src/index.rs:31-47 | the database goes through exactly the chunked states, and the synced set grows only after them |
| Indexers.Indexer.SyncHeaders | src/index.rs:58-85 | the whole sync over the byte-level store, whatever the daemon answers: state and outcome are those of the value-level sync, and the database goes through exactly its durable states |
| AnyDaemon.HonestSync | src/index.rs:62-67 | with an honest daemon that sync is the one to the tip's chain, and it fails iff a needed request fails |
| AnyDaemon.OrderedIsUpper | src/header.rs:101-139 | headers that pass `order` are exactly the upper part of the chain of the last one, and everything below them is in the list |
| AnyDaemon.UnwrittenAnswers | src/index.rs:62-63 | a sync answers that the daemon failed iff a request failed; if an assertion of the download or of `order` fails it panics; in both cases node and disk are untouched, and in no other case is nothing written |
| AnyDaemon.OpenableExactly | src/index.rs:58-85 | after a sync with any daemon whose headers pass `order` the database opens, and is sound, iff nothing was downloaded, the newest header hashes to the tip, or the tip was synced before; else the sync panics |
| AnyDaemon.ReceivedExactly | src/index.rs:58-85 | that sync panics iff the tip's reply is not fine or the newest header's chain overhangs the list; without a panic the invariant holds and the list is at the tip |
| AnyDaemon.AnyStepExactly | src/index.rs:58-85 | a sync with any daemon, stopped after any number of writes or not: the restart succeeds, with the invariant, iff the tip's reply was fine or was not yet written |
| AnyDaemon.AnyRunExactly | src/index.rs:58-85 | the same for whole runs of syncs, crashes and restarts with any daemons |
| AnyDaemon.HonestAsk | src/index.rs:58-85 | with an honest daemon these steps are the calls, failures and crashes of the other runs |
| Growth.DeliveryFiled | src/header.rs:101-139 | whatever any daemon delivers, what passes `order` is filed in some larger world, unless two headers share a hash |
| Growth.AnyRunFromNew | src/index.rs:58-85 | the same from an empty database with nothing assumed but that different headers have different hashes |
| Growth.ThreadFiled | src/header.rs:101-139 | what a thread with any daemons hears is filed in some larger world, so that only endless downloads and hash collisions are excluded |
| AnyDaemon.WrongTipReply | src/daemon.rs:305-309 | a concrete instance of a tip reply that leaves a database that cannot be opened |
| Indexers.Restart | src/store.rs:314-337 | opening the rows left by a crash anywhere in a sync succeeds and gives the old or the new tip's chain |
| Indexers.PollOnce | src/main.rs:264-286 | one round of the loop with any daemon: state and tip afterwards, or the disk at the panic, are those of the value-level round |
| Indexers.StartIndexer | src/main.rs:252-289 | the thread with any daemons: its final state and tip, or the disk it leaves when a panic ends it, are those of the value-level thread |
| Rounds.ThreadEndsWell | src/main.rs:252-289 | with any daemons the invariant holds while the thread goes on; if it ends, its database opens iff the last tip's reply was fine |
| Rounds.QuietRounds | src/main.rs:264-286 | without an answer, with its own tip or with a failed request the loop goes on as it was; headers that fail an assertion end the thread with the disk untouched |
| Rounds.QuietStart | src/main.rs:261-262 | at the start no answer, a failed request and a failed assertion all end the thread with the disk untouched |
| Rounds.HonestStart | src/main.rs:261-262 | the first sync gets the thread into its loop iff its headers arrive and nothing but the list stands below them; else the disk is as the sync left it, or untouched |
| Rounds.HonestRoundsAreLoop | src/main.rs:264-286 | rounds with honest daemons make up a run of the polling loop |
| Rounds.ThreadHeals | src/main.rs:252-289 | what an honest thread leaves behind opens; if the last headers arrived, which they did if it was in its loop, it opens with that tip's chain and the next thread told the same tip gets into its loop |
| Rounds.CalmThread | src/main.rs:264-286 | a thread that gets into its loop never panics while reported tips never get lower |
| AuxPow.ParseProof | src/daemon.rs:402-442 | the parser with its two skipping loops returns the header and the tree of the proof read; on short input it fails, and with an even byte 1 the tree is read from byte 80 on |
| AuxPow.VersionBit | src/daemon.rs:409-411 | the merged-mining block is there iff the lowest bit of byte 1 is set |
| AuxPow.PlainLayout | src/daemon.rs:409-442 | without it the tree is read from byte 80 on |
| AuxPow.MergedLayout | src/daemon.rs:411-440 | with it the tree is read after the coinbase, 32 bytes, two branches of a CompactSize n, 32 n bytes and 4 bytes, and 80 bytes of parent header |
| AuxPow.ReadsBackProof | src/daemon.rs:402-442 | parsing the encoding of any header, merged-mining block and tree gives them back, whatever bytes follow |
| AuxPow.ReadProofIsExact | src/daemon.rs:402-442 | every accepted input is the encoding of what was read from it |
| AuxPow.HeaderParsersAgree | src/daemon.rs:380-391 | the truncating parser fails iff the input is short, and returns the header of every proof parsed from the same bytes |
| Codec.ReadsBackHeader | src/store.rs:255-263 | reading undoes writing for the 80-byte header |
| Codec.HeaderLayout | src/store.rs:261 | version, previous hash, Merkle root, time, bits and nonce stand at bytes 0, 4, 36, 68, 72 and 76 |
| Bytes.LEDigits | src/utils.rs:63-72 | byte i of a number's encoding is its i-th digit in base 256 |
| Codec.ReadsBackCompact | src/daemon.rs:418-419 | reading undoes writing for CompactSize |
| Codec.CompactLayout | src/daemon.rs:418-419 | below 253 the first byte is the number; 253, 254 and 255 announce two, four and eight bytes, lowest first, which are refused when fewer would do |
| Quorum.CountVotes | src/chains/sol.rs:1103-1110 | in any iteration order the counts are the candidates' votes and sum to the number of replies |
| Quorum.DealVotes | src/chains/sol.rs:1103-1130 | Ok(v) iff v has strictly more votes than everything else; an error on a tie at the top or no votes |
| Quorum.TwoBeatSingles | src/chains/sol.rs:1112-1127 | the most votes need not be most of the votes: two equal answers win against any number of others that all differ |
| Quorum.TiesDoNotWin | src/chains/sol.rs:1112-1118 | an answer that another one equals in number does not win |
| Quorum.FewDeviantsLose | src/chains/sol.rs:1132-1159 | of 2f+1 answers at most f differ from x: x wins |
| Quorum.OddNeverTies | src/chains/sol.rs:150-158 | an odd number of voters with at most two answers never tie |
| Quorum.Worker | src/chains/sol.rs:499-538 | exactly one reply after one to three tries: the first success, or an error when the third fails |
| Quorum.Collect | src/chains/sol.rs:868-950 | with one reply per worker exactly one response in any arrival order: Ok(v) iff all answered, v is the plurality and the clock did not run out before the last reply; a time-out iff it ran out before that and before any error; an internal error iff an error came first |
| Quorum.ArrivalOrderIsIrrelevant | src/chains/sol.rs:877-937 | two arrival orders of the same replies decide the same value |
| Quorum.QuorumDecides | src/chains/sol.rs:901-919 | with 2f+1 answering workers and at most f deviating from x every arrival order decides exactly x |
| Quorum.GetTransaction | src/chains/sol.rs:1510-1578 | returns a value iff it is both the judge's and the vote and the clock did not run out; says when it times out |
| Quorum.GetSlot | src/chains/sol.rs:1451-1508 | returns the judge's slot iff it is not above the vote and the clock did not run out; says when it times out |
| Quorum.ReadTransaction | src/chains/sol.rs:1510-1578 | workers, collector, vote and judge together depend on the answers and the clock only: the value is returned iff all answer in time, it is the plurality and the judge says it |
| Quorum.ReadSlot | src/chains/sol.rs:1451-1508 | the same for slots: the judge's slot is returned iff all answer, it is not above the plurality and the clock did not run out |
| Quorum.OnlyQuorumValue | src/chains/sol.rs:1554-1564 | end to end, x is the only value that can be returned when at most f of 2f+1 answering workers deviate from it |
| Quorum.CheckUrls | src/chains/sol.rs:149-158 | accepts iff the override is set or the number of different URLs is 2f+1 with f at least 1 |
| Intersection.DealLists | src/chains/sol.rs:1161-1182 | for any lists and iteration order: no repetitions, and exactly the entries that occur as often as there are lists |
| Intersection.CountBalance | src/chains/sol.rs:1164-1178 | occurrences plus providers that lack the entry are the providers plus the repetitions |
| Intersection.CountingIsExact | src/chains/sol.rs:1164-1178 | for any lists, the counting agrees with "all providers have it" iff nobody repeats the entry or the number of providers lacking it is neither 0 nor the number of repetitions |
| Intersection.CountingIsIntersection | src/chains/sol.rs:1046-1070 | when no list repeats an entry the counting finds exactly the entries that all lists have |
| Intersection.AcceptingIsExact | src/chains/sol.rs:1353-1367 | for any judge's list and lists, an entry is accepted iff judge and all providers have it, exactly under a condition by how often the judge has it |
| Intersection.TwiceInJudgeOrder | src/chains/sol.rs:1353-1367 | for any judge's list, what is counted twice comes in the order in which the judge first has it, and nothing is accepted that the judge lacks |
| Intersection.KeptInOrder | src/chains/sol.rs:1356-1367 | the accepted entries come once each, in the order in which the judge first has them |
| Intersection.AcceptedIsCommon | src/chains/sol.rs:1353-1367 | without repetitions the accepted entries are the judge's list, in its order, cut down to what every provider has |
| Intersection.GetSignatures | src/chains/sol.rs:1350-1370 | for any lists: the judge's head, then exactly the accepted ones of the others, each once, in the judge's order |
| Intersection.GetProgramAccounts | src/chains/sol.rs:1240-1261 | for any lists: exactly the accepted entries, as a set |
| Intersection.RepeatedEntryMisleads | src/chains/sol.rs:1164-1178 | one provider repeats an entry: it passes although the other lacks it, and is dropped although the other has it |
| Intersection.RepeatedJudgeEntryMisleads | src/chains/sol.rs:1357-1365 | an entry that the judge has twice passes although no provider has it, and is dropped when all have it once |
| ListReaders.CollectLists | src/chains/sol.rs:678-772 | with one reply per worker exactly one response in any arrival order: Ok iff all answered in time, and then what all their lists amount to; a time-out and an internal error as in the collector of votes |
| ListReaders.ReadSignatures | src/chains/sol.rs:1275-1382 | workers, collector, intersection and judge together depend on the answers and the clock only: nothing for an empty judge's list, else its head and then the accepted entries in the judge's order |
| ListReaders.ReadProgramAccounts | src/chains/sol.rs:1195-1273 | the same for program accounts, as a set |
| Cache.BoundedSubMap | src/utils.rs:99-142 | over any operations the cache stays within max(size, 1) entries, each the last value stored for its key in an unbounded map |
| Cache.InsertEffect | src/utils.rs:99-110 | an insert is visible at once, and another key is lost iff the map was full and it was the smallest |
| Cache.InsertEvictsFirst | src/utils.rs:102-106 | the lost key in plain terms: the first of the full map's keys, byte by byte, a proper prefix coming before what it is a prefix of |
| Cache.OtherEffects | src/utils.rs:126-142 | a write changes the value of a present key, a removal takes the key away, and neither touches any other |
| Cache.FirstOfTwoGoes | src/utils.rs:102-106 | a concrete instance: with room for two, 3 drives out 1 and not 2 |
| Cache.SimpleCache.Insert | src/utils.rs:99-110 | contents after an insert |
| Cache.SimpleCache.Get | src/utils.rs:113-122 | the value of the key or nothing |
| Cache.SimpleCache.Write | src/utils.rs:126-135 | an update in place of a present key only |
| Cache.SimpleCache.Remove | src/utils.rs:138-142 | contents after a removal |
| Linearizability.ViewStep | src/utils.rs:99-142 | every step of every thread either leaves the cache's contents alone or does what the sequential operation does |
| Linearizability.CellStaysTracked | src/utils.rs:113-135 | a cell cut off from the map keeps the value its key had just before, because it can no longer be written |
| Linearizability.GetIsLinearizable | src/utils.rs:113-122 | in every interleaving a get returns a value or absence that its key had between the get's start and end |
| Linearizability.RunIsSequential | src/utils.rs:99-142 | at each moment of every interleaving the cache holds what the operations completed so far leave in the sequential cache |
| Linearizability.RunIsLinearizable | src/utils.rs:99-142 | so under concurrent use the bound and the last stored values hold too, and every get returns what the sequential cache holds at some moment between its start and end |

## Left out

- HTTP and JSON-RPC transport, routing, signing, logging and command-line parsing; sealing and unsealing stored values is the identity.
- `sync_headers_with_api_check` and `api_check`, whose check is unfinished.
- The batching of daemon requests into groups of 10000 and the matching of reply numbers.
- Hex decoding in front of the byte parsers; the formats of transactions and partial Merkle trees are parameters with a round-trip hypothesis.
- RocksDB itself: compaction, options and the reverse iterator. `DB.log` also records writes without a sync, so it allows more crash states than a durable store has.
- Lock poisoning: a panic in the indexer thread is followed by a restart.
- Rust's `usize` and `u64` bounds, which heights, counts and slots do not reach.
- `serde_json` text: votes and intersections compare values, so serialisation is taken to be injective and to round-trip.
- The account-info reader, whose error path sends a response of another kind.
- Indexers.StartIndexer: the endless loop is modelled for any finite number of rounds; a round whose download has no end is excluded, because the source then waits for ever (`Progress.Stuck`).
- Daemons.Daemon.GetNewHeaders: a daemon whose answers go round in a circle makes the source's loop endless; that case is excluded, and EndlessIffCircular says when it arises. A daemon gives one answer for one hash during a call.
- Indexers.Indexer.SyncHeaders: headers that pass the link assertions are filed in the world, which Growth.DeliveryFiled shows to exclude hash collisions only.
- Daemons.Daemon.GetAllHeaders: replies beyond the number of requests, which can make up for replies left out.
- Quorum.Collect: the clock is an arbitrary flag per reply; with fewer replies than workers the source waits forever, which is the empty result.
- Fairness and deadlock freedom of the cache's locks.

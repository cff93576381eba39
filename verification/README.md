# Verified models of the node's algorithmic kernels

This project models the self-contained algorithms of a Bitcoin node in Dafny and proves what they
promise: the layered UTXO cache, the address manager, the block assembler, the parallel check queue,
partial Merkle trees, the block index with its skip list, 256-bit arithmetic with compact targets, the Bech32 and Base58
codecs, Golomb-coded block filters, the rolling bloom filter and the cuckoo cache.

`dafny verify dfyconfig.toml` checks everything. There is one module per file; `Numbers`, `Limbs` and
`Wrappers` hold what several of them share.

How the models are built:

- Code that updates objects in place is a class or a method with loops. Each is proved against a
  specification on values (maps, sequences, states), and the theorems are about those values.
- Integers are unbounded. Where the width matters it is written out: limbs, 64-bit intermediates, the
  2^256 modulus, 32-bit hashes scaled to a range.
- Hashes, clocks and random draws are parameters. Collision freedom is assumed only where a statement
  says so.
- `Coins`: a stack is a chain of cache objects over one database object; the plain map it is compared
  with is the map of unspent coins.
- `AddrMan`: an empty table slot (-1 in the code) is an absent key; service flags are the set of bits
  that are on; the clock does not move during one call.
- `Mempools`, `PackageCache`, `PackageFees`, `PackageScore`, `PackageSelection`, `Miner`: the mempool is a finite graph with
  ancestor sets and totals. Runs of the selection are states of the cache with its history; what is proved
  of the cache holds for any scoring; `PackageSelection` is the rule of the selection, its end included, and
  the assembler is shown to follow it.
- `AddrManEffects` says what the operations of `AddrMan` do, over the states before and after.
- `CheckQueue`: a step is one critical section or one check; threads interleave freely and may wake
  without notice.
- `MerkleBlock`: the recursion over (height, position) is mirrored by an explicit tree of the same shape;
  `MerkleProofs` is about the partial trees that an extraction accepts.
- `LinearCode`, `Bech32`, `Bloom` and `Base58` state their theorems for any words, codes or alphabets
  that satisfy a few laws; `PolyMod.CodeLawful`, `Bloom.Words64Lawful` and `Base58.AlphabetLawful` prove
  the laws for the repository's own ones. `Syndromes` and `Bech32Errors` do so for scattered errors, and
  `Bech32Roots.RootsLawful` proves the laws for the Bech32 generator.
- `Base58`: a string is what precedes its first NUL, as both decoders read a C string.
- `Cuckoo`: the three parallel arrays are one array of slots; the packed flags are modelled separately
  and shown to behave like separate ones.
- `BlockFilter`: a stream is the list of its bits.

Where the code and its documentation or the obvious expectation differ, the code is followed:

- `src/merkleblock.h` promises at most 2 N - 1 bits for N hashes. That fails for three ids with only the
  last one matched (`MerkleBlock.BitBoundCanFail`); `MerkleBlock.BitBoundExactlyWhenPaired` says when it holds.
- The cached fees of a package drift when ancestors of it are prioritised, because the first included
  ancestor is subtracted by modified fee and later ones by plain fee (`PackageScore.CachedFeesCanDrift`).
  `PackageFees.UnfailedFeesExactlyWhen` and `PackageFees.FailedFeesExactlyWhen` say exactly when they do not.
  Cached sizes and sigop totals are never too low.
- A block filter whose 64-bit sums wrap around can match what it does not hold
  (`BlockFilter.OverflowCanMatch`); `BlockFilter.HitMeansMemberExactlyWhen` says exactly when a match means
  membership. Filters the code builds never wrap, and nothing is ever missed.
- `CCoinsViewCache::AddCoin` lowers its usage counter before it throws (`Coins.CoinsViewCache.AddCoin`).
- `operator/=` clears the number before it reports a zero divisor (`Arith.BaseUint.DivAssign`).
- The cuckoo cache means never to move the element it has just put in. It does where two consecutive slots of
  the next element coincide (`Cuckoo.TakenOutAgain`); `Cuckoo.DisplaceTakesAnother` says exactly when. And a
  chain starts at the second slot of its element, not the first.
- `LastCommonAncestor` gives null, without failing its assertion, for blocks of two separate trees.

## Model

| member | source | states |
|---|---|---|
| `Coins.Put` | src/coins.h:103-120 | Writing an entry keeps a layer coherent with the view below exactly when the entry itself obeys the two flag rules (FRESH means nothing unspent below, not DIRTY means equal to what is below), and changes the visible coins at that one outpoint only |
| `Coins.Fetched` | src/coins.cpp:41-56 | Caching a coin read from below changes no visible coin, keeps both flag rules and adds exactly its usage |
| `Coins.Added` | src/coins.cpp:67-86 | Under the promise of the caller an added coin becomes the visible coin at its outpoint, nothing else changes, both flag rules survive and the usage counter stays the sum of entry usages |
| `Coins.AddKeepsFlagsExactlyWhenPromised` | src/coins.h:246-250 | When AddCoin does not throw, the flag rules survive if and only if overwriting was announced or no unspent coin was visible there |
| `Coins.Spent` | src/coins.cpp:99-113 | Spending erases a FRESH entry or leaves a DIRTY spent one, and in both cases removes exactly that coin from the view |
| `Coins.Dropped` | src/coins.cpp:211-218 | Dropping an entry without flags changes no visible coin |
| `Coins.MergeKeepsView` | src/coins.cpp:146-202 | Merging a child into its parent, entry by entry by the four flag cases, makes the parent show exactly what the child showed, with both flag rules kept in the parent |
| `Coins.CoherentHasNoMisapplied` | src/coins.cpp:170-178 | A child that obeys the flag rules never triggers the misapplied-FRESH exception |
| `Coins.MergeOne` | src/coins.cpp:149-196 | One merged entry: fails exactly for a dirty FRESH child entry over an unspent parent coin; keeps the usage counter exact either way |
| `Coins.MergeChild` | src/coins.cpp:146-202 | The loop over the child map, in any order, gives the merge of the two maps or fails exactly when some child entry is misapplied |
| `Coins.WriteDirtyIsOverlay` | src/txdb.cpp:83-122 | Writing only the dirty entries to the database, erasing the spent ones, gives the view of the cache over the database, and never stores a spent coin |
| `Coins.CoinsViewDB.BatchWrite` | src/txdb.cpp:83-122 | The loop over the map leaves the database as the dirty entries say, with the new best block |
| `Coins.CoinsViewCache.constructor` | src/coins.cpp:35 | A new layer on any valid stack shows what the layer below shows |
| `Coins.CoinsViewCache.FetchCoin` | src/coins.cpp:41-56 | Changes no view in the whole stack; a miss means that no coin is visible, and a coin fetched from below is cached without flags |
| `Coins.CoinsViewCache.GetCoin` | src/coins.cpp:58-65 | Found exactly when the coin is in the view, and then it is that unspent coin; no view changes |
| `Coins.CoinsViewCache.AccessCoin` | src/coins.cpp:117-124 | The coin of the view, or a spent one if there is none; no view changes |
| `Coins.CoinsViewCache.HaveCoin` | src/coins.cpp:126-129 | Exactly whether the coin is in the view; no view changes |
| `Coins.CoinsViewCache.HaveCoinInCache` | src/coins.cpp:131-134 | Never claims a coin that is not in the view, and is exact for cached outpoints |
| `Coins.CoinsViewCache.AddCoin` | src/coins.cpp:67-86 | Throws exactly for a cached unspent coin added without overwrite (having already lowered the usage counter); under the promise it never throws and the top view changes as the plain map does, every layer below unchanged |
| `Coins.CoinsViewCache.SpendCoin` | src/coins.cpp:99-113 | The top view loses exactly that coin, every layer below unchanged; the coin moved out is the one that was visible; a FRESH entry is erased, any other left DIRTY and spent, and no other entry changes |
| `Coins.CoinsViewCache.Uncache` | src/coins.cpp:211-218 | No view changes; drops exactly an entry without flags |
| `Coins.CoinsViewCache.GetBestBlock` | src/coins.cpp:136-140 | The best block of the view, fetched from below if unknown; no view changes |
| `Coins.CoinsViewCache.SetBestBlock` | src/coins.cpp:142-144 | Sets the best block of the top view only |
| `Coins.CoinsViewCache.BatchWrite` | src/coins.cpp:146-202 | Succeeds exactly when no entry is misapplied, and then holds the merge of the two maps; for a coherent child this layer then shows what the child showed |
| `Coins.CoinsViewCache.Flush` | src/coins.cpp:204-209 | Changes no visible coin of the top, makes the layer below show exactly what the top showed, empties the cache and keeps every layer valid |
| `Coins.CoinsViewCache.Run` | src/coins.cpp:41-218 | For any stack and any sequence of reads, adds, spends, uncaches and flushes on the top layer that keeps the promise of AddCoin, the top view ends as the plain map under the same adds and spends, and every layer stays valid |
| `Coins.AddCoins` | src/coins.cpp:88-97 | All spendable outputs of a transaction become visible, and nothing else changes |
| `AddrMan.SwapKeeps` | src/addrman.cpp:93-111 | Swapping two ids keeps list and entries mutually inverse and nothing else moves |
| `AddrMan.DeleteKeeps` | src/addrman.cpp:113-125 | Deleting an entry that is in neither table keeps all links between maps, tables and list |
| `AddrMan.ClearNewKeeps` | src/addrman.cpp:127-140 | Clearing a slot of the new table keeps reference counts equal to the slots held, deletes an entry exactly with its last reference, and keeps the counters |
| `AddrMan.MakeTriedKeeps` | src/addrman.cpp:142-188 | Moving an entry to the tried table, with an eviction back to the new table, keeps all links and counters, and every assertion on the way holds |
| `AddrMan.MakeTriedEffect` | src/addrman.cpp:142-188 | Afterwards the tried slot of the entry holds it, no other tried slot changed, and no occupied slot became empty |
| `AddrMan.GoodKeeps` | src/addrman.cpp:190-254 | A good connection keeps the whole invariant; without the test no collision is added |
| `AddrMan.GoodTries` | src/addrman.cpp:190-254 | Without the test, a live entry reported good ends in its own tried slot |
| `AddrMan.AddKeeps` | src/addrman.cpp:256-327 | An announcement keeps the whole invariant and touches no tried slot |
| `AddrMan.AnnotateKeeps` | src/addrman.cpp:329-349 | Attempt, Connected and SetServices keep the whole invariant |
| `AddrMan.ResolveOneKeeps` | src/addrman.cpp:535-592 | Settling one collision keeps the whole invariant and adds no collision |
| `AddrMan.ResolveOneOutcome` | src/addrman.cpp:535-592 | An id stays a collision exactly when it is judged to wait; one that moves ends in its own tried slot; otherwise no entry and no slot changes |
| `AddrMan.CollisionFacesEntry` | src/addrman.cpp:594-619 | A live waiting id always faces an occupied tried slot with a tried entry in it |
| `AddrMan.ApplyKeeps` | src/addrman.cpp:81-592 | Every operation keeps every consistency condition, and never frees a tried slot or reuses an id |
| `AddrMan.EmptyHolds` | src/addrman.h:456-478 | A new manager satisfies the invariant |
| `AddrMan.RunKeeps` | src/addrman.cpp:81-592 | Every state of every run from construction satisfies the invariant |
| `AddrMan.RunEvolves` | src/addrman.cpp:81-592 | Over any run an occupied tried slot stays occupied and an id always means the same service |
| `AddrMan.InvPassesCheck` | src/addrman.cpp:399-473 | The invariant implies the eighteen conditions of the debug check on tables, counters and entries |
| `AddrMan.GatheredHas` | src/addrman.cpp:476-495 | The gathered addresses are exactly those of the drawn entries that are not terrible |
| `AddrMan.GatheredDistinct` | src/addrman.cpp:476-495 | No service is gathered twice |
| `AddrMan.Factor` | src/addrman.cpp:293-295 | The doubling loop gives two to the power of the reference count |
| `AddrMan.AnnouncedMeans` | src/addrman.cpp:271-278 | An announcement replaces the time of a known entry only as news of more than an hour and never moves a time back; afterwards the entry is at most an hour (a day for an old announcement) and the penalty behind it, services are only added, nothing else changes, and the same announcement again changes nothing |
| `AddrMan.WantsAnother` | src/addrman.cpp:280-297 | A known entry gets another reference exactly when none of the four exits applies to it |
| `AddrMan.Manager.constructor` | src/addrman.h:456-478 | Starts in the empty state |
| `AddrMan.Manager.SwapRandom_` | src/addrman.cpp:93-111 | Exchanges two places of the permuted list together with the positions recorded in the entries |
| `AddrMan.Manager.Delete_` | src/addrman.cpp:113-125 | Removes an entry from all three structures; its preconditions are the assertions of the code |
| `AddrMan.Manager.ClearNew_` | src/addrman.cpp:127-140 | Takes a reference from whatever is in the slot, deleting it with the last one |
| `AddrMan.Manager.RemoveFromNew` | src/addrman.cpp:144-154 | The loop over all buckets removes every reference and ends with the asserted count of zero |
| `AddrMan.Manager.Evict_` | src/addrman.cpp:161-182 | Moves the occupant of a tried slot to its slot of the new table, which is cleared first |
| `AddrMan.Manager.MakeTried_` | src/addrman.cpp:142-188 | Moves an entry from the new to the tried table |
| `AddrMan.Manager.FindBucket` | src/addrman.cpp:219-234 | Some bucket always holds an entry of the new table, so the exit for a missing one is never taken |
| `AddrMan.Manager.Good_` | src/addrman.cpp:190-254 | The operation as specified, with the invariant kept |
| `AddrMan.Manager.Place_` | src/addrman.cpp:305-325 | Puts an entry in the slot for its source, yields to an occupant that may stay, and deletes an entry left without reference |
| `AddrMan.Manager.Add_` | src/addrman.cpp:256-327 | The operation as specified, with the invariant kept |
| `AddrMan.Manager.Attempt_` | src/addrman.cpp:329-349 | Notes a try for exactly this service, counting a failure only after a later success elsewhere |
| `AddrMan.Manager.Connected_` | src/addrman.cpp:497-515 | Moves the time on when it is more than twenty minutes old |
| `AddrMan.Manager.SetServices_` | src/addrman.cpp:517-533 | Replaces the services of exactly this service |
| `AddrMan.Manager.GetAddr_` | src/addrman.cpp:476-495 | Draws without replacement at most 2500 addresses and at most 23 percent of the list, stopping early only when the list is used up; the list ends as the draws made leave it |
| `AddrMan.Manager.Settle_` | src/addrman.cpp:540-582 | Settles one collision as ResolveOne does; the five Resolve lemmas of AddrManEffects say what that is, over the states before and after |
| `AddrMan.Manager.ResolveCollisions_` | src/addrman.cpp:535-592 | Settles every waiting id, in ascending order, keeping the invariant |
| `AddrMan.Manager.SelectTriedCollision_` | src/addrman.cpp:594-619 | Gives the tried entry that a drawn live id faces, never looking up a missing id; forgets a dead one |
| `AddrManEffects.TablesDecide` | src/addrman.cpp:399-473 | There are exactly the entries that the tables refer to, in the table they say, with as many references as slots |
| `AddrManEffects.MakeTriedTables` | src/addrman.cpp:142-188 | The slots after a move to the tried table: the entry in its own one and in no new slot, the one it met in the new slot for its own source; nothing recorded about any entry changes |
| `AddrManEffects.GoodUnknown` | src/addrman.cpp:190-206 | For a service that is not known only the time of the last success is noted |
| `AddrManEffects.GoodStays` | src/addrman.cpp:208-217 | A tried entry is marked as just successful and stays where it is; nothing else changes |
| `AddrManEffects.GoodWaits` | src/addrman.cpp:236-247 | With the test, an entry whose tried slot is taken is marked and waits, if fewer than ten wait; both tables stay as they are |
| `AddrManEffects.GoodMoves` | src/addrman.cpp:236-254 | Otherwise the entry moves to its tried slot, and what was there goes back to the new table |
| `AddrManEffects.LiveFaces` | src/addrman.cpp:547-556 | A live waiting id with a valid address faces a tried entry |
| `AddrManEffects.ResolveForgets` | src/addrman.cpp:540-561 | An id that is gone or not valid, or whose rival has succeeded within four hours, is forgotten, and nothing else changes |
| `AddrManEffects.ResolveWaits` | src/addrman.cpp:558-582 | While the rival was tried within a minute, or not for four hours but the newcomer succeeded within forty minutes, nothing changes at all |
| `AddrManEffects.ResolveReplaces` | src/addrman.cpp:558-582 | In every other case the slot changes hands, the rival goes to the new table, and the id no longer waits |
| `AddrManEffects.ResolveConfirms` | src/addrman.cpp:558-582 | An id that has been tried meanwhile keeps its slot and no longer waits |
| `AddrManEffects.TerribleMeans` | src/addrman.cpp:33-53 | Never within a minute of a try; else for a time that is zero, too far ahead or over 30 days old, three failures without success, or ten in a week; never otherwise |
| `AddrManEffects.PlaceTables` | src/addrman.cpp:305-325 | An entry takes the slot for a source exactly if that is free, held by a terrible entry, or by one with other references while it has none |
| `AddrManEffects.AddUnroutable` | src/addrman.cpp:256-259 | An address that cannot be routed to changes nothing |
| `AddrManEffects.AddUnknown` | src/addrman.cpp:298-325 | An unknown address becomes an entry with its time less the penalty, never below zero, exactly if it can have its slot |
| `AddrManEffects.AddKnown` | src/addrman.cpp:266-325 | A known address is refreshed, and gets one more reference exactly if the announcement is news, it has fewer than eight, the draw allows it and the slot can be had |
| `AddrManEffects.AttemptMeans` | src/addrman.cpp:329-349 | The last try is set; the attempt counts at most once since the last success of anyone; nothing else changes |
| `AddrManEffects.ConnectedMeans` | src/addrman.cpp:497-515 | The time ends within twenty minutes of now, never moves back, and moves only when it was older; nothing else changes |
| `AddrManEffects.ServicesMeans` | src/addrman.cpp:517-533 | Only the services of this service change |
| `AddrManEffects.AnyCanBeNext` | src/addrman.cpp:484-495 | Whatever has been drawn, the next draw can give any element that has not |
| `Mempools.AncestorsCountLess` | src/miner.h:82-89 | An ancestor has a smaller ancestor count than its descendant |
| `PackageCache.UpdateDescendants` | src/miner.cpp:242-259 | For one included transaction, the entry of every descendant outside the added set loses it once, by modified fee if the entry is new and by plain fee otherwise, and no other entry changes; the count is theirs |
| `PackageCache.UpdatePackagesForAdded` | src/miner.cpp:237-262 | Each added transaction is subtracted, in some order, from every package it was part of; the result counts these updates |
| `PackageCache.SubtractKeeps` | src/miner.cpp:249-258 | Telling a dependant of one more ancestor keeps its entry exactly what the ancestors told of, in their order, make of it |
| `PackageCache.IncludeKeeps` | src/miner.cpp:410-426 | Including what is left of a package, its members told of in any order, keeps the cache consistent and the block closed under ancestors |
| `PackageCache.DropKeeps` | src/miner.cpp:375-381 | So does erasing a failed entry |
| `PackageCache.RunKeeps` | src/miner.cpp:300-428 | Over any run of inclusions and failures, in any order and with any scoring: a transaction outside the block is cached exactly if an ancestor of it went in since it last failed, and its entry has had each of these subtracted exactly once |
| `PackageCache.StartedConsistent` | src/miner.cpp:308-310 | The cache made for the block given is consistent with it |
| `PackageCache.PackageCloses` | src/miner.cpp:393-399 | What is left of a package, added to a block closed under ancestors, gives such a block |
| `PackageFees.EntryExcess` | src/miner.cpp:249-258 | An entry exceeds what is left of its package exactly by the ancestors that went in before it last failed and, in fees, by the priorities of all its ancestors but the first |
| `PackageFees.CachedBounds` | src/miner.h:111-123 | A cached size and sigop total is at least what is left of its package, and exactly that for an entry that never failed |
| `PackageFees.UncachedIsWhole` | src/miner.cpp:264-277 | An entry that is neither cached nor failed has no ancestor in the block, so its mempool totals are what is left of its package |
| `PackageFees.ReachFirst` | src/miner.cpp:237-262 | Every ancestor of a transaction that goes in is the first one subtracted in some run to the same block |
| `PackageFees.CachedFeesExactlyWhen` | src/miner.cpp:237-262 | From a state in which a transaction is not cached to a block with new ancestors of it, its cached fees are the fees left in every run if and only if, for each new ancestor, its priority times the number of the others makes zero with the modified fees of the ancestors that were in already |
| `PackageFees.UnfailedFeesExactlyWhen` | src/miner.cpp:237-262 | If none was in already: if and only if at most one ancestor has gone in, or each of them has the same fee and modified fee |
| `PackageFees.FailedFeesExactlyWhen` | src/miner.cpp:375-381 | The same condition for an entry that failed and is cached again: the ancestors from before the failure are those that were in already |
| `PackageScore.ScoreIsLower` | src/txmempool.h:299-315 | The score is the lower of the own fee rate and that of what is left of the package |
| `PackageScore.NotBetterTrans` | src/txmempool.h:278-297 | Being no better is transitive |
| `PackageScore.CandidateSized` | src/miner.cpp:330-367 | Every candidate has a positive size, cached or not, so that scores compare |
| `PackageScore.CachedFeesCanDrift` | src/miner.cpp:249-258 | A valid mempool in which the scores force two prioritised parents in, one after the other, and leave their child cached with 15 where 10 is left |
| `PackageSelection.GetFeeMeans` | src/policy/feerate.cpp:23-38 | The fee of a size at a rate is their product over 1000 toward zero, but at least one satoshi in the sign of the rate; odd in the rate |
| `PackageSelection.SelectionIsGreedy` | src/miner.cpp:330-367 | A run by the rule takes a best candidate each time |
| `PackageSelection.BestIsUnique` | src/miner.cpp:330-354 | With distinct transaction ids there is one best candidate |
| `PackageSelection.EndedIsEnd` | src/miner.cpp:321-427 | A selection that ended, in any of the three ways, cannot go on by the rule: whether to stop is no choice |
| `PackageSelection.Recorded` | src/miner.cpp:374-426 | After one more step the three counters are those of the longer run, and the test of the loop is exactly that the rule gives up |
| `Miner.SortForBlock` | src/miner.cpp:279-288 | The package as a duplicate-free list sorted by ancestor count |
| `Miner.AncestorsEarlier` | src/miner.cpp:279-288 | In that order, every ancestor of a transaction is in the block already or earlier in the list |
| `Miner.IsBlockAppend` | src/miner.cpp:218-235 | Appending a new transaction whose ancestors are all in keeps the block free of duplicates and every ancestor before its descendants |
| `Miner.AccountsAppend` | src/miner.cpp:218-235 | Weight, sigop cost and fees stay the sums over the block |
| `Miner.BestModified` | src/miner.cpp:334 | No cached entry is better than the one found |
| `Miner.ChosenIsBest` | src/miner.cpp:330-354 | If no cached entry and not the next mempool entry is better, no candidate is, as the mempool is in order of score |
| `Miner.CheapIsHighest` | src/miner.cpp:369-372 | When the chosen package is below the minimum fee rate, no candidate scores above its rate |
| `Miner.BlockAssembler.constructor` | src/miner.cpp:52-88 | An empty block with the reserved weight and sigops, the given rate and witness flag, and the weight limit clamped to between 4000 and the consensus limit less 4000 |
| `Miner.BlockAssembler.AddToBlock` | src/miner.cpp:218-235 | Appends one transaction and its amounts |
| `Miner.BlockAssembler.AddSorted` | src/miner.cpp:414-421 | Adds a sorted package whole; the precondition of every single addition holds |
| `Miner.BlockAssembler.Choose` | src/miner.cpp:330-367 | The chosen package is a best candidate, it is not in the block, as the code asserts, and its totals are at least what is left of it, exactly that if it never failed |
| `Miner.BlockAssembler.IncludePackage` | src/miner.cpp:393-426 | A package that passed its test leaves the block within its limits and the cache as the inclusion makes it |
| `Miner.BlockAssembler.Fail` | src/miner.cpp:374-408 | A failed cached entry is erased and remembered, a failed mempool entry passed over; which of the two is exact |
| `Miner.BlockAssembler.Perform` | src/miner.cpp:374-426 | Does to a candidate exactly what the rule prescribes: in if there is room for its totals and all of it may go in, else dropped or passed over |
| `Miner.BlockAssembler.SelectOne` | src/miner.cpp:330-426 | One turn of the loop: ends below the minimum rate exactly as the rule says, or extends the run by its prescribed event and gives up exactly if the rule does |
| `Miner.BlockAssembler.AddPackageTxs` | src/miner.cpp:300-428 | Terminates; what it does is a selection by the rule (a best candidate each time, which pays the minimum rate, in exactly if there is room for it and all of it may go in) that ends exactly in one of three ways: no candidate is left, a best one is below the rate, or more than 1000 packages since the last inclusion had no room and the block is within 4000 of its limit; both counters are exact; the block has no duplicates, every transaction after its in-mempool ancestors, weight and sigop cost within the limits and fees equal to the sum |
| `CheckQueue.BatchSize` | src/checkqueue.h:107 | A batch fits the queue and the maximum; it is the largest number that leaves an equal share for every thread, idle ones counted twice, and one more; at least one |
| `CheckQueue.ArriveKeeps` | src/checkqueue.h:75-86 | Accounting for a finished batch keeps every counter and verdict consistent |
| `CheckQueue.SectionKeeps` | src/checkqueue.h:88-117 | The rest of the critical section keeps the invariant; only the master returns, with the verdict on everything added |
| `CheckQueue.EvalKeeps` | src/checkqueue.h:119-121 | Running one check keeps the invariant |
| `CheckQueue.AddKeeps` | src/checkqueue.h:146-158 | Adding checks keeps the invariant |
| `CheckQueue.StepKeeps` | src/checkqueue.h:66-158 | Every step of every thread keeps the invariant, spurious wakeups included |
| `CheckQueue.InitHolds` | src/checkqueue.h:131 | A new queue satisfies the invariant |
| `CheckQueue.RunKeeps` | src/checkqueue.h:66-158 | Every state of every interleaving satisfies it: nTodo is queued plus outstanding, nothing is lost or run twice, and the checks accounted for are those added since the last return |
| `CheckQueue.VerdictIsExact` | src/checkqueue.h:140-143 | Whenever Wait returns, it returns true exactly if every check added since the previous return passes |
| `CheckQueue.MasterSleepsOnlyForWork` | src/checkqueue.h:88-101 | A master asleep without notification implies some worker with a non-empty batch that can proceed |
| `CheckQueue.MasterReturnsExactlyWhenNotified` | src/checkqueue.h:80-97 | On waking, the master returns exactly if it has been notified |
| `CheckQueue.PopBatch` | src/checkqueue.h:108-114 | The loop takes the newest checks and loses none |
| `CheckQueue.RunBatch` | src/checkqueue.h:119-121 | The batch passes exactly if it was to be run with a good verdict and every check of it passes |
| `MerkleBlock.WidthIsCeiling` | src/merkleblock.h:66-68 | The shift formula for the width of a level is the width by pairing up level after level |
| `MerkleBlock.TreeHeight` | src/merkleblock.cpp:121-124 | The loop finds the height of the tree, at which there is one node |
| `MerkleBlock.CalcHash` | src/merkleblock.cpp:40-58 | The hash by positions is the hash of the explicit tree of that shape |
| `MerkleBlock.ExtractionIsAuthenticated` | src/merkleblock.cpp:78-163 | With a collision-free pair hash, for any bits and hashes whatever: if extraction ends with the true root, every extracted id is the id of the block at the extracted position |
| `MerkleBlock.ExtractionUndoesBuilding` | src/merkleblock.cpp:60-163 | With distinct ids, extracting from a built tree, with any padding within its last byte, gives the true root and exactly the matched ids and positions, in order |
| `MerkleBlock.ExtractionUndoesBuildingPacked` | src/merkleblock.h:87-105 | The same after packing the bits into bytes and back |
| `MerkleBlock.BuiltSize` | src/merkleblock.h:36-40 | At most as many hashes as ids, as bits, and as one plus matches times height |
| `MerkleBlock.BitBoundExactlyWhenPaired` | src/merkleblock.h:47 | The documented bound of 2 N - 1 bits holds exactly when no unpaired node leads to a match |
| `MerkleBlock.BitBoundCanFail` | src/merkleblock.h:47 | Three ids with the last one matched take two hashes and four bits |
| `MerkleBlock.SubtreeAuthentic` | src/merkleblock.cpp:78-114 | The authentication of one subtree |
| `MerkleBlock.NodesDiffer` | src/merkleblock.cpp:100-105 | Different nodes of one level have different hashes, so building never meets the equal-children test |
| `MerkleBlock.SubtreeRoundTrip` | src/merkleblock.cpp:60-114 | The round trip of one subtree at any place of the streams |
| `MerkleBlock.Pack` | src/merkleblock.h:100-102 | The bytes hold the bits in order and zeros after them |
| `MerkleBlock.Unpack` | src/merkleblock.h:95-97 | The bits of the bytes, in order |
| `MerkleBlock.PartialMerkleTree.constructor` | src/merkleblock.cpp:116-128 | Builds the parts of the whole tree |
| `MerkleBlock.PartialMerkleTree.ParentOfMatch` | src/merkleblock.cpp:61-64 | The loop over the leaves under a node tells whether one of them is matched |
| `MerkleBlock.PartialMerkleTree.TraverseAndBuild` | src/merkleblock.cpp:60-76 | Appends the parts of the subtree |
| `MerkleBlock.PartialMerkleTree.TraverseAndExtract` | src/merkleblock.cpp:78-114 | Reads the subtree off the streams as specified, with the same failures |
| `MerkleBlock.PartialMerkleTree.ExtractMatches` | src/merkleblock.cpp:132-163 | The extraction as specified, with every rejection of the code |
| `MerkleProofs.Read` | src/merkleblock.cpp:78-114 | What a traversal accepts is a partial tree of the given shape, without equal siblings, written at that place of the streams |
| `MerkleProofs.Accepted` | src/merkleblock.cpp:78-114 | And every such tree is accepted where it is written, with its matches and its root |
| `MerkleProofs.RootMeansProof` | src/merkleblock.cpp:132-163 | A root other than null means: all hashes, and all bits up to padding within the last byte, are the written form of a partial tree of the claimed size, and the result is its root and its matches |
| `MerkleProofs.ProofMeansRoot` | src/merkleblock.cpp:132-163 | Every such written form yields the root and the matches of its tree |
| `MerkleProofs.Descend` | src/merkleblock.cpp:100-110 | A combined hash is that of an inner node, whose children have the two hashes; equal ones exactly for an only child |
| `MerkleProofs.PartialExplained` | src/merkleblock.cpp:78-114 | What is found under a node, by how high the claimed tree and the true one reach above it |
| `MerkleProofs.AuthenticatedWhateverCount` | src/merkleblock.cpp:132-163 | Whatever number of transactions is claimed: an id found under the root of a list that is not itself a combined hash is in the list at its index; with the true height everything found is, with a lower one only hashes of inner nodes are found, with a higher one nothing |
| `MerkleProofs.ClaimedAlone` | src/merkleblock.cpp:132-163 | With a claimed count of one, any hash is its own root and match, so the exception is real |
| `SkipHeights.LowestOne` | src/chain.cpp:70 | What is turned off is the lowest one bit |
| `SkipHeights.GetSkipHeight` | src/chain.cpp:73-81 | A height strictly below a positive one |
| `SkipHeights.TooFar` | src/chain.cpp:90-105 | Where turning off the lowest bit leads too far, one step down leaves fewer differing bits |
| `SkipHeights.BeforeLosesOne` | src/chain.cpp:73-81 | Where the skip link of the parent leads farther, it leads to a height with fewer one bits |
| `SkipHeights.ParentStep` | src/chain.cpp:90-105 | Where the parent is preferred, its skip link is taken next, and the two steps are paid for |
| `SkipHeights.WalkBound` | src/chain.cpp:90-105 | The number of steps is at most the cost, which falls with every step |
| `SkipHeights.WalkIsShort` | src/chain.cpp:73-108 | Between heights of k bits every walk takes at most 3 k (k + 1) / 2 steps |
| `Chain.AtAt` | src/chain.cpp:83-108 | The ancestors of an ancestor are one's own |
| `Chain.BlockIndex.WalkBack` | src/chain.cpp:87-107 | The skipping walk ends where following pprev ends, given only that set skip links are right; where all blocks have theirs, its steps are quadratic in the bits of the height |
| `Chain.BlockIndex.GetAncestor` | src/chain.cpp:83-108 | For every height, in range or not, the ancestor that following pprev gives; terminates |
| `Chain.BlockIndex.BuildSkip` | src/chain.cpp:115-119 | The skip link becomes the ancestor at the skip height; every block keeps right links |
| `Chain.AddToBlockIndex` | src/validation.cpp:2990-3004 | A new block gets its parent and skip link, the index stays well formed and every known block keeps all its ancestors |
| `Chain.StoppedInPlace` | src/chain.cpp:17-20 | A block of the old chain found in place brings all its ancestors with it |
| `Chain.ActiveChain.SetTip` | src/chain.cpp:11-21 | On any well-formed old chain the array ends with the ancestor of the tip at every height, in spite of the early stop |
| `Chain.ActiveChain.FindFork` | src/chain.cpp:51-60 | The highest block of the chain that is an ancestor of the block, null exactly if there is none |
| `Chain.LastCommonAncestor` | src/chain.cpp:155-170 | The highest common ancestor, null exactly if there is none; the assertion holds even for two separate trees |
| `Chain.ActiveChain.GetLocator` | src/chain.cpp:23-49 | From the block to the root by strides of one, then doubling |
| `Chain.LocatorIsShort` | src/chain.cpp:23-49 | A locator of more than 13 blocks has length at most logarithmic in the height |
| `LinearCode.FoldLinear` | src/bech32.cpp:64-93 | The register after a sum of symbol lists is the sum of the registers |
| `LinearCode.TailInjective` | src/bech32.cpp:64-93 | Different full registers stay different under the same symbols, at any length |
| `LinearCode.ShortFold` | src/bech32.cpp:64-93 | An empty register keeps up to six symbols |
| `LinearCode.BurstDetected` | src/bech32.cpp:45-49 | A change within six consecutive symbols always changes the final register |
| `LinearCode.Completed` | src/bech32.cpp:127-139 | Six symbols chosen from what six zeros give bring the register to one |
| `Bech32.ChecksumVerifies` | src/bech32.cpp:127-139 | For every human-readable part and values the created checksum verifies |
| `Bech32.ChecksumUnique` | src/bech32.cpp:118-139 | Six symbols verify exactly when they are the created checksum |
| `Bech32.AtMostOneVerifies` | src/bech32.cpp:117-125 | Of two lists of any length that differ only within six consecutive symbols at most one verifies |
| `Bech32.DecodedIsEncoded` | src/bech32.cpp:159-190 | Whatever decodes is, up to its case, the encoding of the result |
| `Bech32.EncodedDecodes` | src/bech32.cpp:159-190 | An encoding in either case decodes to what was encoded |
| `Bech32.DecodeExact` | src/bech32.cpp:147-190 | Decoding accepts exactly the encodings, of at most 90 characters and without mixed case, and gives what was encoded |
| `Bech32.RoundTrip` | src/bech32.cpp:147-190 | Decoding undoes encoding for printable lower-case parts within 90 characters |
| `Syndromes.ThreeTerms` | src/bech32.cpp:45-48 | Three terms that vanish at the zeroth, first and second power of a ratio are all zero if its powers tell their places apart |
| `Syndromes.ValueSteps` | src/bech32.cpp:59-91 | After n zeros the value of a register at a root is multiplied by the n-th power of the root |
| `Syndromes.ThreeErrorsDetected` | src/bech32.cpp:45-48 | For any register with three roots in progression: lists that differ in at most three places within 1023 leave different registers |
| `Syndromes.FixedByLargeDivisor` | src/bech32.cpp:45-48 | An element fixed by a lower power than 1023 of the ratio is fixed by the 33rd, 93rd or 341st |
| `Bech32Errors.SameRemainder` | src/bech32.cpp:37-94 | For any such code, lists with equal remainders and at most three differences within 1023 places are equal |
| `Bech32Errors.ExpandedSplits` | src/bech32.cpp:103-115 | The two symbols of a letter are its high three and low five bits: 32 times the one plus the other is the letter |
| `Bech32Errors.ExpandedInjective` | src/bech32.cpp:103-115 | Different human-readable parts expand differently |
| `Bech32Errors.WholeFewErrors` | src/bech32.cpp:103-125 | For any such code: two strings that both verify and whose expanded forms differ in at most three places within 1023 are equal, human-readable part included |
| `Bech32Errors.WholeBurst` | src/bech32.cpp:103-125 | The same for a change within six consecutive symbols of the expanded form |
| `Bech32Errors.OneLetter` | src/bech32.cpp:103-115 | A changed letter of the human-readable part changes at most two symbols |
| `Bech32Roots.HornerStep` | src/bech32.cpp:77-91 | One step of the division multiplies the value of the remainder by the root, for every root of the generator |
| `Bech32Roots.SeparatesLaw` | src/bech32.cpp:45-48 | The ratio of the roots has order 1023: no smaller power fixes an element but zero |
| `Bech32Roots.RootsLawful` | src/bech32.cpp:45-48 | The repository's generator has three roots in progression |
| `Bech32Roots.ThreeErrorsChangeRemainder` | src/bech32.cpp:45-48 | Up to three wrong symbols within 1023 places change the remainder |
| `Bech32Roots.Bech32DetectsThreeErrors` | src/bech32.cpp:118-125 | With the same human-readable part, two lists that both verify and differ in at most three places within 1023 are equal |
| `Bech32Roots.Bech32DetectsWrongParts` | src/bech32.cpp:103-125 | For the repository's own code: two strings that both verify and differ in at most three symbols of their expanded forms, within 1023, have the same human-readable part and data |
| `Bech32Roots.Bech32DetectsWrongBurst` | src/bech32.cpp:103-125 | So do two that differ only within six consecutive symbols of their expanded forms, human-readable part included |
| `Bech32Roots.Bech32DetectsLetter` | src/bech32.cpp:103-125 | A wrong letter in the human-readable part is always noticed |
| `PolyMod.StepLinear` | src/bech32.cpp:80-91 | A step of the division is linear over exclusive or |
| `PolyMod.StepInjective` | src/bech32.cpp:80-91 | On 30-bit remainders a zero symbol loses nothing |
| `PolyMod.CharOfSymbol` | src/bech32.cpp:13-25 | The tables undo each other on symbols, and no symbol is written as the separator or in upper case |
| `PolyMod.SymbolOfChar` | src/bech32.cpp:13-25 | The tables undo each other on characters up to case |
| `PolyMod.CodeLawful` | src/bech32.cpp:13-139 | The repository's polynomial, packing and tables satisfy all laws that the code theorems assume |
| `PolyMod.Bech32IsExact` | src/bech32.cpp:147-190 | The exactness of decoding for the repository's own code |
| `PolyMod.Bech32RoundTrip` | src/bech32.cpp:147-190 | The round trip for the repository's own code |
| `PolyMod.Bech32DetectsBursts` | src/bech32.cpp:37-125 | The detection of changes within six consecutive symbols for the repository's own code |
| `PolyMod.Advance` | src/bech32.cpp:80-91 | The five conditional reductions are one step of the division |
| `PolyMod.Compute` | src/bech32.cpp:37-94 | The loop gives the remainder of the list with a one in front |
| `PolyMod.ExpandHRP` | src/bech32.cpp:103-115 | The expansion as specified, of which ExpandedSplits and ExpandedInjective say what it keeps |
| `PolyMod.VerifyChecksum` | src/bech32.cpp:118-125 | Whether the remainder is one |
| `PolyMod.Unpack` | src/bech32.cpp:134-137 | The six groups are what an empty register was fed to reach the word |
| `PolyMod.CreateChecksum` | src/bech32.cpp:128-139 | The checksum as specified |
| `PolyMod.Encode` | src/bech32.cpp:147-156 | The encoding as specified |
| `PolyMod.Scan` | src/bech32.cpp:160-167 | Whether all characters are printable and of one case |
| `PolyMod.FindLastOne` | src/bech32.cpp:168 | The last separator |
| `PolyMod.Parse` | src/bech32.cpp:159-185 | Everything of decoding but the checksum, with every rejection |
| `PolyMod.Decode` | src/bech32.cpp:159-190 | The decoding as specified |
| `Arith.BaseUint.constructor` | src/arith_uint256.h:56-64 | The value of a 64-bit word |
| `Arith.BaseUint.SetWord` | src/arith_uint256.h:87-94 | The value of a 64-bit word |
| `Arith.BaseUint.GetLow64` | src/arith_uint256.h:244-248 | The value modulo 2^64 |
| `Arith.BaseUint.Copy` | src/arith_uint256.h:41-47 | The same value in new limbs |
| `Arith.BaseUint.AddAssign` | src/arith_uint256.h:134-144 | The sum modulo 2^(32 n), also when both operands are one object; no 64-bit intermediate overflows |
| `Arith.BaseUint.Complement` | src/arith_uint256.h:68-74 | The distance to the largest value |
| `Arith.BaseUint.Increment` | src/arith_uint256.h:172-179 | The value plus one, modulo |
| `Arith.BaseUint.Decrement` | src/arith_uint256.h:189-196 | The value minus one, modulo |
| `Arith.BaseUint.Negate` | src/arith_uint256.h:76-83 | The modulus minus the value, modulo |
| `Arith.BaseUint.SubAssign` | src/arith_uint256.h:146-150 | The difference modulo 2^(32 n) |
| `Arith.MulAdd` | src/arith_uint256.cpp:61-64 | A limb and a carry limb that make up carry, limb and product, without overflow of 64 bits |
| `Arith.BaseUint.MulAssign32` | src/arith_uint256.cpp:58-67 | The product with a limb, modulo |
| `Arith.MulRow` | src/arith_uint256.cpp:74-80 | Adds a limb times the low limbs of the factor, moved up, with one limb carried out |
| `Arith.BaseUint.MulAssign` | src/arith_uint256.cpp:70-83 | The product modulo 2^(32 n), also when both operands are one object |
| `Arith.BaseUint.ShiftLeft` | src/arith_uint256.cpp:24-38 | The product with 2^shift, modulo, for every shift |
| `Arith.BaseUint.OrShiftedDown` | src/arith_uint256.cpp:47-53 | One limb of the right shift adds exactly its share of the quotient, and disturbs no limb above |
| `Arith.BaseUint.ShiftRight` | src/arith_uint256.cpp:41-55 | The floor quotient by 2^shift, for every shift |
| `Arith.BaseUint.CompareTo` | src/arith_uint256.cpp:112-121 | The sign of the difference |
| `Arith.BaseUint.Bits` | src/arith_uint256.cpp:174-186 | The bit length |
| `Arith.LimbBits` | src/arith_uint256.cpp:178-181 | The bit length of a limb |
| `Arith.BaseUint.DivStep` | src/arith_uint256.cpp:99-106 | One bit of the quotient: number = quotient times divisor plus rest, and the rest halves its bound |
| `Arith.BaseUint.DivAssign` | src/arith_uint256.cpp:86-109 | The floor quotient for every non-zero divisor; for zero an error, with the number already cleared |
| `Compact.OverflowExact` | src/arith_uint256.cpp:219-222 | The overflow flag is set exactly when mantissa times 256^(size-3) is at least 2^256 |
| `Compact.TargetExact` | src/arith_uint256.cpp:206-224 | Without overflow nothing is lost |
| `Compact.PartsFit` | src/arith_uint256.cpp:242-243 | Both assertions of the encoder hold for every 256-bit number |
| `Compact.DecodeEncoded` | src/arith_uint256.cpp:206-247 | Decoding the code of a number gives it with its low bytes cleared, without a flag |
| `Compact.EncodeDecoded` | src/arith_uint256.cpp:206-247 | Encoding that again gives the same code |
| `Compact.SetCompact` | src/arith_uint256.cpp:206-224 | Value and both flags as specified for every 32-bit code |
| `Compact.GetCompact` | src/arith_uint256.cpp:226-247 | The code as specified for every number |
| `Compact.TargetNotLargest` | src/chain.cpp:121-134 | No code stands for 2^256 - 1, so adding one to a target never wraps to zero |
| `Compact.WorkFormula` | src/chain.cpp:129-133 | The quotient of the complement, plus one, is 2^256 divided by the target plus one |
| `Compact.GetBlockProof` | src/chain.cpp:121-134 | For every code 0, or exactly the floor of 2^256 / (target + 1); never divides by zero |
| `Bloom.WipedBits` | src/bloom.cpp:253-261 | The two masked words lose exactly the positions whose 2-bit mark is the given generation |
| `Bloom.Wipe` | src/bloom.cpp:255-261 | The loop unsets exactly the positions with a given mark |
| `Bloom.MarkedAt` | src/bloom.cpp:271-272 | Setting the two bits changes the mark of one position only |
| `Bloom.SeenNext` | src/bloom.cpp:247-252 | The next generation reuses the mark of three generations ago, and only keys of that one are forgotten |
| `Bloom.WipeKeeps` | src/bloom.cpp:247-262 | Wiping keeps every mark exact: it is that of the last key with this position if it is recent, and unset otherwise |
| `Bloom.MarkAll` | src/bloom.cpp:265-273 | The loop stamps exactly the positions of the key |
| `Bloom.AppendKeeps` | src/bloom.cpp:265-273 | A new key stamped over older marks keeps every mark exact |
| `Bloom.SetExactly` | src/bloom.cpp:282-294 | A position is set if and only if one of the keys of the current generation and the two before it has it |
| `Bloom.HasExactly` | src/bloom.cpp:282-294 | All positions of a key are set if and only if each is a position of one of those keys |
| `Bloom.LastKeysFound` | src/bloom.h:109-110 | The filter contains every key of the current generation and of the two before it |
| `Bloom.RollingBloomFilter.constructor` | src/bloom.cpp:205-230 | An empty filter with half the elements, rounded up, per generation |
| `Bloom.RollingBloomFilter.Roll` | src/bloom.cpp:247-262 | Starts the next generation exactly if the current one is full; every mark stays exact, so the oldest generation is forgotten |
| `Bloom.RollingBloomFilter.Reset` | src/bloom.cpp:302-310 | Forgets everything: with no history no position is set |
| `Bloom.RollingBloomFilter.Insert` | src/bloom.cpp:245-274 | The key joins the history and every mark stays exact: set exactly for recent keys, with the mark of their generation |
| `Bloom.RollingBloomFilter.Contains` | src/bloom.cpp:282-294 | True if and only if each position of the key is one of a key of the current generation or the two before it; so true for each of those keys, at least the last nElements, and false for every key after a reset |
| `Bloom.Words64Lawful` | src/bloom.cpp:253-272 | 64-bit words with their bit operations satisfy the laws that the filter theorems assume |
| `Cuckoo.KeptWrite` | src/cuckoocache.h:392-440 | Writing a slot exchanges what it counted for against what it counts for |
| `Cuckoo.KeptIsFound` | src/cuckoocache.h:467-477 | A kept element is found in its eight slots |
| `Cuckoo.AgedKept` | src/cuckoocache.h:305-311 | Ageing drops exactly the old epoch and makes the current one the old one |
| `Cuckoo.NextScan` | src/cuckoocache.h:312-320 | The next scan comes when the epoch may be full, at least a sixteenth of an epoch on, and before the epoch exceeds its bound |
| `Cuckoo.DisplaceTakesAnother` | src/cuckoocache.h:415-438 | A displacement exchanges the hand with one of its slots; that is the slot just filled exactly if the next of the eight slots is the same one |
| `Cuckoo.TakenOutAgain` | src/cuckoocache.h:415-438 | Where two consecutive slots of an element coincide, the element just put in is taken out again |
| `Cuckoo.AfterKeeps` | src/cuckoocache.h:406-440 | Through any number of displacements an element that must be kept is in the hand, and all others are in their slots |
| `Cuckoo.NothingLeft` | src/cuckoocache.h:406-440 | Nothing is left in the hand if and only if, within the limit, some hand has a discardable slot when its turn comes |
| `Cuckoo.HandOver` | src/cuckoocache.h:430-438 | A swap with the hand conserves elements together with their epochs |
| `Cuckoo.InsertedIsFound` | src/cuckoocache.h:372-391 | What was inserted and not dropped is kept and found |
| `Cuckoo.AlwaysRoom` | src/cuckoocache.h:340-353 | With the bounds on both epochs a table of at least 46 slots always has a discardable one |
| `Cuckoo.SetOne` | src/cuckoocache.h:92-95 | Setting a packed bit changes that bit only |
| `Cuckoo.UnsetOne` | src/cuckoocache.h:103-106 | Unsetting a packed bit changes that bit only |
| `Cuckoo.Cache.constructor` | src/cuckoocache.h:340-353 | All slots discardable, an epoch of 45 percent |
| `Cuckoo.Cache.EpochCheck` | src/cuckoocache.h:289-321 | Ages the slots exactly when the counter is zero and the current epoch is full, else leaves them; the counter and the current epoch keep room for an insert within its bound |
| `Cuckoo.Cache.Evict` | src/cuckoocache.h:415-438 | One displacement as specified |
| `Cuckoo.Cache.Settle` | src/cuckoocache.h:407-414 | Puts the hand into the first discardable one of its slots, if there is one |
| `Cuckoo.Cache.Chain` | src/cuckoocache.h:406-440 | Makes displacements, each as specified, until a hand has room or depthLimit are made; conserves elements and epochs up to what is in the hand, and keeps every element in one of its slots |
| `Cuckoo.Cache.Place` | src/cuckoocache.h:397-440 | An element already present is renewed in its first slot; otherwise the chain runs |
| `Cuckoo.Cache.Insert` | src/cuckoocache.h:392-440 | Kept elements after the insert are those after the epoch check, plus the new one, minus the copy already there or one dropped, per epoch; of a new element nothing is dropped if and only if within depthLimit displacements some hand has room |
| `Cuckoo.Cache.Contains` | src/cuckoocache.h:467-477 | Found exactly if a slot of the element holds it; erasing marks only the first such slot |
| `Cuckoo.Cache.AllowErase` | src/cuckoocache.h:266-269 | The kept elements lose exactly what that slot counted for |
| `Cuckoo.BitPackedFlags.constructor` | src/cuckoocache.h:61-70 | All flags set |
| `Cuckoo.BitPackedFlags.BitSet` | src/cuckoocache.h:92-95 | Sets one flag and no other |
| `Cuckoo.BitPackedFlags.BitUnset` | src/cuckoocache.h:103-106 | Unsets one flag and no other |
| `BlockFilter.CodeBack` | src/blockfilter.cpp:19-47 | Reading a Golomb-Rice code gives the number and leaves what follows |
| `BlockFilter.CodeAllBack` | src/blockfilter.cpp:146-170 | Decoding the differences yields exactly the sorted list, duplicates included |
| `BlockFilter.MapIntoRange` | src/blockfilter.cpp:54-78 | The 32-bit split gives the floor of x n / 2^64, and no 64-bit intermediate overflows |
| `BlockFilter.GolombRiceEncode` | src/blockfilter.cpp:19-33 | The loop writes the code in pieces of at most 64 bits |
| `BlockFilter.GolombRiceDecode` | src/blockfilter.cpp:36-47 | The loop reads one code, reduced modulo 2^64, or fails at the end of the stream |
| `BlockFilter.EncodeValues` | src/blockfilter.cpp:146-151 | The loop writes the differences of a sorted list |
| `BlockFilter.SortSorts` | src/blockfilter.cpp:95 | Sorted, with the same elements |
| `BlockFilter.BuildHashedSet` | src/blockfilter.cpp:88-97 | The sorted hashes of the elements |
| `BlockFilter.Build` | src/blockfilter.cpp:126-154 | Refuses 2^32 elements or more; otherwise the stream decodes to exactly the sorted hashes, all of them 64-bit numbers |
| `BlockFilter.FromEncoded` | src/blockfilter.cpp:103-124 | Accepts exactly the streams that hold N values and less than a byte more |
| `BlockFilter.EncodingAccepted` | src/blockfilter.cpp:103-124 | An encoding padded to a whole byte is accepted and decodes to the same list |
| `BlockFilter.MatchInternal` | src/blockfilter.cpp:156-186 | For every stream and every sorted list of queries: true exactly if some query hits, that is, is the first of the 64-bit sums not below it |
| `BlockFilter.Match` | src/blockfilter.cpp:188-192 | For every accepted filter: true exactly if the hash of the element hits |
| `BlockFilter.MatchAny` | src/blockfilter.cpp:194-198 | For every accepted filter: true exactly if the hash of some element hits, that is, if some element matches |
| `BlockFilter.NothingMissed` | src/blockfilter.cpp:156-186 | A 64-bit value of the decoded list hits, even if sums later in the stream pass 2^64 |
| `BlockFilter.HitMeansMemberExactlyWhen` | src/blockfilter.cpp:156-186 | A hit means membership, for every 64-bit number, if and only if no decoded value past 2^64 exceeds, modulo 2^64, every value before it |
| `BlockFilter.OverflowCanMatch` | src/blockfilter.cpp:103-192 | A filter with the single value 2^64 + 7 is accepted and matches the hash 7 |
| `BlockFilter.BuiltMatches` | src/blockfilter.cpp:126-192 | For a filter built from some elements a match means exactly the hash of one of them |
| `BlockFilter.NoFalseNegatives` | src/blockfilter.cpp:126-192 | Every element a filter was built from matches |
| `Base58.EncodeFits` | src/base58.cpp:94 | 256^n is at most 58^(138 n / 100 + 1) for every n |
| `Base58.DecodeFits` | src/base58.cpp:48 | 58^m is at most 256^(733 m / 1000 + 1) for every m |
| `Base58.ConvertBack` | src/base58.cpp:35-122 | Converting digits with their leading zeros to another base and back gives them back |
| `Base58.DecodeEncoded` | src/base58.cpp:35-122 | Decoding undoes encoding for every byte sequence |
| `Base58.DecodeExact` | src/base58.cpp:35-122 | A string decodes to some bytes exactly when the part before its first NUL is their encoding, spaces around it aside |
| `Base58.AlphabetLawful` | src/base58.cpp:15-33 | The two tables undo each other and no character is a space |
| `Base58.Absorb` | src/base58.cpp:57-64 | The inner loop multiplies and adds in place, and its assertion that nothing is carried holds |
| `Base58.SignificantDigits` | src/base58.cpp:72-75 | The digits from the highest that is not zero are the digits of the number |
| `Base58.EncodeBase58` | src/base58.cpp:84-122 | The encoding as specified, within the allocated buffer |
| `Base58.ReadDigits` | src/base58.cpp:47-66 | Reads digits up to a space, within the allocated buffer, or stops at the first character outside the alphabet |
| `Base58.DecodeChars` | src/base58.cpp:35-82 | The decoding of a C string as specified, with every rejection |
| `Base58.DecodeBase58` | src/base58.cpp:129-132 | Any string is decoded as the C string it begins with |
| `Base58.EncodeBase58Check` | src/base58.cpp:134-141 | The encoding of the payload with four bytes of its hash |
| `Base58.DecodeBase58Check` | src/base58.cpp:143-163 | Accepts exactly a decodable string that is a payload followed by its own checksum |

## Left out

- Choose: fee times size is exact, where the code rounds to doubles.
- SetCompact: the pointers for the two flags are results, always given.
- SipHash, MurmurHash3 and double SHA-256: hashes are parameters, any function of the element.
- AddToBlockIndex: only parent, height and skip link of a block are modelled, not the lookup of a known one.
- InvPassesCheck: the condition that the key is not null is not modelled; the key is part of the hash functions given.
- CreateNewBlock beyond clearing the block and selecting packages: it calls consensus code that is not part of this model.
- Address selection (`Select_`, `GetChance`): floating point, and only probable termination.
- Reading an address table from disk: a stream with a repeated address does not establish the invariant.
- Clearing an address manager after use: it does not forget the waiting collisions.
- False positive rates of filters, uniformity of the cuckoo cache, and the floating-point sizing of filters and of the depth limit, which are parameters.
- Detection by Bech32 of a fourth scattered error within 89 symbols, which rests on an exhaustive search; up to three are covered, and any change within six consecutive symbols.
- The length prefix and the byte boundaries of a block filter; the elements of the basic filter of a block.
- Memory orders of the cuckoo cache and of the check queue's atomics; operations are sequential or steps of one lock.
- Failing or partial writes of the coin database, its head-block markers and its iteration order.
- `FindEarliestAtLeast` on chains, the equivalent time of work, and hexadecimal input and output of numbers: easy or without a promise of their own.
- Script evaluation, networking, wallets, RPC and option handling.

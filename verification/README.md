# Whippet core, verified

Dafny models of the self-contained stateful algorithms at the heart of the Whippet node (a Bitcoin 0.14 / Dogecoin
descendant with merged mining), and proofs of what they promise. `dafny verify dfyconfig.toml` checks everything.

Where the source changes state in place, the model does too: classes over maps, sequences and arrays, loops with
invariants. Each such method is proved against a specification function or a predicate over its state, and the
theorems are about those, over all inputs, all runs or all interleavings. Hash functions, priorities, random draws,
clocks and iteration orders are parameters or left open, so that the results hold for any of them. Collision
resistance is never assumed: a claim about hash trees either holds or comes with the colliding inputs.

| component | files |
|---|---|
| layered UTXO caches | `Coins`, `CoinsView`, `CoinsViewCache` |
| script check queue | `CheckQueue`, `CheckQueueProtocol` |
| address manager | `AddrMan`, `AddrManInvariant`, `AddrManTables`, `AddrManCheck`, `AddrManStream`, `AddrManRoundTrip`, `AddrManLoading`, `AddrManAnyStream`, `AddrManSurvivors`, `AddrManHistory`, `AddrManBook` |
| block assembly | `Mempool`, `PackageTracking`, `FeeRates`, `BlockSelection`, `BlockAssembler`, `PackageRetry` |
| merged mining | `Hashing`, `MergedMining` |
| partial Merkle trees | `MerkleTree`, `PartialMerkle`, `PartialMerkleRoundTrip`, `PartialMerkleSize`, `PartialMerkleTree`, `BitPacking` |
| 256-bit arithmetic and block proof | `Powers`, `Limbs`, `ArithUint256`, `ArithShift`, `ArithDivide`, `CompactTarget`, `BlockProof` |
| block tree and active chain | `SkipHeights`, `SkipWalks`, `Chain` |
| rolling Bloom filter | `BitPlanes`, `RollingBloom` |
| cuckoo cache | `CuckooCache`, `CollectionFlags` |
| stored coins | `Varint`, `AmountCompression`, `CoinsCodec`, `CoinsStream`, `ScriptCompression` |
| compact blocks | `CompactBlocks`, `RequestIndexes` |
| Base58 | `Radix`, `Base58`, `Base58Codec` |
| shared | `Sets`, `Options`, `Octets` |

## Where the code and an expectation differ

Each comes with the exact condition under which the expectation does hold and, where that condition is not already a
plain bound or the identity of two arguments, with an input on which it does not.

- `CCoinsViewCache::Flush` of a cache whose best block was never read, over another cache, replaces that cache's
  unflushed best block by null (`FlushBestBlock`; `FlushCanLoseBestBlock`).
- `ModifyNewCoins` without the coinbase flag keeps the FRESH invariant exactly if nothing unspent is visible under
  the id, which is BIP 30 (`ModifyNewCoinsNeedsBip30`); otherwise the old coin is back when the new one is spent
  (`DuplicateReappears`).
- `CAddrMan::Add_` answers true for every unknown routable address, also when it is not kept (`AddKeepsIff`;
  `AnsweredNotKept`).
- `CAddrMan::Check_` does not notice stale entries of `mapAddr` (`PassesIffInv` says what it tests and what it leaves;
  `StalePasses`).
- `CAddrMan::Unserialize` reads some streams without repeated addresses into a manager that `Check_` objects to: exactly
  those with a negative counter, a kept entry with a negative time of success or a kept tried entry without one
  (`LoadsIff`; `NeverSucceeded`).
- Selecting a transaction takes its modified fee off a descendant's record if that makes the record, but only its plain
  fee if the record is there. The record is that of what is left of the package exactly if the fee deltas of the
  selected ancestors other than the one that made it cancel out (`FeesExactIff`; `FavourIsInherited`).
- A package that failed would fail again on its stale cached totals, as the comment says (`FailedFailsAgain`). On its
  real totals it can fit later: exactly if only its weight is against it and the block has saved more on its ancestors,
  whose virtual sizes are rounded up, than was too much (`StaysRejectedIff`; `FitsLater`).
- `CAuxPow::initAuxPow` gives a proof that `check` accepts unless the block hash contains the merged-mining header or
  consists of the push opcode's byte only (`InitAuxPowValid`; `HashWithHeader`).
- In-place multiplication `x *= x` gives zero, because the factor is cleared with the target (`MulAssign`).
- The partial Merkle tree format's stated bound of 2N-1 flag bits is exceeded by one for every visited node with a
  single child (`BuildFlags`; `MoreFlagsThanStated`). With it the guarantee SIZE <= 10 + ceil(32.25*N) fails
  (`StatedSizeIff`): by a byte for a block of 1028 transactions that all match (`StatedSizeExceeded`).
- The 32-bit step of `GetLocator` overflows exactly for heights above 2^30 + 9 (`LocatorBounds`).
- A negative transaction version or height does not survive the VARINT of a stored `CCoins`
  (`CoinsCodec.SurvivesIff`; `NegativeVersionLost`). Nor does an unspent script of more than 10000 bytes survive
  `CScriptCompressor`, which reads it as OP_RETURN (`StoredSurvivesIff`; `LongScriptLost`).
- In the cuckoo cache the first eviction goes to `locs[1]`; the comment there says `locs[0]`. The model follows the code.
- Slot numbers of compact blocks fit their 16 bits exactly up to 65536 transactions (`SlotsFit`). The 16-bit offset of
  the search for a free slot suffices exactly if there are fewer than 65536 prefilled transactions or no short ids;
  otherwise the search does not end (`MapShortIds`, `InitData`; `EndlessSearch`).
- `BlockTransactionsRequest` reads lists of indexes that are not strictly increasing, because the 16-bit offset is zero
  again after the largest index. An accepted list is increasing exactly if that comes at most at its end
  (`AcceptedIncreasingIff`; `NotIncreasingAccepted`).
- A second `FillBlock` after one with too few transactions needs one also for every slot the first has moved out
  (`FillEnough`, `RetryNeedsMore`).

## Model

| member | source | states |
|---|---|---|
| `Coins.Cleanup` | src/coins.h:114-119 | popping spent outputs off the back leaves exactly the longest prefix that ends in an unspent one |
| `Coins.Spend` | src/coins.cpp:35-42 | succeeds iff the output is available; then only that output stops being available and the rest is unchanged |
| `Coins.TrimmedEmptyIffPruned` | src/coins.h:229-234 | trimmed coins have an empty vout iff they are pruned, which the length test of HaveCoins relies on |
| `CoinsView.HaveCoinsExact` | src/coins.cpp:164-171 | a cache's answer is exactly whether something unspent is visible |
| `CoinsView.FetchFills` | src/coins.cpp:72-88 | after a lookup every layer down to the first that knows the id holds the answer of the layer below, clean, and fresh iff nothing unspent is visible there; nothing else has changed |
| `CoinsView.ModifyOpens` | src/coins.cpp:99-118 | the entry of a modifier is dirty and has the coins visible before; one that had to be made is fresh iff the base shows none |
| `CoinsView.NeverMisapplied` | src/coins.cpp:210-215 | under the cache invariant the "FRESH flag misapplied" exception is unreachable and Flush succeeds |
| `CoinsView.FlushMovesView` | src/coins.cpp:188-250 | after Flush the base shows exactly what the flushed cache showed, and so does the cache |
| `CoinsView.FlushKeepsInv` | src/coins.cpp:188-250 | Flush keeps FRESH => base pruned, not DIRTY => agrees with base, at every layer |
| `CoinsView.FlushedEntry` | src/coins.cpp:188-240 | what becomes of a dirty entry in the cache below: it is gone iff it is spent and new there, and otherwise there with its coins, dirty, and fresh iff new; new is what was fresh there, or fresh above and unknown there |
| `CoinsView.FlushBestBlock` | src/coins.cpp:245-250 | exactly when the best block survives Flush |
| `CoinsView.FlushPassesBest` | src/coins.cpp:241-250 | the best block the base answers with after Flush: the flushed one; without one a database keeps its own, and a cache asks below |
| `CoinsView.FlushCanLoseBestBlock` | src/coins.cpp:241-250 | a stack on which it does not |
| `CoinsView.ModifyNewCoinsSafe` | src/coins.cpp:134-153 | with nothing unspent visible it neither throws nor breaks the invariant |
| `CoinsView.ModifyNewCoinsNeedsBip30` | src/coins.cpp:134-153 | for a non-coinbase call that condition is also necessary |
| `CoinsView.DuplicateReappears` | src/coins.cpp:134-153 | a stack on which the new coin is taken for fresh and, once spent, the old one is back |
| `CoinsView.CloseTrims` | src/coins.cpp:322-334 | closing a modifier keeps the invariant and changes the view only by trimming the modified coins |
| `CoinsView.StepRefines` | src/coins.cpp:72-334 | every step at any layer does to the visible maps what the plain map model does |
| `CoinsView.RunRefines` | src/coins.cpp:72-334 | for every stack and every run of fetch, read best block, modify, new, write, close, uncache, flush, set best block, push and pop steps: nothing throws, the invariant holds at every layer, and every layer shows the map and answers with the best block of a plain model with one map and one optional name per layer |
| `CoinsViewCache.CoinsViewCache.FetchCoins` | src/coins.cpp:72-88 | the mutable cache does what the value model's Fetch does, layer by layer |
| `CoinsViewCache.CoinsViewCache.ModifyCoins` | src/coins.cpp:99-118 | opens a modifier on the entry the value model prescribes, with its flags |
| `CoinsViewCache.CoinsViewCache.ModifyNewCoins` | src/coins.cpp:134-153 | the same for new coins; exactly when it throws, and that the cache is then as it was |
| `CoinsViewCache.CoinsViewCache.MergeEntries` | src/coins.cpp:188-240 | the merge loop, in any iteration order, gives the order-free merged map or the exception |
| `CoinsViewCache.CoinsViewCache.BatchWrite` | src/coins.cpp:188-243 | merge and best block; throws iff a dirty fresh entry of the child meets unspent coins here |
| `CoinsViewCache.CoinsViewCache.SetBestBlock` | src/coins.cpp:184-186 | names the best block and changes nothing else |
| `CoinsViewCache.CoinsViewCache.Flush` | src/coins.cpp:245-250 | writes to the base and empties the cache as the value model's Flush |
| `CoinsViewCache.CoinsViewCache.Uncache` | src/coins.cpp:252-259 | drops an entry without flags and nothing else |
| `CoinsViewCache.CoinsModifier.Close` | src/coins.cpp:322-334 | the destructor trims, and erases the entry iff it is fresh and pruned |
| `CheckQueue.Queue.Add` | src/checkqueue.h:149-161 | the queue and nTodo grow by the checks, in 32-bit arithmetic |
| `CheckQueue.Queue.Begin` | src/checkqueue.h:77-120 | the critical section after a batch or on entry: clean-up, then sleep, return or take a batch; the master is notified iff the last work is done |
| `CheckQueue.Queue.LoopHead` | src/checkqueue.h:90-120 | the rest of one critical section of Loop: returns the verdict iff the queue is empty, nothing is outstanding and the thread is the master or told to quit; sleeps on an empty queue otherwise; else takes a batch off the back of the queue, and nothing is lost |
| `CheckQueue.RunBatch` | src/checkqueue.h:121-124 | running a batch with short-circuiting gives the conjunction |
| `CheckQueue.BatchFits` | src/checkqueue.h:105-110 | a batch has at least one check and at most the queue; more than one only within nBatchSize and with as much for every other thread counted; and it is the largest such batch |
| `CheckQueueProtocol.StepInv` | src/checkqueue.h:69-161 | every step of master or worker keeps: nTodo = queued + in flight, idle and total counts exact, the round's verdict spread over fAllOk, queue and batches |
| `CheckQueueProtocol.AddWakes` | src/checkqueue.h:157-160 | a single check wakes a sleeping worker if there is one, several wake all |
| `CheckQueueProtocol.WaitReturnsConjunction` | src/checkqueue.h:69-161 | in every interleaving, with spurious wake-ups and reuse, each Wait returned the conjunction of exactly its round's checks |
| `CheckQueueProtocol.WaitRecorded` | src/checkqueue.h:90-99 | exactly when the master leaves the loop its Wait is over: nothing is outstanding, the verdict on exactly this round is recorded and the next round starts clean |
| `CheckQueueProtocol.NoLostWakeUp` | src/checkqueue.h:78-104 | a master asleep without a signal means that some worker holds an unfinished batch |
| `CheckQueueProtocol.NoDeadlock` | src/checkqueue.h:69-127 | while the master waits, some thread can make progress |
| `CheckQueueProtocol.WaitTerminates` | src/checkqueue.h:69-127 | Wait ends after a bounded number of productive steps, whatever the schedule |
| `AddrManInvariant.MakeTriedInv` | src/addrman.cpp:142-188 | moving an entry to the tried table keeps all five indexes consistent |
| `AddrManInvariant.MakeTriedTables` | src/addrman.cpp:142-188 | exactly which slots change, including the evicted entry's return to the new table |
| `AddrManInvariant.MakeTriedKeeps` | src/addrman.cpp:142-188 | exactly which entry can disappear |
| `AddrManInvariant.ClearNewKeeps` | src/addrman.cpp:127-140 | only the slot's holder can be deleted, and only with its last reference |
| `AddrManInvariant.GoodNeverBailsOut` | src/addrman.cpp:219-234 | a new entry is always found in a bucket, so that the bail-out is unreachable |
| `AddrManInvariant.GoodInv` | src/addrman.cpp:190-240 | Good_ keeps the invariant |
| `AddrManInvariant.AddInv` | src/addrman.cpp:242-313 | Add_ keeps the invariant |
| `AddrManInvariant.AddAnswer` | src/addrman.cpp:242-313 | the answer is true iff the address is routable and was unknown |
| `AddrManInvariant.AddKeepsIff` | src/addrman.cpp:291-312 | a new address is kept iff its slot is free or the holder is terrible or referenced elsewhere |
| `AddrManInvariant.AnsweredNotKept` | src/addrman.cpp:291-312 | a manager and an address on which the answer is true and nothing is kept |
| `AddrManInvariant.GetAddrSpec` | src/addrman.cpp:462-481 | only the random order changes; the sample has different entries that are not terrible, and all of them if it has fewer than the limit |
| `AddrManInvariant.EveryRunConsistent` | src/addrman.cpp:81-519 | from a new manager every run of Add, Good, Attempt, Connected, SetServices and GetAddr with positive times meets every assert and keeps the full invariant |
| `AddrManTables.AddressManager.MakeEntryTried` | src/addrman.cpp:142-188 | the loops over the bucket arrays do what the value model does |
| `AddrManTables.AddressManager.GoodService` | src/addrman.cpp:190-240 | likewise |
| `AddrManTables.AddressManager.AddAddress` | src/addrman.cpp:242-313 | likewise, with the answer |
| `AddrManTables.AddressManager.GetAddresses` | src/addrman.cpp:462-481 | likewise, with the sample |
| `AddrManTables.AddressManager.AttemptService` | src/addrman.cpp:315-335 | likewise; the time is recorded, and a failure counts iff it is to be counted and none was since the last success of the manager |
| `AddrManCheck.CheckTried` | src/addrman.cpp:424-436 | the walk ends well iff every tried entry is in its slot and nothing else is |
| `AddrManCheck.CheckNew` | src/addrman.cpp:438-449 | the walk ends well iff new slots hold new entries at their positions and reference counts count slots |
| `AddrManCheck.Check` | src/addrman.cpp:385-459 | returns zero iff everything it tests is right and the key is not null; the lookups supply id 0 for missing addresses, on success only for entry 0 |
| `AddrManCheck.PassesIffInv` | src/addrman.cpp:385-459 | the invariant is exactly what Check_ tests together with what it does not look at |
| `AddrManCheck.StalePasses` | src/addrman.cpp:385-459 | a state that passes and is not consistent |
| `AddrManStream.Refused` | src/addrman.h:359-377 | a stream with another key length, or with more entries than slots, is refused |
| `AddrManStream.LoadedFields` | src/addrman.h:351-366 | whatever is read, the key is the stream's and the last success is set back |
| `AddrManRoundTrip.SizesFit` | src/addrman.h:371-377 | counters of a consistent manager pass the limits of Unserialize |
| `AddrManRoundTrip.RenumberedInv` | src/addrman.h:351-454 | a renumbered consistent manager is consistent |
| `AddrManRoundTrip.RoundTrip` | src/addrman.h:301-454 | reading a consistent manager's stream into a new one restores entries, bucket membership, tried slots and counters up to ids; nothing collides or is pruned |
| `AddrManAnyStream.LoadsIff` | src/addrman.h:351-454 | every stream without repeated addresses, of any version and bucket count, is read unless it ends too early, and no assert fails; the manager is then consistent iff the counters are not negative, no kept entry has a negative time of success and every kept tried entry has one |
| `AddrManAnyStream.NeverSucceeded` | src/addrman.h:403-422 | a stream with a tried entry without a success, which is read into a manager that is not |
| `AddrManSurvivors.SurvivesIff` | src/addrman.h:379-450 | on every such stream of another version or bucket count: an entry comes through, with what is stored of it, iff none listed before it in its table has the same slot; and nothing else is there |
| `AddrManSurvivors.ForeignFormatLoads` | src/addrman.h:384-392 | what a consistent manager writes, under any version byte and bucket count, is read iff the count is at most 1024, into a consistent manager; unless both are our own, all tried entries come back and a new one does iff none with a smaller id has its home slot |
| `AddrManHistory.AddHistory` | src/addrman.cpp:242-313 | announcements change nobody's record of attempts and successes; the one entry they can create has none |
| `AddrManHistory.AddKnownGrows` | src/addrman.cpp:252-268 | announcing a known address never takes services away nor moves its time back |
| `AddrManHistory.GoodHistory` | src/addrman.cpp:190-240 | a success is remembered by its entry, in the tried table then, and by the manager; nobody else's record changes |
| `AddrManHistory.ConnectedTime` | src/addrman.cpp:483-501 | after a contact the stored time is at most twenty minutes behind it, and has not moved back |
| `AddrManHistory.AttemptRecorded` | src/addrman.cpp:315-335 | exactly what an attempt changes, and that it changes nothing for an unknown service |
| `AddrManHistory.RunCountsOnce` | src/addrman.cpp:315-335 | over every run of operations without a success an entry that stays has exactly one failure more iff the run has one to be counted for it and none was counted since the last success; and what the run makes of the times of its last tries |
| `AddrManBook.StepRefines` | src/addrman.cpp:127-519 | every operation on the five indexes is one on a plain book, a map from addresses to cards with the slots each is listed in: who gets a slot, who loses it, who is forgotten or moved, and every field of every card |
| `AddrManBook.RunRefines` | src/addrman.cpp:127-519 | so is every run, from any consistent manager |
| `AddrManBook.EmptyBook` | src/addrman.h:456-488 | a new manager is the empty book |
| `AddrManBook.Terrible` | src/addrman.cpp:33-51 | an entry is terrible iff its card is hopeless: not tried within a minute, and with no time, ten minutes ahead or thirty days old, or failed three times without ever answering, or ten times and silent for a week |
| `AddrManBook.SampleIs` | src/addrman.cpp:462-481 | a sample has exactly the smaller of the limit and the number of entries that are not terrible, all different, each as its card has it; taking it leaves the book as it is |
| `AddrManBook.LimitIs` | src/addrman.cpp:464-466 | the limit is the largest number that is at most 23 percent of the entries and at most 2500 |
| `AddrManBook.AnyoneDrawn` | src/addrman.cpp:469-480 | for every entry that is not terrible there are draws that put it first |
| `AddrManBook.SavedBook` | src/addrman.h:301-454 | a manager that is written and read again has the same book but for the times of the last tries and of the last success |
| `PackageTracking.UpdatedTracked` | src/miner.cpp:360-385 | after a package is selected, records never under-count what is left of a package nor exceed the cached totals, and are exact for entries that have not failed, but for the fee deltas of selected ancestors other than the one that made the record |
| `FeeRates.FeesExactIff` | src/miner.cpp:373-381 | a record's fees are those of what is left of the package iff the deltas of its selected ancestors cancel out but for the one that made it |
| `FeeRates.FavourIsInherited` | src/miner.cpp:373-381 | a pool in which they do not, whichever ancestor comes first: the child of two favoured ancestors is recorded with 910 where it pays 10 |
| `FeeRates.BetterTransitive` | src/miner.h:76-86 | the cross-multiplied comparison of rates is transitive for positive sizes |
| `FeeRates.BestExists` | src/miner.h:107-113 | so every set of candidates has a best one |
| `FeeRates.GetFeeIs` | src/amount.cpp:24-39 | rate times size over 1000, rounded down, but at least one for a positive rate and size |
| `FeeRates.NoneBetter` | src/miner.cpp:494-497 | if the best candidate pays less than GetFee asks, every other pays less than the minimum rate |
| `BlockAssembler.Assembler.constructor` | src/miner.cpp:81-112 | both limits from the two options, exactly, clamped below the consensus limits; sizes are counted iff they can bind |
| `BlockAssembler.Assembler.TestForBlock` | src/miner.cpp:282-332 | true iff weight, sigops and, if counted, size stay below the limits and the transaction is final; exactly when the block is flagged as finished and the last few are counted |
| `BlockAssembler.Assembler.AddToBlock` | src/miner.cpp:334-358 | keeps the block sound: parents first, no duplicates, exact totals within limits |
| `BlockAssembler.Assembler.IsStillDependent` | src/miner.cpp:224-233 | true iff a parent is missing from the block |
| `BlockAssembler.Assembler.TryPriority` | src/miner.cpp:600-616 | a candidate is added iff it is ready, and told to wait iff it may go into the block but for a missing parent |
| `BlockAssembler.Assembler.PriorityLoop` | src/miner.cpp:569-633 | every transaction selected was ready (parents in the block, admissible, within all limits) and of all ready ones none had a higher priority; after each but the last there was room in the part for priorities and its priority was above the threshold; and why it ended: nothing ready is left, the block is nearly full, that part is full, or the last priority was too low |
| `BlockAssembler.Assembler.AddPriorityTxs` | src/miner.cpp:555-635 | that loop under the smaller of the two size limits, with sizes counted meanwhile; nothing if it is zero |
| `BlockSelection.AllowFree` | src/txmempool.h:47-57 | priorities above 57600000 |
| `BlockAssembler.Assembler.TestPackage` | src/miner.cpp:248-256 | iff the bounds on weight and sigops hold |
| `BlockAssembler.Assembler.TestPackageTransactions` | src/miner.cpp:263-280 | iff all are admissible and fit together in size |
| `BlockAssembler.Assembler.Choose` | src/miner.cpp:455-479 | of the next pool entry and the best modified one, a candidate than which none has a better recorded rate |
| `BlockAssembler.Assembler.UpdatePackagesForAdded` | src/miner.cpp:360-385 | the nested loops, in any order, give the order-free update of sizes and sigops, and of fees up to which ancestor made a record |
| `BlockAssembler.Assembler.SortForBlock` | src/miner.cpp:404-413 | an arrangement of the package by ancestor count |
| `BlockAssembler.ParentsFirst` | src/miner.cpp:404-413 | in that order every parent is in the block or earlier in the package |
| `BlockAssembler.Assembler.TryPackage` | src/miner.cpp:487-552 | a package goes in, whole, iff it passes the tests on its record, and records stay right; one that does not was rejected on its merits |
| `BlockAssembler.Assembler.AddPackageTxs` | src/miner.cpp:425-553 | terminates by (unselected, unvisited, modified), meets the in-block assert and keeps the block sound; what it adds is a list of packages, each of which had the best recorded rate of all that were not rejected, pays at least the minimum fee and passed the tests; if it ran to its end every transaction left out was rejected on its merits when the block was some prefix of what it is now; if it stopped at a cheap package every other one left pays less than the minimum rate too; it gives up iff the block is within 4000 of its weight and 1001 packages in a row were too big |
| `BlockAssembler.CreateNewBlock` | src/miner.cpp:132-222 | the whole block is sound for its limits, first the selection by priority and then the packages, the coinbase claims subsidy plus exactly its fees, and what was left out was left out for one of those reasons |
| `PackageRetry.FailedFailsAgain` | src/miner.cpp:387-402 | a package that failed on its record fails again on its cached totals, however the block has grown |
| `PackageRetry.StaysRejectedIff` | src/miner.cpp:499-533 | on its real totals, exactly when a rejected package stays rejected as the block grows |
| `PackageRetry.RejectedStays` | src/miner.cpp:499-533 | it does if the ancestors selected since weigh four times their sizes |
| `PackageRetry.FitsLater` | src/miner.cpp:248-256 | a pool and limits with a package that is rejected and fits once its parent is in |
| `MergedMining.CheckMerkleBranch` | src/auxpow.cpp:189-206 | the loop climbs the branch by the bits of the index; zero for index -1 |
| `MergedMining.BranchClimbs` | src/auxpow.cpp:189-206 | from every leaf of every list its branch climbs to the Merkle root |
| `MergedMining.ClimbCollision` | src/auxpow.cpp:189-206 | different leaves with one root at one index exhibit a collision |
| `MergedMining.ExpectedIndexAnyWidth` | src/auxpow.cpp:163-187 | the index is the same in 32-bit, 64-bit or any wider arithmetic |
| `MergedMining.SlotNumbers` | src/auxpow.cpp:163-187 | the index in closed form, with its numbers |
| `MergedMining.SlotsClashIff` | src/auxpow.cpp:163-187 | two chains get the same slot, whatever the nonce, iff their ids agree modulo the number of slots |
| `MergedMining.ValidIff` | src/auxpow.cpp:80-161 | the check accepts exactly the proofs that commit, in the place and with the header, size, nonce and branches required |
| `MergedMining.GenuineAccepted` | src/auxpow.cpp:80-161 | completeness: the proof made from any tree of blocks, any block of transactions led by the coinbase and the committing script is accepted |
| `Hashing.BigEndianAt` | src/auxpow.cpp:94-97 | the commitment has the bytes of the root highest first |
| `MergedMining.SameOffsetSameBlock` | src/auxpow.cpp:80-161 | two proofs with one coinbase script and one offset are for one block, or a collision is exhibited |
| `MergedMining.SameCoinbaseSameBlock` | src/auxpow.cpp:80-161 | with the merged-mining header in the script the offset is forced, so one coinbase proves one block of a chain |
| `MergedMining.WithoutHeaderEarly` | src/auxpow.cpp:131-138 | without the header the commitment starts in the first 21 bytes |
| `MergedMining.AtMost21PerScript` | src/auxpow.cpp:131-138 | of 22 valid proofs with one script and no header two are for one block, or a collision is exhibited |
| `MergedMining.SameParentSameBlock` | src/auxpow.cpp:80-161 | one parent block proves one block, or a collision of nodes or ids is exhibited, or, at different tree depths, a transaction whose id is the hash of two nodes |
| `MergedMining.InitAuxPowValid` | src/auxpow.cpp:208-244 | exactly when the minimal proof passes the check |
| `MergedMining.HashWithHeader` | src/auxpow.cpp:208-244 | a block hash for which it does not |
| `MerkleTree.NodeHashUp` | src/merkleblock.cpp:61-76 | node hashes commute with going up a level |
| `MerkleTree.TopIsRoot` | src/merkleblock.cpp:61-76 | the top node is the level-by-level Merkle root |
| `PartialMerkle.ExtractGenuine` | src/merkleblock.cpp:96-132 | on any flags and hashes: if a subtree's hash is right, its matches are list entries at their indexes, or a collision is exhibited |
| `PartialMerkle.ExtractMatchesSound` | src/merkleblock.cpp:150-181 | extraction arriving at the list's root found only entries of the list, in order, or a collision is exhibited |
| `PartialMerkle.SuccessUsesAll` | src/merkleblock.cpp:150-181 | a successful extraction has used every hash and all flags but less than a byte of padding, within the limits |
| `PartialMerkleRoundTrip.ReadBack` | src/merkleblock.cpp:78-132 | extracting a built subtree gives its hash and matches and stops right behind it; it is bad iff siblings above a match are equal |
| `PartialMerkleRoundTrip.BuildAtMostLeaves` | src/merkleblock.cpp:78-94 | at most one hash per leaf |
| `PartialMerkleRoundTrip.BuildAtMostPaths` | src/merkleblock.h:40-40 | at most 1 + matches * height hashes |
| `PartialMerkleRoundTrip.BuildFlags` | src/merkleblock.h:47-47 | the exact number of flag bits |
| `PartialMerkleRoundTrip.MoreFlagsThanStated` | src/merkleblock.h:47-47 | three leaves, the last matched: four flags for two hashes |
| `PartialMerkleSize.StatedSizeIff` | src/merkleblock.h:31-48 | exactly when the stated size is kept |
| `PartialMerkleSize.StatedSizeKept` | src/merkleblock.h:31-48 | in particular with at most one single child and 65535 hashes |
| `PartialMerkleSize.AllMatched` | src/merkleblock.cpp:78-94 | with all leaves matched: a hash per leaf, and the number of single children by the number of leaves |
| `PartialMerkleSize.StatedSizeExceeded` | src/merkleblock.h:31-48 | 1028 matched transactions take one byte more than stated |
| `PartialMerkleRoundTrip.RoundTrip` | src/merkleblock.cpp:134-181 | build, pack, unpack, extract: root and exactly the matches in order, or failure iff siblings above a match are equal |
| `PartialMerkleTree.Tree.TraverseAndBuild` | src/merkleblock.cpp:78-94 | appends exactly the subtree's flags and hashes |
| `PartialMerkleTree.Tree.TraverseAndExtract` | src/merkleblock.cpp:96-132 | moves cursors, matches and the bad flag as the specification |
| `PartialMerkleTree.Tree.ExtractMatchesInto` | src/merkleblock.cpp:150-181 | all early failures and final checks; the caller's index list is appended to |
| `PartialMerkleTree.TreeHeight` | src/merkleblock.cpp:139-142 | the loop finds the height at which one node is left |
| `BitPacking.Pack` | src/merkleblock.h:100-102 | every flag at its bit, padding clear |
| `BitPacking.UnpackedPacking` | src/merkleblock.h:91-104 | unpacking gives the flags and less than a byte of padding |
| `ArithUint256.AddAssign` | src/arith_uint256.h:135-145 | addition modulo 2^256, also of a number to itself |
| `ArithUint256.SubAssign` | src/arith_uint256.h:147-151 | subtraction modulo 2^256 |
| `ArithUint256.Negate` | src/arith_uint256.h:77-84 | the additive inverse |
| `ArithUint256.Increment` | src/arith_uint256.h:173-180 | the carry chain adds one modulo 2^256 |
| `ArithUint256.Decrement` | src/arith_uint256.h:190-197 | the borrow chain subtracts one modulo 2^256 |
| `ArithUint256.MulWordAssign` | src/arith_uint256.cpp:56-65 | multiplication by a word, no 64-bit overflow |
| `ArithUint256.ColumnFits` | src/arith_uint256.cpp:73-79 | a column of the schoolbook multiplication fits 64 bits and its carry 32 |
| `ArithUint256.MulAssign` | src/arith_uint256.cpp:68-81 | product modulo 2^256 unless both operands are the same object, and then zero |
| `ArithShift.ShiftLeftAssign` | src/arith_uint256.cpp:22-36 | multiplication by a power of two modulo 2^256, for every shift |
| `ArithShift.ShiftRightAssign` | src/arith_uint256.cpp:39-53 | floor division by a power of two, for every shift |
| `ArithDivide.CompareTo` | src/arith_uint256.cpp:110-119 | the sign of the difference |
| `ArithDivide.Bits` | src/arith_uint256.cpp:172-183 | the highest set bit plus one |
| `ArithDivide.DivLoop` | src/arith_uint256.cpp:97-106 | shift and subtract keeps quotient * divisor + rest and ends at the floor |
| `ArithDivide.DivAssign` | src/arith_uint256.cpp:84-107 | floor division; refused iff the divisor is zero |
| `CompactTarget.DecodeExact` | src/arith_uint256.cpp:204-222 | the overflow flag is set iff mantissa * 256^(exponent - 3) does not fit, and otherwise that is the value; the sign counts unless the mantissa is zero |
| `CompactTarget.DecodeEncode` | src/arith_uint256.cpp:204-245 | decoding an encoded number gives its rounding, its sign and no overflow |
| `CompactTarget.RoundedClose` | src/arith_uint256.cpp:224-245 | the rounding is down by less than one unit of the mantissa |
| `CompactTarget.EncodeIdempotent` | src/arith_uint256.cpp:204-245 | encoding what was decoded gives the same word |
| `CompactTarget.ProofFormula` | src/chain.cpp:158-162 | ~t / (t + 1) + 1 is 2^256 / (t + 1) |
| `CompactTarget.ProofIs` | src/chain.cpp:150-163 | zero iff the target is negative, too large or zero; else the largest number whose product with target + 1 is at most 2^256 |
| `BlockProof.SetCompact` | src/arith_uint256.cpp:204-222 | the limb version decodes |
| `BlockProof.GetCompact` | src/arith_uint256.cpp:224-245 | the limb version encodes, and its asserts hold |
| `BlockProof.GetBlockProof` | src/chain.cpp:150-163 | floor(2^256 / (target + 1)) for every valid target, else zero |
| `Chain.BlockIndex.constructor` | src/chain.cpp:144-148 | a linked block has a right skip pointer, and one there is unless it is the root |
| `SkipWalks.StepsBound` | src/chain.cpp:99-137 | from any height, going back up to 2^k blocks along skip pointers takes at most Most(k) steps |
| `SkipWalks.Most18` | src/chain.cpp:107-110 | for 2^18 blocks that is 110, the number the source gives from simulations |
| `SkipWalks.MostQuadratic` | src/chain.cpp:107-110 | in general it is at most a quarter of (k + 4)^2 |
| `Chain.BlockIndex.GetAncestor` | src/chain.cpp:113-137 | the ancestor along skip pointers is the one by predecessors, null iff there is none; with all skip pointers built it is found within those numbers of steps |
| `Chain.ActiveChain.SetTip` | src/chain.cpp:41-51 | stopping early still gives the whole path to the tip |
| `Chain.ActiveChain.FindFork` | src/chain.cpp:81-90 | the highest block that is on both, or null iff none is |
| `Chain.ActiveChain.GetLocator` | src/chain.cpp:53-79 | the hashes at exactly the locator's heights |
| `Chain.LocatorDescends` | src/chain.cpp:53-79 | heights go strictly down from the block to the root |
| `Chain.LocatorBounds` | src/chain.cpp:53-79 | at most 42 entries, within the limit of 101; exactly when the step stays within 32 bits |
| `BitPlanes.Wiped` | src/bloom.cpp:256-265 | the masked wipe clears exactly the cells of one generation |
| `RollingBloom.WipeExpected` | src/bloom.cpp:251-266 | starting an epoch removes the epoch three before and nothing younger |
| `RollingBloom.RollingBloomFilter.Insert` | src/bloom.cpp:249-277 | every cell's tag is that of the last epoch that wrote it, if one of the latest three |
| `RollingBloom.RollingBloomFilter.Contains` | src/bloom.cpp:285-297 | true iff no cell of the key is empty, and true for each of the last nElements keys |
| `RollingBloom.RecentKeysFound` | src/bloom.cpp:217-297 | no false negatives among the last nElements keys, for every history since the reset |
| `CuckooCache.Cache.LocsAre` | src/cuckoocache.h:218-228 | an element has eight places, the k-th by the k-th hash |
| `CuckooCache.Cache.EpochCheck` | src/cuckoocache.h:264-296 | erases nothing or exactly the older epoch, and leaves room for an insertion within the bound |
| `CuckooCache.Cache.Insert` | src/cuckoocache.h:368-416 | kept elements after the epoch check plus the new one, less at most one, and none if one of the element's places is free; all in their places; a new element is of the current epoch; live current-epoch elements within epoch_size + max(1, epoch_size / 16) |
| `CuckooCache.Cache.Cuckoo` | src/cuckoocache.h:382-415 | moving elements on conserves them but for the last in hand; an element with room goes there and nothing else changes; without room it takes its second place, with one try the element there is lost, with two or more it is not if it has room itself, and then only those two slots change |
| `CuckooCache.Cache.Place` | src/cuckoocache.h:382-412 | one try: settles iff there is room, otherwise takes the place after the last one looked at and hands out what was there with its epoch |
| `CuckooCache.Cache.Contains` | src/cuckoocache.h:443-453 | finds exactly what is in one of its places, and on request gives up that slot only |
| `CuckooCache.KeptIsPlaced` | src/cuckoocache.h:443-453 | every kept element is found |
| `CollectionFlags.Flags.BitSet` | src/cuckoocache.h:92-95 | sets one flag and no other |
| `CollectionFlags.Flags.BitUnset` | src/cuckoocache.h:103-106 | clears one flag and no other |
| `Varint.ReadWrite` | src/serialize.h:316-345 | reading gives a number back, or the low seven bits of a negative one |
| `Varint.WriteVarInt` | src/serialize.h:316-331 | the buffer loop writes that encoding |
| `Varint.ReadVarInt` | src/serialize.h:333-345 | the loop in an unsigned type of any width reads the number modulo that width |
| `AmountCompression.DecompressCompress` | src/compressor.cpp:142-185 | every amount is restored |
| `AmountCompression.CompressDecompress` | src/compressor.cpp:142-185 | every code is an amount's code |
| `AmountCompression.CompressFits` | src/compressor.cpp:142-159 | no money amount of this chain overflows 64 bits |
| `AmountCompression.CompressAmount` | src/compressor.cpp:142-159 | the loop computes the code |
| `AmountCompression.DecompressAmount` | src/compressor.cpp:161-185 | the loop gives the amount modulo 2^64 for every code |
| `CoinsCodec.ReadMaskBack` | src/coins.h:197-207 | counting non-zero bytes reads exactly the mask |
| `CoinsCodec.RoundTrip` | src/coins.h:157-217 | every trimmed, unpruned CCoins with valid amounts is restored from its bytes through 32- and 64-bit fields, except that negative version and height are cut and scripts are what their codec makes of them |
| `CoinsCodec.SurvivesIff` | src/coins.h:157-217 | it survives iff version and height are non-negative 32-bit numbers and the codec returns every unspent script |
| `CoinsCodec.NegativeVersionLost` | src/coins.h:157-217 | version -1 comes back as 127 |
| `ScriptCompression.ScriptReturns` | src/compressor.cpp:13-130 | all special forms and the plain one: a script comes back as it was, or as OP_RETURN if it is longer than 10000 bytes |
| `ScriptCompression.StoredSurvivesIff` | src/compressor.h:55-90 | with this codec a stored CCoins survives iff version and height are non-negative 32-bit numbers and no unspent script is longer than 10000 bytes |
| `ScriptCompression.LongScriptLost` | src/compressor.h:80-84 | a coin with a script of 10001 bytes comes back with OP_RETURN |
| `CoinsStream.CalcMaskSize` | src/coins.cpp:17-33 | mask bytes up to the last non-zero one, and how many are non-zero |
| `CoinsStream.Serialize` | src/coins.h:157-183 | the loops write the specified bytes and the assert holds |
| `CoinsStream.Unserialize` | src/coins.h:186-217 | the loops read any bytes as specified, with 32-bit fields and 64-bit amounts |
| `CompactBlocks.PlacedFree` | src/blockencodings.cpp:62-78 | accepted prefilled transactions take different slots and leave one for every short id |
| `CompactBlocks.SlotsFit` | src/blockencodings.cpp:85-90 | exactly when slot numbers fit 16 bits |
| `CompactBlocks.EndlessSearch` | src/blockencodings.cpp:85-90 | a message that passes all tests and on which every offset of the search is taken |
| `CompactBlocks.PartiallyDownloadedBlock.MapShortIds` | src/blockencodings.cpp:85-103 | does not end iff there are 65536 prefilled transactions and a short id; fails iff a bucket is too full; otherwise the i-th short id goes to the i-th free slot |
| `CompactBlocks.PartiallyDownloadedBlock.TakeFromPool` | src/blockencodings.cpp:108-136 | what the pool's transactions seen do to every slot, and that the counter counts the filled ones; it stops early only when that is the number of short ids |
| `CompactBlocks.PartiallyDownloadedBlock.TakeFromExtra` | src/blockencodings.cpp:138-168 | likewise for the extra transactions; both counters change by the same |
| `CompactBlocks.PartiallyDownloadedBlock.InitData` | src/blockencodings.cpp:50-173 | exactly when it answers OK and invalid and when it does not return; a slot then holds the first candidate for it iff that is the only one of the pool and all extra ones for it have its witness hash, nothing if there are others, and what was prefilled if there is none; if short ids tell the block from pool and extras, everything filled in is the block's, and all of the block that was at hand is filled in |
| `CompactBlocks.FillRestores` | src/blockencodings.cpp:184-205 | with the missing transactions in order the block is complete |
| `CompactBlocks.PartiallyDownloadedBlock.FillBlock` | src/blockencodings.cpp:184-229 | fills free slots in order; every error and the state left behind, with what was moved out when transactions run short |
| `CompactBlocks.FillEnough` | src/blockencodings.cpp:193-201 | filling succeeds iff there is a transaction for every free slot |
| `CompactBlocks.RetryNeedsMore` | src/blockencodings.cpp:193-201 | how many free slots there are after a failure |
| `CompactBlocks.AnnounceEncodes` | src/blockencodings.cpp:20-30 | the announced form stands for the block |
| `CompactBlocks.Exchange` | src/blockencodings.cpp:20-229 | announce, start, request, fill: exactly when the start succeeds; then the receiver has exactly the block, and nothing that was at hand is requested |
| `RequestIndexes.RoundTrip` | src/blockencodings.h:38-68 | indexes survive iff strictly increasing, otherwise reading fails |
| `RequestIndexes.AcceptedIncreasingIff` | src/blockencodings.h:42-61 | on any stream: an accepted list has a 16-bit index for every gap and is strictly increasing iff the largest index comes at most at its end |
| `RequestIndexes.NotIncreasingAccepted` | src/blockencodings.h:55-60 | gaps that are read as the list 65535, 0 |
| `RequestIndexes.WriteIndexes` | src/blockencodings.h:63-66 | the loop writes the gaps |
| `RequestIndexes.ReadIndexes` | src/blockencodings.h:42-61 | the chunked loop and the sum in place read them |
| `Radix.ConvertBack` | src/base58.cpp:21-109 | changing base and back, leading zeros included, is the identity, for any two bases |
| `Base58.EnoughDigits` | src/base58.cpp:80-81 | 58^138 >= 256^100 |
| `Base58.EnoughBytes` | src/base58.cpp:34-35 | 256^733 >= 58^1000 |
| `Base58.SizeSuffices` | src/base58.cpp:34-81 | so both buffer sizes suffice for every length |
| `Base58.MulAdd` | src/base58.cpp:42-51 | multiply and add in place; the carry ends at zero |
| `Base58Codec.EncodeBase58` | src/base58.cpp:71-109 | the loops compute the change of base in the alphabet |
| `Base58Codec.DecodeBase58` | src/base58.cpp:21-69 | likewise back, with spaces around and every error |
| `Base58Codec.DecodeEncode` | src/base58.cpp:21-109 | every byte string survives |
| `Base58Codec.EncodeDecode` | src/base58.cpp:21-109 | every text of the alphabet survives |
| `Base58Codec.Accepted` | src/base58.cpp:21-109 | every accepted text is a word of the alphabet between spaces, and that word is the encoding of what it decodes to |
| `Base58Codec.CheckedRoundTrip` | src/base58.cpp:121-145 | with a checksum: what was encoded is accepted, and what is accepted, apart from spaces around it, was encoded |

## Left out

- Sockets, RPC, wallet, keys, scripts, databases, start-up and configuration: plumbing around the modelled core.
- `CCoinsViewCache`: memory usage counters; they depend on the allocator.
- `CoinsView.FlushMovesView`: Flush is only considered without an open modifier on the flushed cache, as its callers ensure.
- `CheckQueue.Queue.Add`: a round has fewer than 2^32 checks; checks that throw and the never-set fQuit are not considered.
- `AddrMan`: Select_ and GetChance (probabilities), bytes of the stored form (its fields are the stream's elements; the loops of Serialize and Unserialize are modelled on values), and overflow of the id counter.
- `AddrManRoundTrip.RoundTrip`: reads into a new manager, because Clear leaves mapInfo and mapAddr as they are.
- `AddrManAnyStream.LoadsIff`: likewise into a new manager; with repeated addresses the map of addresses does not fit the entries.
- `AddrManSurvivors.SurvivesIff`: for our own format what survives depends on the places listed; RoundTrip says it for what a manager writes.
- `BlockAssembler.CreateNewBlock`: header fields, the coinbase itself and TestBlockValidity; priorities are real numbers and fee rates are compared exactly, instead of in double precision; among equals the choice is left open.
- `Mempool`: the pool's own bookkeeping is a hypothesis on the pool (acyclic, exact ancestor totals, sizes positive, weight at most four times size).
- `PartialMerkleTree.Tree.FromMatches`: the list is not empty, as the source presumes, and its length fits 32 bits.
- `ArithUint256`: hexadecimal text, conversion to double and the bitwise operators.
- `Chain.ActiveChain.GetLocator`: the step is unbounded; LocatorBounds says when that agrees with 32 bits.
- `RollingBloom`: how false positive rates give the numbers of bits and hash functions.
- `CuckooCache`: concurrent erasure; flags are a sequence there and packed bits in CollectionFlags.
- `ScriptCompression.StoredSurvivesIff`: scripts have less than 4 GB; the elliptic curve is a parameter, of which it is required that a valid key is got back from its parity and first coordinate.
- `CoinsCodec.RoundTrip`: fewer than 2^32 - 16 outputs, so that their number fits the 32-bit indexes of the source; overflow of signed fields is taken to wrap.
- `CompactBlocks.PartiallyDownloadedBlock.MapShortIds`: the bucket sizes of the hash map are a parameter.
- `Base58Codec.DecodeBase58`: the text is that of a C string; the std::string overloads pass `c_str()`, so that a text is cut at an embedded NUL (src/base58.cpp:116-119, 147-150). Digits are read before they are added up, not in turn; the result is the same.
- BIP 37 filters, mempool internals, chain selection and script verification are not part of this model.

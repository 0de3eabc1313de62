# Verified models of the node's core data structures

This project models the parts of the node that other code relies on without
looking inside, and proves what they promise over every input, every run or
every reachable state. Each part follows the form of the code: state machines
for the protocol, classes with in-place updates for the mutable structures,
functions for pure computation.

- **Parallel check queue** (`CheckQueue`): a step system with one step per
  critical section; safety, conservation, absence of lost wake-ups, progress.
- **Coin cache stack** (`CoinLayers`, `CoinStack`, `CoinsViews`): write-back
  caches with flags refine a stack of plain maps.
- **Address manager** (`AddrTables`, `AddrOps`, `AddrManager`, `AddrEffects`,
  `AddrSpread`, `AddrSampling`, `AddrChecks`, `AddrFile`, `AddrLoading`,
  `AddrSerializer`): five redundant indexes kept consistent by every operation,
  what each call does, what the self-check finds, a save and load round trip, and
  what becomes of an arbitrary file.
- **Block assembler** (`MinerPackages`, `BlockAssembly`): package selection with
  lazily corrected totals.
- **Partial Merkle trees** (`MerkleProofs`, `MerkleTree`, `MerkleRoots`,
  `MerkleSizes`, `MerkleWire`).
- **Block index and chain** (`ChainIndex`, `ChainLocator`).
- **Compact blocks** (`BlockRequests`, `CompactBlocks`, `CompactScan`,
  `CompactDownload`, `CompactExchange`), section "HeaderAndShortIDs" of BIP 152.
- **256-bit arithmetic and proof of work** (`Powers`, `Limbs`, `ArithUint`,
  `CompactTarget`, `ProofOfWork`).
- **Caches** (`CuckooCache`, `RollingBloom`).
- **Text encodings** (`Bech32`, `Bech32Codec`, `Bech32Vectors`, `BchField`,
  `Bech32Errors`, `BchSearch`, `BchClasses`, `Bech32Window`, section "Bech32" of
  BIP 173; `Base58`, `Base58Codec`).

`dafny verify dfyconfig.toml` checks the whole project.

Where the documentation and the code disagree, the code is modelled: the bit
and size remarks for partial Merkle trees (`MerkleSizes.DocumentedBits`,
`MerkleWire.DocumentedSize`) and the comment on the first cuckoo displacement (`CuckooCache.Cache.NextLoc`).

## Model

| member | source | states |
|---|---|---|
| `CheckQueue.WaitCorrect` | src/checkqueue.h:66-124 | For every interleaving of the master and any number of workers, over any sequence of Add and Wait rounds, a Wait returns true exactly when every check added since the previous Wait passes, and leaves the queue as unused: no batch or verdict reaches the next round |
| `CheckQueue.CountersExact` | src/checkqueue.h:75-117 | In every reachable state the to-do count is the queued checks plus those held in unretired batches, every check added this round is queued, held or retired exactly once, and each held batch has between one and the batch size of checks |
| `CheckQueue.SleepingMasterHasHelper` | src/checkqueue.h:77-100 | A master asleep in Wait always has a worker that still holds a batch and will wake it, so no wake-up is lost |
| `CheckQueue.StepInv` | src/checkqueue.h:66-124 | Every enabled step of any thread keeps the whole protocol invariant |
| `CheckQueue.RunInv` | src/checkqueue.h:66-158 | The invariant holds along every run, and the checks counted for the current round are those added since the last Wait returned |
| `CheckQueue.ReturnVerdict` | src/checkqueue.h:87-96 | Whenever the master is able to return, the verdict it hands out is the conjunction of all checks of the round |
| `CheckQueue.WorkEnabled` | src/checkqueue.h:66-124 | While the master is in Wait some productive step is always possible: the protocol cannot deadlock |
| `CheckQueue.WorkDecreases` | src/checkqueue.h:66-124 | Every productive step strictly decreases a measure of the effort left |
| `CheckQueue.WaitTerminates` | src/checkqueue.h:66-124 | Along any run inside one Wait the productive steps are bounded by the initial effort plus the wake-ups of idle threads, so Wait returns under fair scheduling |
| `CheckQueue.TakeBatchConserves` | src/checkqueue.h:107-114 | Taking a batch from the end of the queue neither loses nor duplicates a check |
| `CheckQueue.FairShare` | src/checkqueue.h:107-114 | A batch is the largest up to the batch size that leaves as much for every thread, idle ones counted twice, and never nothing; it is the newest jobs, newest first |
| `CheckQueue.SharedQueue.Add` | src/checkqueue.h:146-158 | Adding appends exactly the given checks, raises the count by as many, and wakes one thread for one check, all of them for more |
| `CheckQueue.SharedQueue.CleanUp` | src/checkqueue.h:77-85 | Retiring a batch lowers the count, folds in its verdict, and wakes the master exactly when a worker brings the count to zero |
| `CheckQueue.SharedQueue.Take` | src/checkqueue.h:107-116 | The loop that swaps checks out of the queue takes exactly the batch the protocol step prescribes |
| `CheckQueue.RunBatch` | src/checkqueue.h:118-122 | Running a batch gives the conjunction of its checks with the verdict so far |
| `CoinStack.RunRefines` | src/coins.cpp:62-303 | Any stack of caches, under any admissible run of calls at any level, never throws, keeps all flags truthful, and shows at every level exactly the plain map that the same run gives on plain maps |
| `CoinStack.StepRefines` | src/coins.cpp:62-303 | One call at one level, or pushing or dropping a cache, changes the list of visible maps exactly as the specification step does |
| `CoinStack.CallAtRefines` | src/coins.cpp:62-303 | A call on an inner level changes only its own view; calls that only fetch, evict or flush leave the topmost view as it was |
| `CoinStack.CallRefines` | src/coins.cpp:62-303 | Each of the five calls on the topmost cache refines its effect on a plain map |
| `CoinStack.FetchRefines` | src/coins.cpp:62-77 | A fetch that misses may fill caches all the way down, yet no level shows a different coin afterwards |
| `CoinStack.WriteRefines` | src/coins.cpp:223-280 | Writing a truthful child layer into any stack below never throws and makes the stack show the child over what it showed |
| `CoinStack.FlushRefines` | src/coins.cpp:282-294 | After a flush the level below shows what the flushed cache showed, and every other level is unchanged |
| `CoinStack.SpendRefines` | src/coins.cpp:120-134 | Spending removes exactly one outpoint from the topmost view |
| `CoinStack.AddRefines` | src/coins.cpp:88-107 | Adding changes exactly one outpoint of the topmost view, and cannot throw under the caller promise |
| `CoinStack.EvictRefines` | src/coins.cpp:296-303 | Uncaching an entry changes no view at any level |
| `CoinLayers.AddLaw` | src/coins.cpp:88-107 | With the caller promise the overwrite check does not throw, the entry flags stay truthful, and the view gains exactly the coin unless it is unspendable |
| `CoinLayers.AddPromiseNeeded` | src/coins.cpp:88-107 | When the code does not throw, the flags are truthful afterwards if and only if the caller kept the promise: the exact condition for the FRESH flag to be right |
| `CoinLayers.FillLaw` | src/coins.cpp:62-77 | Caching what the base shows changes nothing visible and keeps FRESH meaning that the base has no such coin |
| `CoinLayers.UncacheLaw` | src/coins.cpp:296-303 | Dropping a clean entry changes nothing visible |
| `CoinLayers.SpendLaw` | src/coins.cpp:120-134 | Erasing a FRESH entry and marking another one spent both hide exactly that coin |
| `CoinLayers.SpendCoinLaw` | src/coins.cpp:120-134 | The spent coin handed out is the one that was visible; for a coin that was not visible, success is reported exactly when a spent entry was already cached |
| `CoinLayers.MergeLaw` | src/coins.cpp:223-280 | Merging a truthful child never hits the misapplied-FRESH error, keeps the parent truthful, and makes it show the child over the parent |
| `CoinLayers.StoreLaw` | src/txdb.cpp:163-224 | Writing a truthful layer to the database leaves exactly the layer over the old coins, with no spent coin stored |
| `CoinLayers.FetchUncache` | src/coins.cpp:62-77 | A fetched coin is cached and uncaching undoes exactly the fetch; changed entries cannot be uncached |
| `CoinLayers.ShortLived` | src/coins.cpp:88-134 | A coin created and spent between two flushes leaves the cache as it was: nothing to write |
| `CoinLayers.SpentBeforeWritten` | src/coins.cpp:223-280 | A coin flushed up into a cache that has not written it yet is kept there, and disappears without a trace when spent there or when its spending is flushed up |
| `CoinsViews.CoinsViewDB.GetCoin` | src/txdb.cpp:64-66 | The database answers exactly for the coins it holds |
| `CoinsViews.CoinsViewDB.BatchWrite` | src/txdb.cpp:163-224 | Only dirty entries are written, spent ones as erasures |
| `CoinsViews.CoinsViewCache.FetchCoin` | src/coins.cpp:62-77 | The object stack after a fetch is the fetched model stack; an entry is found exactly when the view or the cache has one |
| `CoinsViews.CoinsViewCache.GetCoin` | src/coins.cpp:79-86 | The returned coin is the one the plain map holds, and none is returned otherwise |
| `CoinsViews.CoinsViewCache.HaveCoin` | src/coins.cpp:147-150 | Presence is presence in the plain map |
| `CoinsViews.CoinsViewCache.AddCoin` | src/coins.cpp:88-107 | Throws exactly on an overwrite of an unspent coin that was declared new; otherwise the object stack takes the model step; under the promise it never throws and stays valid |
| `CoinsViews.CoinsViewCache.SpendCoin` | src/coins.cpp:120-134 | The plain map loses exactly the outpoint and the moved-out coin is the one it held |
| `CoinsViews.CoinsViewCache.Uncache` | src/coins.cpp:296-303 | The object stack takes the eviction step and stays valid |
| `CoinsViews.CoinsViewCache.BatchWrite` | src/coins.cpp:223-280 | Throws exactly when a FRESH child entry meets an unspent parent entry; otherwise the loop over the child gives the merged layer |
| `CoinsViews.CoinsViewCache.Flush` | src/coins.cpp:282-294 | The cache is empty, the base shows what the cache showed, and the visible coins are unchanged |
| `CoinsViews.AddCoins` | src/coins.cpp:109-118 | All spendable outputs of a transaction, and nothing else, become visible |
| `CoinsViews.AddOutputsAt` | src/coins.cpp:109-118 | An outpoint is changed by adding a transaction exactly when it is one of its spendable outputs |
| `AddrChecks.RunInv` | src/addrman.cpp:93-519 | Every run of the manager operations from an empty manager with a non-null key keeps the full invariant: reference counts equal slot occurrences, the random list and positions are inverse, each entry sits only at its own hashed position, and the counters match |
| `AddrChecks.ApplyInv` | src/addrman.cpp:93-519 | Each permitted operation keeps that invariant |
| `AddrChecks.Check_` | src/addrman.cpp:385-459 | The self-check returns zero if and only if the manager is consistent in all it looks at: counters, list and positions inverse, reference counts equal to slot occurrences, both tables at hashed positions, every entry found under its address; in particular a manager that satisfies the invariant passes |
| `AddrChecks.CheckedIff` | src/addrman.cpp:385-459 | Exactly what the self-check misses: with it, ids in range, no stray address, and an address for id 0, the invariant holds, and conversely |
| `AddrChecks.RandomFilled` | src/addrman.cpp:393-419 | When every entry finds itself in a list of as many ids as there are entries, the list holds each id once, at its own place |
| `AddrChecks.CheckEntries` | src/addrman.cpp:393-422 | The first pass finds no fault if and only if every entry has proper counts and times and is found under its address and at its place; it has then collected exactly the tried ids and the reference counts |
| `AddrChecks.CheckTried` | src/addrman.cpp:424-436 | The tried pass succeeds and leaves no id if and only if the tried table holds exactly the tried entries, each at its one hashed position |
| `AddrChecks.CheckNew` | src/addrman.cpp:438-452 | The new pass succeeds and leaves no reference if and only if every slot is its entry at the hashed position and every reference count is the number of its slots |
| `AddrTables.ClearInv` | src/addrman.h:456-475 | An empty manager satisfies the invariant |
| `AddrTables.SwapLoose` | src/addrman.cpp:93-111 | Swapping two list places keeps list and positions inverse and changes no home |
| `AddrTables.CreateLoose` | src/addrman.cpp:81-91 | A created entry is consistent everywhere but has no slot yet |
| `AddrTables.DeleteLoose` | src/addrman.cpp:113-125 | An entry without a slot can be deleted without disturbing any index, and neither assert can fail |
| `AddrTables.ClearNewLoose` | src/addrman.cpp:127-140 | Clearing a new slot frees it, drops one reference, and deletes the entry exactly when that was its last |
| `AddrTables.DetachLoose` | src/addrman.cpp:143-153 | Removing an entry from all its new buckets leaves it with no reference, as the assert demands |
| `AddrTables.EnterTriedLoose` | src/addrman.cpp:183-187 | Storing an entry in its free tried slot completes it |
| `AddrTables.LeaveTriedLoose` | src/addrman.cpp:161-173 | Taking an entry out of its tried slot leaves it without a home and nothing else changed |
| `AddrOps.EvictLoose` | src/addrman.cpp:161-181 | Moving the old occupant of a tried slot back to new keeps the tables consistent and frees exactly that slot |
| `AddrOps.EvictedIsBack` | src/addrman.cpp:161-181 | The evicted entry is back in the new table at its own position with one reference |
| `AddrOps.EvictKeeps` | src/addrman.cpp:161-181 | Eviction touches no entry other than the evicted one and the previous occupant of its new slot |
| `AddrOps.MakeTriedInv` | src/addrman.cpp:142-188 | Moving an entry to tried keeps the invariant and leaves it in tried |
| `AddrOps.MakeTriedEffect` | src/addrman.cpp:142-188 | It ends up at its own tried slot, a previous occupant returns to new with one reference, and every other entry is kept unless it lost the slot the occupant needed |
| `AddrOps.GoodInv` | src/addrman.cpp:190-240 | Marking an address good keeps the invariant and puts a known address in tried |
| `AddrEffects.GoodEffect` | src/addrman.cpp:190-240 | A success resets the failures of the entry of exactly this address and port, stamps it and makes it tried with all else as it was; other ports and unknown addresses change nothing but the time of last success |
| `AddrEffects.PushedOut` | src/addrman.cpp:156-181 | An entry pushed out of the tried table is back at the new slot of its own source |
| `AddrOps.GoodFindsBucket` | src/addrman.cpp:219-236 | An entry that is not tried always has a new bucket holding it, so the bail-out for a missing bucket is dead code |
| `AddrOps.StatisticsInv` | src/addrman.cpp:315-335 | Recording attempts, connections and services keeps the invariant |
| `AddrEffects.AttemptEffect` | src/addrman.cpp:315-335 | An attempt stamps the one entry and counts a failure exactly when asked to and none was counted since the last success anywhere; nothing else changes |
| `AddrEffects.FailureCountsOnce` | src/addrman.cpp:329-334 | A second attempt after one made since the last success of any address counts no further failure |
| `AddrEffects.ConnectedEffect` | src/addrman.cpp:483-501 | The time of last sight moves only by more than twenty minutes, for that entry only |
| `AddrEffects.SetServicesEffect` | src/addrman.cpp:503-518 | Replaces the services of that entry only |
| `AddrEffects.DecentIff` | src/addrman.cpp:33-51 | An entry is worth keeping exactly if tried within a minute, or neither from the future, older than 30 days, thrice failed without success, nor ten times failed with none for a week |
| `AddrOps.PlaceInv` | src/addrman.cpp:291-311 | Placing an entry in a new slot, or deleting it when it got none, keeps the invariant |
| `AddrOps.AddInv` | src/addrman.cpp:242-313 | Adding keeps the invariant and reports a new address exactly when it is routable and was unknown |
| `AddrOps.AddUnknown` | src/addrman.cpp:242-313 | An unknown address is stored if and only if its slot is free or held by an entry that is terrible or has another reference while this one has none |
| `AddrEffects.AddKnown` | src/addrman.cpp:242-313 | Announcing a known address joins the services, takes the announced time less the penalty exactly when it overtakes by the interval, and gives one more reference at the slot of the source exactly when there is news, the entry is in the new table below eight references, the random number is a multiple of two to its references, and the slot is free or held by a terrible entry; otherwise no table and no other entry changes |
| `AddrEffects.AddDisplaces` | src/addrman.cpp:291-304 | The entry that gives way loses one reference, and is gone with its last |
| `AddrEffects.AddFirst` | src/addrman.cpp:283-313 | A first announcement is kept with exactly what it says and one reference, or leaves all tables and entries as they were, exactly by whether its slot is free, terrible or held by an entry with another |
| `AddrEffects.AddUnroutable` | src/addrman.cpp:244-245 | An unroutable address changes nothing |
| `AddrSpread.TriedShare` | src/addrman.h:127-129 | In every consistent manager one address group holds at most 512 tried entries |
| `AddrSpread.TriedBucketOpen` | src/addrman.cpp:12-17 | The tried bucket of an address is one of the at most eight of its group |
| `AddrSpread.NewBucketOpen` | src/addrman.cpp:19-25 | Whatever it announces, one source group reaches at most 64 new buckets |
| `AddrOps.AddKeeps` | src/addrman.cpp:242-313 | Adding touches no entry other than the announced one and the occupant of its slot |
| `AddrOps.SelectSafe` | src/addrman.cpp:337-382 | Whenever a selection scans a table, that table holds a slot whose entry exists, so the scan has something to find |
| `AddrOps.SizeIsSum` | src/addrman.h:491-495 | The list length, the number of entries, and the sum of the two counters are the same |
| `AddrManager.AddrMan.constructor` | src/addrman.h:456-475 | A new manager has the empty value and is valid |
| `AddrManager.AddrMan.Create` | src/addrman.cpp:81-91 | The object update equals the model step and returns the next id |
| `AddrManager.AddrMan.SwapRandom` | src/addrman.cpp:93-111 | The object update equals the model step |
| `AddrManager.AddrMan.Delete` | src/addrman.cpp:113-125 | The object update equals the model step |
| `AddrManager.AddrMan.ClearNew` | src/addrman.cpp:127-140 | The object update equals the model step on both tables and the indexes |
| `AddrManager.AddrMan.EvictTried` | src/addrman.cpp:161-181 | The in-place table updates equal the model eviction; no assert fires |
| `AddrManager.AddrMan.MakeTried` | src/addrman.cpp:142-188 | The bucket scan and table updates equal the model step and keep the manager valid |
| `AddrManager.AddrMan.Good_` | src/addrman.cpp:190-240 | The bucket search loop and the update equal the model step for every random start |
| `AddrManager.AddrMan.Add_` | src/addrman.cpp:242-313 | The whole operation on maps and arrays is, for every random draw, the step whose effect on known and unknown addresses is stated above, and keeps the manager valid |
| `AddrManager.AddrMan.Attempt_` | src/addrman.cpp:315-335 | The object update equals the model step and keeps the manager valid |
| `AddrManager.AddrMan.Connected_` | src/addrman.cpp:483-501 | The object update equals the model step and keeps the manager valid |
| `AddrManager.AddrMan.SetServices_` | src/addrman.cpp:503-518 | The object update equals the model step and keeps the manager valid |
| `AddrManager.Factor` | src/addrman.cpp:278-281 | The doubling loop gives odds of one in two to the power of the reference count |
| `AddrSampling.GetAddr_` | src/addrman.cpp:462-481 | The sample has no duplicates, only decent addresses, at most 2500 and at most 23 per cent of the list; if it stops short of both limits it has every decent address; only list order changes |
| `AddrSampling.Draw` | src/addrman.cpp:469-479 | One round of the partial shuffle keeps the part already drawn and the manager valid |
| `AddrFile.SaveLoadRoundTrip` | src/addrman.h:301-454 | Loading what a consistent manager saved is accepted and gives a consistent manager equal to it up to ids, list order and memory-only fields: same key, counts, slots and reference counts, nothing lost to collisions |
| `AddrFile.SeqSizes` | src/addrman.h:316-332 | Exactly as many new and tried entries are written as the counters say, so neither serializer assert can fail |
| `AddrFile.WithinLimits` | src/addrman.h:370-377 | The counters of a consistent manager pass the limits checked on loading |
| `AddrLoading.LoadConsistent` | src/addrman.h:351-454 | An accepted file, of any version and with any stored references, loads into a consistent manager if and only if its key is not zero and, before pruning, every entry that is tried or referenced has a proper success time and shares its address with no other entry |
| `AddrLoading.ProperFileLoads` | src/addrman.h:351-454 | A file of distinct addresses with proper success times and a non-zero key always loads into a consistent manager, whatever its version, bucket count and stored references |
| `AddrLoading.RepeatedAddress` | src/addrman.h:380-399 | A file with the same entry twice does not: the second copy is pruned and takes the address of the first with it |
| `AddrLoading.RebuiltBySource` | src/addrman.h:379-399 | A file of another version or bucket count has its references ignored: every entry of the new table gets the slot of its own source, or none if an earlier entry of the file has it |
| `AddrLoading.EnteredIs` | src/addrman.h:379-437 | For every complete file the three reading loops leave both tables, the reference counts, the places and the counters consistent, and the file is accepted exactly within the size limits |
| `AddrLoading.PruneIs` | src/addrman.h:439-449 | Pruning removes exactly the unreferenced new entries, together with every address such an entry has, and keeps tables, places and counters consistent |
| `AddrSerializer.Serialize` | src/addrman.h:301-349 | The writing loops produce the saved form of the manager |
| `AddrSerializer.Unserialize` | src/addrman.h:351-454 | The reading loops accept exactly the files the model accepts and rebuild the model result in place |
| `AddrSerializer.SaveAndLoad` | src/addrman.h:301-454 | Through the two methods, a second manager object becomes valid and equivalent to the first |
| `AddrSerializer.WriteBucket` | src/addrman.h:334-347 | One bucket is written as the written ids of its occupied slots in order |
| `AddrSerializer.ReadTried` | src/addrman.h:400-417 | Tried entries are stored at their hashed slots and counted as lost when the slot is taken |
| `BlockAssembly.BlockAssembler.AddPackageTxs` | src/miner.cpp:314-442 | For every mempool and every score order: the template lists distinct transactions, each after all its in-mempool ancestors, within both limits, with exact totals, and the loop terminates. The whole run is stated: each round takes a candidate that nothing queued or unread outscores, and the block is what the accepted packages add up to. It ends in one of three ways: every transaction left out was turned away for exactly its package less the ancestors added since the time before, has gained no ancestor since, and still has no place; or the best candidate left pays less than the minimum for its exact size, and everything before it in the index is in the block, queued or turned away; or the block is within 4000 of full and more than 1000 candidates in a row did not fit |
| `BlockAssembly.BlockAssembler.Choose` | src/miner.cpp:344-367 | The best corrected entry if it beats the next mempool entry, otherwise that one: nothing queued or unread scores better |
| `MinerPackages.FeesCorrected` | src/miner.cpp:251-276 | Corrected fees: the first ancestor accounted for takes off its modified fee and every other one its plain fee |
| `MinerPackages.PlainFees` | src/miner.h:108-120 | Without modified fees the corrected fees are exactly the cached ones less those of the ancestors accounted for |
| `BlockAssembly.BlockAssembler.Include` | src/miner.cpp:424-440 | Adding a tested package keeps the template ordered and within limits and brings all corrected entries up to date |
| `BlockAssembly.BlockAssembler.AddPackage` | src/miner.cpp:431-435 | A package sorted by ancestor count can be appended one by one with every ancestor already present |
| `BlockAssembly.BlockAssembler.AddToBlock` | src/miner.cpp:232-249 | Appending keeps the order, the running totals and the per-transaction lists exact |
| `BlockAssembly.BlockAssembler.OnlyUnconfirmed` | src/miner.cpp:194-205 | Exactly the transactions outside the block are kept |
| `BlockAssembly.BlockAssembler.TestPackageTransactions` | src/miner.cpp:221-230 | Passes exactly when every transaction of the package may be included |
| `BlockAssembly.BlockAssembler.Judge` | src/miner.cpp:383-422 | A candidate is stopped, failed, rejected or accepted in the order of the tests, with the remaining package handed on |
| `BlockAssembly.BlockAssembler.constructor` | src/miner.cpp:69-74 | The weight limit is clamped so that the reserved block fits and the limit leaves room below the consensus maximum |
| `BlockAssembly.BlockAssembler.CandidateIsNew` | src/miner.cpp:370-372 | A candidate is never in the block already, whether read from the mempool or from the corrected entries |
| `BlockAssembly.BlockAssembler.CandidateCovered` | src/miner.cpp:374-381 | The tested totals are exactly those of the candidate with its ancestors, less the ancestors added since it was last turned away; so they never understate the package that would be added, and are exact when it was never turned away |
| `BlockAssembly.UpdatePackagesForAdded` | src/miner.cpp:251-276 | After the nested loops every corrected entry accounts for the whole block and every dependant of the new package is queued; the number returned is the total of descendants outside the package, over its members |
| `BlockAssembly.UpdateDescendants` | src/miner.cpp:256-273 | Exactly the descendants outside the package get the one correction |
| `BlockAssembly.SortForBlock` | src/miner.cpp:293-302 | The result lists the package once each, by ancestor count |
| `BlockAssembly.PackageFits` | src/miner.cpp:207-215 | A package whose size passes the test at four units per byte fits by real weight |
| `BlockAssembly.LeftOut` | src/miner.cpp:354-442 | With nothing queued any more, a transaction that was turned away has gained no ancestor in the block since, and still has no place |
| `BlockAssembly.NoPlaceStays` | src/miner.cpp:388-405 | Filling the block further, without an ancestor of the transaction, never makes a refused package acceptable |
| `BlockAssembly.SoleRefusalExact` | src/miner.cpp:383-422 | A transaction turned away only once is left out for its exact totals: what is left of its package may not be included or does not fit the final block |
| `MinerPackages.CorrectionTracks` | src/miner.cpp:255-274 | Correcting the descendants of one included transaction keeps exactly one entry for every transaction that gained an ancestor since it was last turned away, with the exact totals less those ancestors |
| `MinerPackages.CorrectionExact` | src/miner.h:108-120 | One correction takes off exactly the share of the included ancestor, from the corrected or from the cached totals |
| `MinerPackages.CandidateTotals` | src/miner.cpp:278-291 | What is tested for a candidate, corrected or cached, is its package less exactly the ancestors added since it was last turned away |
| `MinerPackages.RefusalTracks` | src/miner.cpp:388-396 | A candidate turned away leaves the corrected entries and is tracked afresh from the block as it is then |
| `MinerPackages.AncestorCountsLess` | src/miner.h:79-86 | Every ancestor has a strictly smaller ancestor count, so sorting by count is a valid order |
| `MinerPackages.SortedPackageReady` | src/miner.cpp:293-302 | In the sorted package each member finds its missing ancestors before it |
| `MerkleTree.ExtractionSound` | src/merkleblock.cpp:132-163 | For arbitrary bits and hashes, if extraction accepts with the true root then every returned hash is the transaction id of the block at the returned index, so none lies beyond the block; for distinct ids also when the claimed number of transactions is false but of the same height |
| `MerkleTree.ExtractionComplete` | src/merkleblock.cpp:40-163 | For distinct ids and any match mask, extracting from the built tree, also with byte padding, gives the true root and exactly the matched ids and indexes in order |
| `MerkleRoots.BuiltAcceptedIff` | src/merkleblock.cpp:99-110 | A tree built from any ids, distinct or not, is accepted if and only if no node with a match below it has two equal children |
| `MerkleRoots.RepeatedLastRefused` | src/merkleblock.cpp:99-110 | A block of odd length with its last transaction repeated has the same root, and a tree that proves that transaction at either place is refused |
| `MerkleRoots.RootIsReduction` | src/merkleblock.cpp:40-58 | The root is what pairing neighbours level by level leaves, an odd last one paired with itself |
| `MerkleRoots.NothingLeftOver` | src/merkleblock.cpp:157-163 | An accepted tree with one more hash or one more byte of bits is refused |
| `MerkleRoots.SizesRefused` | src/merkleblock.cpp:133-140 | Trees of no transactions or of more than 25000 are refused |
| `MerkleTree.BuiltTraversal` | src/merkleblock.cpp:40-163 | Reading what was built gives the root and the matches, and a problem exactly at equal siblings |
| `MerkleTree.BuildSizes` | src/merkleblock.h:34-40 | Stored hashes are at most the transactions and at most one plus matches times height; bits are at most twice the hashes minus one plus the height |
| `MerkleTree.SendProof` | src/merkleblock.cpp:40-163 | Building, packing, unpacking and extracting through the objects returns the root and the matches |
| `MerkleTree.PackBits` | src/merkleblock.h:88-96 | Packing keeps every bit and pads with zeroes |
| `MerkleTree.UnpackBits` | src/merkleblock.h:97-105 | Unpacking reads every bit back |
| `MerkleTree.PartialMerkleTree.constructor` | src/merkleblock.cpp:116-128 | The constructed object holds the built tree |
| `MerkleTree.PartialMerkleTree.TraverseAndBuild` | src/merkleblock.cpp:60-76 | The recursion appends exactly the bits and hashes of the subtree |
| `MerkleTree.PartialMerkleTree.TraverseAndExtract` | src/merkleblock.cpp:78-114 | The recursion reads exactly what the model reads, advances both counters accordingly and flags every malformed input |
| `MerkleTree.PartialMerkleTree.ExtractMatches` | src/merkleblock.cpp:132-163 | Accepts exactly the well-formed trees and returns their root and matches; a rejected tree gives a null root |
| `MerkleTree.PartialMerkleTree.TreeHeight` | src/merkleblock.cpp:122-124 | The loop finds the height at which one node is left |
| `MerkleProofs.ExtractBuilt` | src/merkleblock.cpp:60-114 | Reading a built subtree from any place in the streams gives the true hash and matches and consumes exactly its bits and hashes |
| `MerkleProofs.ExtractSound` | src/merkleblock.cpp:78-114 | A good reading of any node with the true hash finds only genuine leaves below it |
| `MerkleProofs.NodesDiffer` | src/merkleblock.cpp:40-58 | Distinct ids give distinct nodes at every level, so the equal-sibling check never rejects an honest tree |
| `MerkleProofs.WidthHalves` | src/merkleblock.h:66-68 | Each level has half the nodes of the level below, rounded up |
| `MerkleSizes.DocumentedBits` | src/merkleblock.h:42-49 | The documented bound of twice the hashes minus one holds if and only if no level has a match under a last node without a sibling; plus the height it always holds |
| `MerkleSizes.DocumentedBitsFail` | src/merkleblock.h:42-49 | Three transactions with the last one matched exceed the documented bound |
| `MerkleSizes.BitsExact` | src/merkleblock.h:42-49 | The exact number of bits: twice the hashes minus one plus the single-child nodes descended into |
| `MerkleSizes.OneChildCounts` | src/merkleblock.h:42-49 | The single-child nodes descended into are one for every level whose last node has no sibling and a match under its parent |
| `MerkleWire.DocumentedSize` | src/merkleblock.h:31-50 | For every block within the transaction limit the documented size of ten plus 32.25 bytes per hash holds if and only if the extra bits do not spill into a further byte or the bytes of bits are fewer than 253 |
| `MerkleWire.DocumentedSizeFails` | src/merkleblock.h:31-50 | A block of 1012 transactions, all matched, takes one byte more than the documented size |
| `MerkleWire.BitsCount` | src/merkleblock.h:42-49 | The bits of an encoding from its hashes and those levels, of which there are at most the height |
| `MerkleWire.AllLeavesStored` | src/merkleblock.h:34-40 | With every transaction matched the encoding stores every transaction hash: the bound on hashes is reached |
| `MerkleSizes.HashesAtMostLeaves` | src/merkleblock.h:34-40 | A subtree stores no more hashes than it has leaves |
| `MerkleSizes.HashesAtMostMatches` | src/merkleblock.h:34-40 | A subtree stores at most one hash plus its height for each match |
| `ChainIndex.BlockIndex.GetAncestor` | src/chain.cpp:83-113 | Following skip pointers terminates and returns the same block as walking parents, null exactly outside the heights |
| `ChainIndex.BlockIndex.BuildSkip` | src/chain.cpp:115-119 | The skip pointer leads to the ancestor at the skip height and keeps all skip pointers right |
| `ChainIndex.BlockIndex.AncestorOfAncestor` | src/chain.cpp:83-108 | An ancestor of an ancestor is the ancestor |
| `ChainIndex.GetSkipHeight` | src/chain.cpp:73-81 | The skip height is strictly below the height |
| `ChainIndex.LastCommonAncestor` | src/chain.cpp:155-170 | The highest block that is an ancestor of both, or none when the trees are unrelated |
| `ChainIndex.CommonBelow` | src/chain.cpp:155-170 | Two lineages that share a block share every block below it |
| `ChainIndex.Chain.SetTip` | src/chain.cpp:11-21 | Stopping at the first block already in place still makes the chain the whole ancestry of the tip |
| `ChainIndex.Chain.FindFork` | src/chain.cpp:51-60 | The highest common block of the chain and the given block |
| `ChainIndex.Chain.ChainIsLineage` | src/chain.h:464-469 | The block at each height of the chain is the ancestor of every later one |
| `ChainIndex.Chain.NextIsChild` | src/chain.h:477-487 | The next block is the child, and only the tip has none |
| `ChainLocator.GetLocator` | src/chain.cpp:23-49 | A locator lists the ancestors at the locator heights, whether or not the block is in the chain |
| `ChainLocator.HeightsDecrease` | src/chain.cpp:23-49 | Locator heights strictly decrease and end at zero |
| `ChainLocator.LocatorLength` | src/chain.cpp:23-49 | The exact length: height plus one below ten, else eleven plus the rounded-up logarithm of the height minus nine |
| `ChainLocator.LocatorEntry` | src/chain.cpp:23-49 | Entry by entry: eleven blocks one by one, then entry i at distance 9 plus two to the power i - 10, never below the genesis block |
| `CompactExchange.Exchange` | src/blockencodings.cpp:18-218 | End to end: for a block of up to 65536 transactions with distinct short ids and true matches, announcing, initialising, requesting and filling rebuilds the block exactly, unless a short-id bucket is overfull |
| `CompactExchange.AnnouncementSlots` | src/blockencodings.cpp:18-28 | In an announcement the coinbase is prefilled and the i-th short id owns slot i plus one |
| `CompactExchange.AnnouncementDescribes` | src/blockencodings.cpp:18-28 | An announcement describes its own block |
| `CompactExchange.Announce` | src/blockencodings.cpp:18-28 | The loop produces the announcement |
| `CompactDownload.PartiallyDownloadedBlock.InitData` | src/blockencodings.cpp:48-168 | Which announcements are invalid, which fail on short-id collisions, and otherwise exactly what the scans leave: the pool is read to its end or to the first transaction that fills every slot, the extra transactions likewise; prefilled slots are untouched; a short id with one match has it, with two in the pool none, with a match among the extra ones only if the witness hashes agree |
| `CompactDownload.PartiallyDownloadedBlock.PlacePrefilled` | src/blockencodings.cpp:54-76 | Accepts exactly the placeable prefilled lists and fills exactly their slots |
| `CompactDownload.RejectedIff` | src/blockencodings.cpp:48-76 | Invalid announcements in numbers: null header, none or more than 150000 transactions, a null prefilled one, or one without a slot |
| `CompactDownload.PartiallyDownloadedBlock.MapShortIds` | src/blockencodings.cpp:78-103 | The i-th short id is given the i-th slot left free; fails exactly on duplicate ids or an overfull bucket |
| `CompactDownload.PartiallyDownloadedBlock.FillBlock` | src/blockencodings.cpp:176-218 | The result is the filled list when the missing transactions fit exactly, invalid otherwise, and the object is spent |
| `CompactScan.SingleMatchKept` | src/blockencodings.cpp:105-168 | A short id with exactly one match among all known transactions ends up available with that transaction, however early the scans end |
| `CompactScan.AmbiguousDropped` | src/blockencodings.cpp:105-168 | A short id with two matches among the pool transactions looked at is never available, and what is available agrees in witness hash with every extra match looked at |
| `CompactScan.PoolStep` | src/blockencodings.cpp:105-131 | A pool match is kept the first time and empties the slot for good the second time, and the count of available ones stays exact |
| `CompactScan.ExtraStep` | src/blockencodings.cpp:133-164 | An extra match fills an unmatched slot, is ignored when it is the same transaction by witness hash, and empties the slot otherwise |
| `CompactScan.CountFull` | src/blockencodings.cpp:126-163 | The early-exit test holds exactly when every slot is filled |
| `CompactScan.InitializedConsistent` | src/blockencodings.cpp:48-168 | With distinct ids and true matches every filled slot holds the transaction of the block |
| `CompactBlocks.FillRebuilds` | src/blockencodings.cpp:176-200 | Filling the free slots with the missing transactions in order rebuilds the block |
| `CompactBlocks.MissingIsRequested` | src/blockencodings.cpp:176-200 | The missing transactions are those of the free slots, in order |
| `CompactBlocks.PrefillAt` | src/blockencodings.cpp:54-76 | A slot is prefilled exactly when some prefilled index lands on it, with that transaction |
| `CompactBlocks.PrefillFree` | src/blockencodings.cpp:78-100 | There are exactly as many free slots as short ids |
| `CompactBlocks.PlaceableIff` | src/blockencodings.cpp:59-76 | The test of each prefilled index on arrival passes exactly when no transaction is null and every slot exists and has a 16-bit number |
| `BlockRequests.RequestRoundTrip` | src/blockencodings.h:38-68 | Differential coding gives the indexes back if and only if they strictly increase; any other list is refused on reading |
| `BlockRequests.WriteIndexes` | src/blockencodings.h:62-66 | The writing loop produces the differences |
| `BlockRequests.ReadIndexes` | src/blockencodings.h:41-61 | The reading loops accept exactly the difference lists that stay within 16 bits and rebuild the indexes |
| `ArithUint.BaseUint.AddAssign` | src/arith_uint256.h:141-151 | For any width: the sum modulo two to the width, also when both operands are one object |
| `ArithUint.BaseUint.SubAssign` | src/arith_uint256.h:153-157 | The difference modulo two to the width |
| `ArithUint.BaseUint.Negate` | src/arith_uint256.h:83-90 | The additive inverse modulo two to the width |
| `ArithUint.BaseUint.Complement` | src/arith_uint256.h:75-81 | The all-ones number minus the value |
| `ArithUint.BaseUint.Increment` | src/arith_uint256.h:179-186 | One more, wrapping at the top |
| `ArithUint.BaseUint.Decrement` | src/arith_uint256.h:196-203 | One less, wrapping at zero |
| `ArithUint.BaseUint.MulSmall` | src/arith_uint256.cpp:58-67 | The product with a 32-bit factor modulo two to the width |
| `ArithUint.BaseUint.MulAssign` | src/arith_uint256.cpp:70-83 | The product modulo two to the width; zero when the operand is the object itself, because it is cleared first |
| `ArithUint.BaseUint.ShiftLeft` | src/arith_uint256.cpp:24-38 | The value times a power of two modulo two to the width, for every shift |
| `ArithUint.BaseUint.ShiftRight` | src/arith_uint256.cpp:41-55 | The value divided by a power of two, rounded down, for every shift |
| `ArithUint.BaseUint.DivAssign` | src/arith_uint256.cpp:86-109 | Fails exactly on a zero divisor, leaving zero; otherwise the quotient rounded down, with the remainder left in the loop below the divisor |
| `ArithUint.BaseUint.CompareTo` | src/arith_uint256.cpp:112-121 | The numeric order |
| `ArithUint.BaseUint.Bits` | src/arith_uint256.cpp:174-186 | The position of the top bit plus one, zero for zero |
| `ArithUint.BaseUint.EqualTo` | src/arith_uint256.cpp:124-135 | Equality with a 64-bit value |
| `ArithUint.BaseUint.Assign64` | src/arith_uint256.h:94-101 | The value assigned |
| `ArithUint.BaseUint.GetLow64` | src/arith_uint256.h:251-255 | The value modulo two to the 64 |
| `Limbs.ValueInjective` | src/arith_uint256.h:226-227 | Equal numbers of one width have equal limbs, so comparing memory compares numbers |
| `CompactTarget.OverflowExact` | src/arith_uint256.cpp:220-223 | The overflow flag is set if and only if mantissa times the power of 256 reaches two to the 256; otherwise nothing is cut off |
| `CompactTarget.EncodeRoundsDown` | src/arith_uint256.cpp:206-247 | Encoding and decoding any 256-bit value sets neither flag, never increases it, and loses at most one part in 32768 |
| `CompactTarget.EncodeGreatest` | src/arith_uint256.cpp:226-247 | The encoding is the greatest number the format can express that is not above the value |
| `CompactTarget.EncodeMonotone` | src/arith_uint256.cpp:226-247 | Larger values never get smaller encodings |
| `CompactTarget.MeaningScales` | src/arith_uint256.cpp:206-218 | At size three the mantissa is the number, and each further byte of size multiplies it by 256 |
| `CompactTarget.MeaningCut` | src/arith_uint256.cpp:206-214 | Below size three the low bytes of the mantissa are cut off |
| `CompactTarget.ReencodeSame` | src/arith_uint256.cpp:206-247 | A value that went through the encoding once is encoded identically again |
| `CompactTarget.SetCompact` | src/arith_uint256.cpp:206-224 | The limb operations give the decoded value and both flags |
| `CompactTarget.GetCompact` | src/arith_uint256.cpp:226-247 | The limb operations give the encoding; neither assert can fail |
| `ProofOfWork.ChainInRange` | src/pow.cpp:16-72 | On every chain that follows the rule each target after the first is at or below the limit, with no flag set, whatever the block times, the limit and the first target are; without retargeting, if the first one is |
| `ProofOfWork.ChainGentle` | src/pow.cpp:16-72 | Along every chain that starts within a limit with room for the largest step, each target is at most three halves of its predecessor, and before the cap at the limit and the compact rounding at least three quarters of it; the rounding takes off at most one part in 2^15 |
| `ProofOfWork.RetargetGentle` | src/pow.cpp:16-52 | The same for one retarget |
| `ProofOfWork.RetargetInRange` | src/pow.cpp:16-52 | One retarget puts the target in range from wherever it was, for every limit below 2^256 |
| `ProofOfWork.StepBounds` | src/pow.cpp:26-45 | Up to the limit a step does not wrap, and before capping lies between three quarters and three halves of the old target |
| `ProofOfWork.StepExact` | src/pow.cpp:26-45 | Before cap and rounding the new target is the old one times the timespan stretched or shortened by an eighth of the deviation, rounded toward zero and limited to a half more and a quarter less |
| `ProofOfWork.StepMonotone` | src/pow.cpp:26-45 | The longer the blocks took, the easier the target |
| `ProofOfWork.StepDirection` | src/pow.cpp:26-45 | Slow blocks never lower the target, fast ones never raise it, and less than eight seconds leave it |
| `ProofOfWork.RetargetMonotone` | src/pow.cpp:16-52 | The same order with cap and compact rounding included |
| `ProofOfWork.RetargetDirected` | src/pow.cpp:16-52 | The direction with cap and compact rounding included: no slow block lowers a target by rounding |
| `ProofOfWork.ChainDirected` | src/pow.cpp:16-72 | Along every chain the target follows the time measured |
| `ProofOfWork.ChainSteady` | src/pow.cpp:54-72 | Blocks exactly on time keep their target, but for the first interval, which measures one block less |
| `ProofOfWork.ChainFixed` | src/pow.cpp:18-19 | Without retargeting every block has the bits of the first |
| `ProofOfWork.WalkEnds` | src/pow.cpp:57-68 | The walk back ends on the chain exactly when it has a whole interval, at its first block if no more |
| `ProofOfWork.MainNetRoomy` | src/chainparams.cpp:120-122 | The network parameters leave room for the largest step |
| `ProofOfWork.CalculateDigishield` | src/pow.cpp:16-52 | The in-place computation gives the required bits of the specification |
| `ProofOfWork.GetNextWorkRequired` | src/pow.cpp:54-72 | For any positive spacing and timespan the walk back ends on the chain exactly when it is long enough, and the bits follow from the time found there |
| `ProofOfWork.CheckProofOfWork` | src/pow.cpp:74-92 | A hash is accepted exactly when the bits are in range, the target is not zero and the hash does not exceed it |
| `ProofOfWork.GetBlockProof` | src/chain.cpp:121-134 | Two to the 256 divided by the target plus one, rounded down, though neither the dividend fits nor may the divisor wrap; zero for unusable bits |
| `CuckooCache.Cache.Insert` | src/cuckoocache.h:392-440 | After ageing, everything kept and the new element are held except at most the one last displaced, and that only after as many displacements as allowed, each of an element with no discardable slot; a found element is kept; the new one belongs to the current epoch and everyone else stays in their own; the epoch load stays bounded |
| `CuckooCache.Cache.Displace` | src/cuckoocache.h:407-440 | The same for the displacement loop alone |
| `CuckooCache.Cache.EpochCheck` | src/cuckoocache.h:289-321 | Live elements of the current epoch plus the counter stay at most the epoch size plus the larger of one and a sixteenth of it, with room for one insertion; elements are released only when a full epoch is current |
| `CuckooCache.Cache.Contains` | src/cuckoocache.h:467-477 | Found exactly when one of its eight slots holds the element, so always for a live one; erasing marks just that slot |
| `CuckooCache.Cache.LiveFound` | src/cuckoocache.h:467-477 | A live element is at one of its own slots |
| `CuckooCache.Cache.NextLoc` | src/cuckoocache.h:430-430 | The slot after the one last used, cyclically; the second slot on the first round |
| `CuckooCache.Cache.constructor` | src/cuckoocache.h:340-353 | A fresh cache is valid and holds nothing; an epoch is 45% of it, rounded down, and at least one |
| `CuckooCache.Cache.Age` | src/cuckoocache.h:306-310 | Ageing releases exactly the older epoch and starts a new one |
| `CuckooCache.Cache.CountRecent` | src/cuckoocache.h:297-300 | The scan counts the live slots of the current epoch |
| `CuckooCache.LocateInRange` | src/cuckoocache.h:243-253 | The multiply-and-shift hash always selects a slot of the table |
| `CuckooCache.LocateReaches` | src/cuckoocache.h:243-253 | Every slot is selected by some hash |
| `CuckooCache.LiveSwap` | src/cuckoocache.h:431-435 | Swapping an element into a live slot loses nothing but the one now in hand |
| `CuckooCache.LiveFill` | src/cuckoocache.h:408-415 | Filling a discardable slot adds the element and loses nothing live |
| `CuckooCache.CurrentUpdate` | src/cuckoocache.h:431-435 | How one slot changes the live count of the epoch |
| `CuckooCache.BitPackedFlags.SetFlag` | src/cuckoocache.h:92-95 | Sets exactly one flag among all |
| `CuckooCache.SetBitOrs` | src/cuckoocache.h:92-95 | Setting a bit is or-ing in its power of two |
| `CuckooCache.BitPackedFlags.UnsetFlag` | src/cuckoocache.h:103-106 | Clears exactly one flag among all |
| `CuckooCache.BitPackedFlags.constructor` | src/cuckoocache.h:61-68 | All flags start set |
| `RollingBloom.RollingBloomFilter.Contains` | src/bloom.cpp:284-296 | A key is reported if and only if each of its cells is also a cell of some key of the current generation or the two before it; so every recent key is, and a new or reset filter reports none |
| `RollingBloom.RollingBloomFilter.TouchedShared` | src/bloom.cpp:248-296 | The set cells are exactly the cells of recent keys |
| `RollingBloom.RollingBloomFilter.RollExplained` | src/bloom.cpp:250-266 | After the wipe every set cell comes from one of the last two generations: what is older is forgotten |
| `RollingBloom.RollingBloomFilter.CellSelected` | src/bloom.cpp:266-274 | The low six bits of a hash are the place in a word and the others the word, so no cell is left out |
| `RollingBloom.RollingBloomFilter.Insert` | src/bloom.cpp:248-276 | Inserting keeps that promise for all recent keys despite overwritten cells and wiped generations |
| `RollingBloom.RollingBloomFilter.Roll` | src/bloom.cpp:250-266 | Starting a generation wipes only what is three generations old |
| `RollingBloom.RollingBloomFilter.RecentContained` | src/bloom.h:113-114 | Every cell of every recent key is set |
| `RollingBloom.RollingBloomFilter.CoversWipe` | src/bloom.cpp:256-264 | A key at most one generation old survives the wipe, one generation older |
| `RollingBloom.RollingBloomFilter.MarkKeeps` | src/bloom.cpp:273-274 | Writing the current generation into a cell makes no remembered cell older |
| `RollingBloom.WipedCell` | src/bloom.cpp:256-264 | The word masks clear exactly the cells that hold the generation |
| `RollingBloom.MarkedCell` | src/bloom.cpp:273-274 | The two word updates change exactly one cell, to the generation |
| `RollingBloom.RollingBloomFilter.Reset` | src/bloom.cpp:304-312 | A reset filter remembers nothing |
| `RollingBloom.RollingBloomFilter.constructor` | src/bloom.cpp:216-244 | A new filter keeps at least half the requested elements per generation |
| `Bech32.BurstDetected` | src/bech32.cpp:37-124 | Two different data lists that agree outside some six consecutive symbols never both verify, at any length |
| `Bech32Errors.ThreeErrorsDetected` | src/bech32.cpp:46-51 | Two different data lists that differ in at most three symbols, all within 1023 consecutive ones, never both verify, at any length |
| `Bech32Errors.ThreeErrorsChange` | src/bech32.cpp:46-51 | Two lists that differ in at most three symbols within 1023, prefix included, leave different remainders from any state |
| `Bech32Errors.PrefixErrorDetected` | src/bech32.cpp:103-125 | Two human-readable parts that differ in one character never both verify the same data, nor data that differs in one symbol, while all changes lie within 1023 symbols |
| `Bech32Window.FourErrorsChange` | src/bech32.cpp:46-49 | Two lists that differ in at most four symbols within 89, prefix included, leave different remainders from any state |
| `Bech32Window.FourErrorsDetected` | src/bech32.cpp:46-49 | Two lists of data that differ in at most four symbols within 89 never both verify |
| `Bech32Window.MistypedRejected` | src/bech32.cpp:159-189 | Mistyping up to four characters after the separator of a valid text, none into a separator, always gives a text that is not decoded |
| `BchClasses.FourTerms` | src/bech32.cpp:44-58 | Four errors that cancel out at the three roots balance the classes, logarithms modulo 33, of the differences of their places |
| `BchClasses.NeverBalanced` | src/bech32.cpp:48-49 | The classes balance for no four places within 89 |
| `Bech32Errors.MistypedPrefixRejected` | src/bech32.cpp:159-189 | Mistyping a character before the separator of a valid text, and up to one after it, always gives a text that is not decoded |
| `Bech32Errors.GeneratorVanishes` | src/bech32.cpp:46-51 | The generator that the five constants spell vanishes at alpha^24, alpha^25 and alpha^26 for a primitive element alpha of the field with 1024 elements, times any symbol |
| `Bech32Errors.EvalStep` | src/bech32.cpp:66-93 | A step of the remainder multiplies its value at such a root by the root and adds the next symbol |
| `Bech32Errors.ThreeLeaveNothing` | src/bech32.cpp:46-51 | Three symbols within 1023 places leave remainder zero only when all three are zero |
| `BchField.AlphaPrimitive` | src/bech32.cpp:46-51 | Multiplying a non-zero element by alpha comes round after 1023 steps and not before: the length of the code |
| `BchField.ThreeTerms` | src/bech32.cpp:46-51 | Three terms at distinct places below 1023 whose plain, once and twice weighted sums vanish are all zero: the determinant behind the code |
| `Bech32.BurstChanges` | src/bech32.cpp:37-95 | Such lists have different remainders from any starting state |
| `Bech32.ChecksumVerifies` | src/bech32.cpp:118-139 | The checksum made for any human-readable part and data verifies |
| `Bech32.ChecksumUnique` | src/bech32.cpp:118-139 | No other six symbols verify |
| `Bech32.RunLinear` | src/bech32.cpp:37-95 | The remainder is linear over GF(2) |
| `Bech32.StepInjective` | src/bech32.cpp:79-93 | Multiplying by x modulo the generator sends only zero to zero |
| `Bech32.DifferenceSurvives` | src/bech32.cpp:37-95 | A difference never dies out however many symbols follow |
| `Bech32Codec.DecodeEncode` | src/bech32.cpp:147-189 | Decoding an encoding gives it back if and only if the human-readable part is non-empty, printable and without capitals and the string has at most 90 characters |
| `Bech32Codec.EncodeDecode` | src/bech32.cpp:147-189 | Encoding what was decoded gives the string back in lower case |
| `Bech32Codec.PolyMod` | src/bech32.cpp:37-95 | The loop with its conditional additions computes the remainder |
| `Bech32Codec.ExpandHRP` | src/bech32.cpp:103-115 | The buffer is the expansion that the error laws are about |
| `Bech32.ExpandAt` | src/bech32.cpp:103-115 | Each character can be read off its expansion: three high bits before the zero, five low bits after it |
| `Bech32Vectors.VectorEncodes` | src/test/bech32_tests.cpp:31-31 | The published vector with all 32 symbols: fixes alphabet, generator, start value and expansion |
| `Bech32Codec.CreateChecksum` | src/bech32.cpp:128-139 | The loop gives the checksum, which verifies |
| `Bech32Codec.VerifyChecksum` | src/bech32.cpp:118-125 | Verification by remainder one |
| `Bech32Codec.Encode` | src/bech32.cpp:147-156 | The loop spells the encoding |
| `Bech32Codec.Decode` | src/bech32.cpp:159-189 | The loops accept and return exactly what the round trips and error laws are stated for |
| `Bech32Codec.DecodeRefuses` | src/bech32.cpp:159-189 | Texts with characters outside 33 to 126, in mixed case, longer than 90, or without a separator that has a character before and six after it are refused |
| `Base58Codec.DecodeEncode` | src/base58.cpp:24-112 | Decoding an encoding returns the bytes, leading zeroes included |
| `Base58Codec.EncodeDecode` | src/base58.cpp:24-112 | Encoding what was decoded returns the string without its surrounding spaces |
| `Base58Codec.Alphabet` | src/base58.cpp:22-22 | The letters are the ASCII digits and letters without 0, I, O and l, with digits in the order of their codes |
| `Base58.EncodeRoom` | src/base58.cpp:84-84 | The buffer of 138/100 digits per byte is large enough for every length |
| `Base58.DecodeRoom` | src/base58.cpp:37-37 | The buffer of 733/1000 bytes per character is large enough for every length |
| `Base58.ToBaseUnique` | src/base58.cpp:60-70 | Digits without leading zeroes are determined by the number |
| `Base58Codec.MulAdd` | src/base58.cpp:46-54 | The carry loop multiplies and adds exactly, and the carry assert cannot fail when the result fits |
| `Base58Codec.Rebase` | src/base58.cpp:86-101 | Feeding the digits one at a time rewrites the number in the other base |
| `Base58Codec.EncodeBase58` | src/base58.cpp:74-112 | The in-place conversion gives the encoding for every byte string |
| `Base58Codec.DecodeBase58` | src/base58.cpp:24-72 | The in-place conversion accepts and returns exactly what the specification does |

## Left out

- The node around these parts: networking, RPC, wallet, script and signature checking, the databases, and the hash functions, which are parameters here (injective where a statement says so).
- Randomness, clocks and floating point: random draws, hash values, times, the filter size, the number of hash functions and the cuckoo depth limit are parameters.
- CheckQueue.WaitCorrect: models one master at a time and not the control object of `src/checkqueue.h:165-207`; there, checks added after the control's own Wait are only waited for by the next one.
- CheckQueue.WaitTerminates: states a bound on productive steps, not a scheduler; memory ordering is that of the mutex.
- CoinStack.RunRefines: covers coins only; name entries, the best-block hash, memory accounting, changing the backend, and a database write that stops half-way are not modelled.
- CoinsViews.CoinsViewCache.Flush: does not model the best-block hash that is written together with the coins.
- AddrChecks.Check_: looks a missing address up as 0 without storing it, which the code does on the way.
- AddrOps.SelectSafe: states that the scanned table is not empty; the random walk itself and the chance of each entry are not modelled.
- AddrSerializer.Unserialize: works on parsed records; the byte encoding, truncated streams and negative counts are not modelled, and the id counter is unbounded.
- BlockAssembly.BlockAssembler.AddPackageTxs: takes the mempool's ancestor sets and cached totals, and four times the size being at least the weight, as given; the score is any order for which not being better is transitive, so the floating-point comparison of fee rates is not modelled.
- CompactDownload.PartiallyDownloadedBlock.InitData: covers at most 65536 transactions, the range of the 16-bit slot numbers, or more than the block limit, which is rejected; the logging counter for extra transactions is not modelled.
- CompactExchange.Exchange: takes the block check and the hash bucket sizes as parameters.
- ArithUint.BaseUint.MulAssign: text conversion, floating-point conversion and the bitwise operators are not modelled.
- ProofOfWork.ChainInRange: says nothing about a target that has shrunk to zero, which no block can meet.
- CuckooCache.Cache.Insert: models one thread; the flags are atomic in the code so that erasing may run beside lookups. The comment there says the first displacement uses the first slot; the code uses the second, as stated.
- RollingBloom.RollingBloomFilter.Contains: makes no claim about how likely keys are to share cells.
- Bech32Codec.DecodeEncode: works on bytes below 256 and symbols below 32.
- Base58Codec.DecodeBase58: works on a string without zero characters, as a C string is; the checksummed variants and address types are not modelled.

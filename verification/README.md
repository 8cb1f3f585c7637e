# Bitcoin Post-Quantum: a verified model of its core

Bitcoin Post-Quantum is a fork of Bitcoin Core. This project models the data
structures and algorithms at its core in Dafny, and proves what each of them is
for: against a plain map, a tree walk, an integer, a byte string, or over every
run and every interleaving.

Objects that the program updates in place are classes, loops are loops, and
every method is proved against a specification. Randomness, the clock, hash
functions, floating-point sizing and orders by fee rate are parameters, so each
result holds for all of them. Integer widths are written out where they matter.

| file | subject |
|---|---|
| Coins.dfy | the stack of write-back coin caches over the coin database |
| Miner.dfy | package selection for a new block |
| CheckQueue.dfy | the master/worker queue of script checks, as a state machine over its atomic steps |
| MerkleBlock.dfy | partial Merkle trees (BIP 37, "Partial Merkle branch format") |
| AddrMan.dfy, AddrManGroups.dfy, AddrManStore.dfy | the address manager, what a group of addresses reaches in it, and its file |
| CuckooCache.dfy | the signature cache |
| Chain.dfy | block index, skip links, active chain |
| Arith256.dfy, Compact.dfy | 256-bit arithmetic, compact targets, block proof |
| Pow.dfy | difficulty across the fork |
| Bech32.dfy, Bech32Errors.dfy, Base58.dfy | address encodings, and which errors Bech32 detects |
| RollingBloom.dfy | the rolling Bloom filter |
| NetMessage.dfy | message framing |
| BlockEncodings.dfy | compact-block reconstruction (BIP 152) |
| Consensus.dfy | limits shared by several files |
| Bits.dfy, Collections.dfy, Numbers.dfy, Options.dfy | shared basics |

The main results are `Coins.Run` with `Coins.LastTouchDecides`,
`Miner.BlockAssembler.AddPackageTxs`, `CheckQueue.WaitIsExact`,
`CheckQueue.WaitReturns` and `CheckQueue.WorkNeverIgnored`,
`MerkleBlock.ProofSound` and `MerkleBlock.ProofComplete`, `AddrMan.Run`,
`AddrMan.ThreeFailuresNotGiven`, `AddrManGroups.NewSpread` and
`AddrManGroups.TriedSpread`, `AddrManStore.RoundTrip`, `CuckooCache.Run` and
`CuckooCache.KeptForAnEpoch`, the four tree walks of `Chain`, `Arith256.DivAssign`
and `Compact.GetBlockProof`, `Pow.TargetsStayLegal` and `Pow.ChainTargets`,
`Bech32.BurstRejected`, `Bech32Errors.ThreeErrorsRejected`, `Bech32.RoundTrip` and
`Bech32.DecodeEncode`, `Base58.EncodeDecode` and `Base58.DecodeEncode`,
`RollingBloom.Run`, `NetMessage.Run` and `NetMessage.SentArrive`,
`BlockEncodings.SlotsExact`, `BlockEncodings.FoundExactly` and
`BlockEncodings.Transfer`.

Where the code does not do what its documentation or its names suggest, the model
follows the code:

- A partial Merkle tree may need more than the documented 2N-1 flag bits:
  `MerkleBlock.BitsBound` says exactly when, `DocumentedBitsBoundFails` gives a case.
- For that reason the documented size of such a tree is not always kept, either:
  `MerkleBlock.SizeBound` says for which match masks it is, `DocumentedSizeFails`
  gives a case.
- Slots of a compact block have numbers of 16 bits, while up to 100,000 transactions
  are admitted. Above 65,536 a number wraps and names the slot of another transaction
  (`BlockEncodings.SlotsExact`, `LastSlotWraps`). With 65,536 prefilled transactions
  and a short id the search for a free slot never ends
  (`SearchesEndExactly`, `SearchWithoutEnd`). No block within the weight limit has more
  than 16,666 transactions.
- Cached package totals are not exact. Later ancestors are subtracted without their
  fee deltas (`Miner.TwoAncestors`), and an entry that failed starts again from the
  full totals, with the ancestors that were included before (`StartedAgain`).
  `CachedExcess` gives the difference, and `FeeExact` says when the fee has none.
- `AddCoin` without overwriting is only right when the base has no coin there:
  `Coins.AddIsPlainInsert` is an equivalence, `DishonestAddResurrects` gives a case.
- A displaced element of the cuckoo cache first goes to its second place, not to
  its first as the comment has it; the proofs do not depend on it. Nor is the element
  just put in always left alone: `CuckooCache.NotMovedAgain` says when it is,
  `MovedAgain` gives a case.
- The flag bytes of the cuckoo cache suffice exactly up to 2^32 - 8 slots
  (`CuckooCache.FlagsFit`, `FlagsMissing`), and its epoch is 45 percent of the size
  exactly while 45 times the size fits into 32 bits (`EpochSizeExact`, `EpochTooSmall`).
- Multiplying a 256-bit number in place by itself gives zero (`Arith256.MulAssign`).
- After the fork a retarget divides the target before it multiplies, so a target
  below the time span becomes zero; `Pow.PositiveTarget` says exactly when it stays
  positive, `TargetVanishes` gives a case.
- Constants are those of the fork; the witness scale factor, for one, is 32.

## Model

| member | source | states |
|---|---|---|
| Coins.FillIsInvisible | src/coins.cpp:40-55 | Caching a coin of the base changes neither what the view shows nor the honesty of the flags. |
| Coins.AddIsPlainInsert | src/coins.cpp:66-85 | Adding shows the new coin; the flags stay honest if and only if overwriting was allowed, the entry was already cached, or the base has no coin there. |
| Coins.DishonestAddResurrects | src/coins.cpp:66-112 | Without that promise of the caller, a coin added as new and then spent makes the old coin of the base visible again. |
| Coins.SpendIsPlainRemove | src/coins.cpp:98-112 | Erasing a FRESH entry or keeping a spent DIRTY one both remove exactly this coin from the view. |
| Coins.DropCleanIsInvisible | src/coins.cpp:210-217 | An entry that is not DIRTY may be dropped without a visible difference. |
| Coins.WriteIsPlainUpdate | src/coins.cpp:145-201 | Writing one honest child entry moves exactly its coin, or its absence, into the parent's view; the parent stays honest and the FRESH error cannot arise. |
| Coins.WriteAdvances | src/coins.cpp:145-201 | Whatever order the map is walked in, each entry written brings the parent one step closer to the child's view. |
| Coins.CoinsViewDB.BatchWrite | src/txdb.cpp:110-134 | Writing an honest cache makes the database equal to the view of that cache, with no spent coin stored. |
| Coins.CoinsViewCache.constructor | src/coins.cpp:34 | A new cache shows its base, for any depth of the stack. |
| Coins.CoinsViewCache.FetchCoin | src/coins.cpp:40-55 | Finds an entry if and only if the cache has one or the base shows a coin; adds exactly that clean entry, and no view in the stack changes. |
| Coins.CoinsViewCache.GetCoin | src/coins.cpp:57-64 | Returns the unspent coin of the plain map, or nothing; no view changes. |
| Coins.CoinsViewCache.HaveCoin | src/coins.cpp:125-128 | True if and only if the plain map has the coin. |
| Coins.CoinsViewCache.AddCoin | src/coins.cpp:66-85 | For every caller: throws if and only if an unspent cached coin would be overwritten without permission; otherwise the view gains exactly this coin, and unspendable outputs change nothing. The flags stay honest if and only if overwriting was allowed, the output is unspendable, the entry was cached, or the base shows no coin. |
| Coins.CoinsViewCache.SpendCoin | src/coins.cpp:98-112 | The view loses exactly this coin and the coin handed out is the one shown before; says when an entry was found; the base shows what it did. |
| Coins.CoinsViewCache.Uncache | src/coins.cpp:210-217 | Drops only entries without flags, invisibly. |
| Coins.CoinsViewCache.WriteEntry | src/coins.cpp:146-198 | Refuses exactly an entry that is DIRTY and FRESH over an unspent one of the parent; otherwise performs one round of the loop, specified by WriteIsPlainUpdate. |
| Coins.CoinsViewCache.BatchWrite | src/coins.cpp:145-201 | The misapplied FRESH flag is reported if and only if some entry has it; an honest child never does, and its view becomes the parent's. |
| Coins.CoinsViewCache.Flush | src/coins.cpp:203-208 | Afterwards the base shows what this cache showed, the cache is empty, and its view is the same. |
| Coins.CoinsViewCache.AddOutput | src/coins.cpp:90-95 | One output, overwriting only where that was looked up or for a coinbase: the view gains it unless it is unspendable. |
| Coins.UnspendableExactly | src/script/script.h:663-666 | A coin is skipped as unspendable exactly if its script starts with OP_RETURN or is longer than 10,000 bytes. |
| Coins.WithOutputsAt | src/coins.cpp:87-96 | After the outputs of a transaction, each of its outpoints shows the output of its own number, its coinbase mark and its height, unless that is unspendable; all other outpoints show what they did. |
| Coins.CoinsViewCache.AddCoins | src/coins.cpp:87-96 | Outpoint k of the transaction shows its output k with the coinbase mark and the height given, or what it did before if that output is unspendable; no other outpoint changes. |
| Coins.CoinsViewCache.FlushAt | src/coins.cpp:203-208 | Flushing any cache of the stack is invisible from the top. |
| Coins.CoinsViewCache.UncacheAt | src/coins.cpp:210-217 | So is uncaching in any cache of the stack. |
| Coins.Step | src/coins.cpp:40-217 | One operation, also on a cache pushed onto the stack or popped from it, shows and leaves visible what the plain map does. |
| Coins.Run | src/coins.cpp:40-217 | Over every run on every stack, all answers and the final view are those of a plain map under the same operations, of which StepAt, LastTouchDecides and TraceAt say what each outpoint shows. |
| Coins.StepAt | src/coins.cpp:57-112 | What each operation on the plain map leaves at an outpoint: the coin added, the output of its own number, nothing after a spend, and otherwise what was there. |
| Coins.LastTouchDecides | src/coins.cpp:40-217 | After any run an outpoint shows what the last operation that touched it left there. |
| Coins.TraceAt | src/coins.cpp:57-112 | Reading or spending within a run hands out the coin that the run before it has left. |
| Miner.PoolTotalsNotUnder | src/miner.h:37-43 | The totals a modified entry starts from never under-estimate the ancestors not yet in the block. |
| Miner.IncludeOne | src/miner.cpp:324-338 | Including a package member takes exactly its own size and sigop cost from what remains. |
| Miner.IncludeOneFromFull | src/miner.cpp:329-334 | An entry that restarts from its full totals, less one included ancestor, still covers what remains. |
| Miner.ChargeNotUnder | src/miner.cpp:328-337 | Charging a descendant for an included ancestor never goes below zero and never under-estimates what remains. |
| Miner.ChargeTakes | src/miner.cpp:328-337 | A modified entry always holds the full totals less those of some included ancestors, the first of them with its modified fee and the others with their own. |
| Miner.CachedExcess | src/miner.cpp:324-337 | The cached totals of an entry exceed what is left of its package by the ancestors it missed, that were included before it failed and started again; the fee, by the fee deltas of the ancestors taken after the first, too. |
| Miner.FeeExact | src/miner.h:118-127 | The cached fee is the modified fee of what is left of the package if and only if the fee deltas of the ancestors taken after the first and the modified fees of the missed ones sum to zero. |
| Miner.TwoAncestors | src/miner.cpp:328-337 | With two ancestors included one after the other, the cached fee keeps the fee delta of the second. |
| Miner.StartedAgain | src/miner.cpp:324-337 | An entry that is charged for its second ancestor only, because it failed in between, keeps size and fee of the first, whatever the deltas. |
| Miner.WeightWithinSize | src/miner.cpp:256-264 | No set of transactions weighs more than the scale factor times its virtual size, which is what the test charges. |
| Miner.TxSizeIsLeast | src/policy/policy.cpp:265-268 | The virtual size is the least number that, times 32, covers the weight and the charge for signature operations. |
| Miner.BlockAssembler.constructor | src/miner.cpp:73-82 | The weight limit is brought between 32,000 and 31,968,000 and the size limit between 1,000 and 31,999,000; sizes are accounted for exactly if less than the latter is asked for. The block is empty and valid. |
| Miner.AncestorCountsLess | src/miner.h:86-96 | An ancestor always has the smaller ancestor count, and the count is the size of the package. |
| Miner.SortedBefore | src/miner.cpp:358-367 | In a package sorted by ancestor count, every ancestor not yet in the block stands before its descendant. |
| Miner.PackageKeepsOrder | src/miner.cpp:358-367 | Appending the sorted rest of a package keeps every transaction behind its in-pool ancestors. |
| Miner.AncestorsFirstIsClosed | src/miner.cpp:358-367 | A block in that order contains all ancestors of its transactions. |
| Miner.BlockAssembler.ResetBlock | src/miner.cpp:116-129 | The empty block satisfies the assembler's invariant. |
| Miner.BlockAssembler.OnlyUnconfirmed | src/miner.cpp:243-254 | Removes exactly the entries that are in the block. |
| Miner.BlockAssembler.TestPackageExact | src/miner.cpp:256-264 | The test passes if and only if weight plus 32 times the package size is below the limit, and signature operations stay below 640,000. |
| Miner.BlockAssembler.TestPackageTransactions | src/miner.cpp:271-292 | True if and only if every transaction is eligible and, where sizes are accounted for, the package still fits. |
| Miner.BlockAssembler.AddToBlock | src/miner.cpp:294-314 | Adds one transaction; all counters stay exact sums over the block. |
| Miner.BlockAssembler.SortForBlock | src/miner.cpp:358-367 | A permutation of the package sorted by ancestor count. |
| Miner.BlockAssembler.UpdateDescendants | src/miner.cpp:320-339 | Every out-of-block descendant of the included transaction is in the modified set, with an estimate that is not too low. |
| Miner.BlockAssembler.UpdatePackagesForAdded | src/miner.cpp:316-341 | After a whole package: no entry of the modified set under-estimates, none is in the block, and all descendants outside the block are covered. |
| Miner.BlockAssembler.AddSorted | src/miner.cpp:496-500 | Block and counters grow by exactly the totals of the package, and its modified entries go. |
| Miner.BlockAssembler.AddPackage | src/miner.cpp:489-500 | A package that passed the tests, by an estimate that is not too low, leaves the block within all limits and in ancestor order. |
| Miner.BlockAssembler.IncludePackage | src/miner.cpp:489-505 | Includes a package and restores the estimate invariant for all its descendants. |
| Miner.BlockAssembler.TryPackage | src/miner.cpp:472-505 | Either the entry is now in the block, or nothing changed and it is unfit: with all its ancestors it exceeds a limit or includes an ineligible transaction. |
| Miner.BlockAssembler.UnfitIsFinal | src/miner.cpp:256-292 | What is unfit for a block is unfit for every block that has used more. |
| Miner.BlockAssembler.FailedTestIsUnfit | src/miner.cpp:256-264 | An entry that fails the test by an estimate that is not too high is unfit with its full totals. |
| Miner.BlockAssembler.SkippedIsSettled | src/miner.cpp:352-356 | A skipped entry is in the block, waiting among the modified ones, or known to be unfit. |
| Miner.BlockAssembler.Consider | src/miner.cpp:439-505 | The candidate is settled, and either the block grows or at most the candidate leaves the modified set; an early stop has its reason: a fee too low for the size, or more than 1,000 failures in a row in a block with less than 32,000 weight to spare. |
| Miner.BlockAssembler.NextCandidate | src/miner.cpp:409-437 | The chosen candidate is never in the block, so the assertion holds. |
| Miner.BlockAssembler.StartSelecting | src/miner.cpp:379-389 | The loop starts with its invariant. |
| Miner.BlockAssembler.AllSettled | src/miner.cpp:400-407 | When nothing is waiting any more, everything left out is unfit. |
| Miner.BlockAssembler.Evaluate | src/miner.cpp:409-505 | One turn decreases (transactions outside the block, entries left) and keeps the invariant. |
| Miner.BlockAssembler.AddPackageTxs | src/miner.cpp:379-507 | For every mempool and every order of candidates the loop ends with exact counters, ancestors first and nothing selected dropped, with weight, signature operations and size within their limits, written out in numbers; if it runs out of candidates, the package of each transaction left out exceeds one of these limits or holds an ineligible transaction; if it stops for a fee, some entry outside the block has one too low for its size. |
| CheckQueue.InvInit | src/checkqueue.h:131 | A new queue satisfies the invariant: nTodo is queued plus in-flight checks, fAllOk is the verdict on the finished ones, and the counters are exact. |
| CheckQueue.InvAdd | src/checkqueue.h:146-158 | Adding checks keeps it. |
| CheckQueue.InvEnter | src/checkqueue.h:66-72 | A thread entering the loop keeps it. |
| CheckQueue.InvEvaluate | src/checkqueue.h:119-122 | Evaluating a check outside the lock keeps it. |
| CheckQueue.InvLock | src/checkqueue.h:74-117 | The whole critical section keeps it, and a master that returns reports the verdict on exactly this session. |
| CheckQueue.DetachedOk | src/checkqueue.h:77-86 | Folding a finished batch into fAllOk keeps it exact. |
| CheckQueue.InvSleep | src/checkqueue.h:88-101 | Going to sleep keeps it. |
| CheckQueue.InvTake | src/checkqueue.h:102-116 | Taking a batch neither loses nor duplicates a check. |
| CheckQueue.InvReturn | src/checkqueue.h:89-97 | When the master returns, the result is exact and nothing is left for the next session. |
| CheckQueue.InvNext | src/checkqueue.h:66-158 | Every step of every thread keeps the invariant. |
| CheckQueue.RunInvariant | src/checkqueue.h:66-158 | So it holds after every interleaving, and the checks of the session are those added since the last return. |
| CheckQueue.WaitIsExact | src/checkqueue.h:140-143 | In every interleaving, Wait returns true if and only if every check added since the previous Wait is valid, and leaves an empty queue, no batch and fAllOk set. |
| CheckQueue.NoLostWakeup | src/checkqueue.h:77-101 | A master asleep without notification implies a worker with a batch in flight. |
| CheckQueue.WorkNeverIgnored | src/checkqueue.h:66-158 | In every state of every interleaving, if the queue has checks and any thread is in Loop, some thread goes on by itself. |
| CheckQueue.BatchShare | src/checkqueue.h:102-107 | A batch is one check, or at most the limit and the share of the queue that falls to each thread with idle ones counted twice; and it is not smaller than that. |
| CheckQueue.EnabledStep | src/checkqueue.h:73-123 | A thread that may run always has a next step; in particular a batch is never larger than the queue. |
| CheckQueue.WaitCanProceed | src/checkqueue.h:73-123 | While Wait has not returned, some thread can run. |
| CheckQueue.RunStepDescends | src/checkqueue.h:73-123 | Each step of a thread that may run decreases a natural number. |
| CheckQueue.NextMoves | src/checkqueue.h:66-158 | The steps of the queue are exactly those of a thread that may run, an entry into Loop, a spurious wakeup and an Add. |
| CheckQueue.MoveDescends | src/checkqueue.h:66-158 | What each of them does to that number: a thread that may run lowers it, a spurious wakeup does not raise it, an entry raises it by at most one and an Add by at most four for each check and one for each thread. |
| CheckQueue.RunIsBounded | src/checkqueue.h:66-158 | In any run, threads that may run take at most as many steps as that number at its start and what entries and Adds have brought. |
| CheckQueue.WaitReturns | src/checkqueue.h:66-143 | Every run that ends where no thread can go on by itself has a return of Wait, for every schedule and whatever threads enter or wake up spuriously; the first one comes before any Add and reports exactly whether all checks in hand at the beginning are valid. The steps of threads that may run are bounded. |
| MerkleBlock.TreeHeight | src/merkleblock.cpp:121-124 | The root's height is the least one with room for all transactions. |
| MerkleBlock.InsideWidth | src/merkleblock.h:66-69 | A position is within the tree width if and only if a transaction lies under it. |
| MerkleBlock.HashByLevels | src/merkleblock.cpp:40-58 | The hash of a node is the entry at its position when the list of txids is hashed pair by pair, level by level, with a last one alone paired with itself. |
| MerkleBlock.RootByLevels | src/consensus/merkle.cpp:13-33 | The root is what is left of these levels when a single hash is left. |
| MerkleBlock.SameHashSameFirst | src/merkleblock.cpp:40-58 | With an injective pair hash, equal node hashes at a height mean equal first transactions. |
| MerkleBlock.ChildrenDiffer | src/merkleblock.cpp:101-107 | For distinct txids, two children of a node never have the same hash, so the check for identical children refuses no honest proof. |
| MerkleBlock.ProofSound | src/merkleblock.cpp:78-163 | For arbitrary bits and hashes: a proof that yields the true root shows only true (txid, position) pairs, in ascending positions, if it has the right number of transactions, or if it is accepted and its number gives a tree of the right height. |
| MerkleBlock.ExtractSound | src/merkleblock.cpp:78-114 | So does every subtree that hashes to the true node and, if the number of transactions is not the true one, is read without failure: a right child that the tree does not have would be identical to the left one. |
| MerkleBlock.RepeatedLastRefused | src/merkleblock.cpp:101-107 | The last of three transactions shown once more as a fourth gives the true root, and is refused. |
| MerkleBlock.NothingAppended | src/merkleblock.cpp:152-158 | Of two accepted proofs of which one extends the other, both have the same hashes and the same number of flag bytes. |
| MerkleBlock.ProofComplete | src/merkleblock.cpp:60-163 | For distinct txids, as many as extraction admits, and any match mask: build, pack, unpack and extract is accepted and yields the root and exactly the matched pairs in order. |
| MerkleBlock.HashPerTransaction | src/merkleblock.h:37-41 | At most one stored hash per transaction. |
| MerkleBlock.HashesExact | src/merkleblock.cpp:60-76 | The number of hashes is that of the stored nodes of the match mask: leaves and nodes without a match, reached from the root. |
| MerkleBlock.HashPerMatch | src/merkleblock.h:37-41 | At most one stored hash per level and matched transaction, and one more. |
| MerkleBlock.BitsExact | src/merkleblock.h:48 | The number of flag bits is exactly twice the hashes, minus one, plus the traversed nodes without right child. |
| MerkleBlock.BitsBound | src/merkleblock.h:48 | Bits are at most 2N-1+height; the documented 2N-1 holds if and only if no match lies under a node without right child. |
| MerkleBlock.DocumentedBitsBoundFails | src/merkleblock.h:48 | Five transactions with the last one matched: two hashes and five bits. |
| MerkleBlock.SizeBound | src/merkleblock.h:32-49 | With m stored and k one-child nodes of the match mask, the documented size 10 + ceil(32.25 N) is kept if and only if 2 m + k is at most 2017 or k + 2 ((m - 1) mod 4) at most 7; it is never exceeded by more than two bytes. |
| MerkleBlock.DocumentedSizeFails | src/merkleblock.h:32-49 | 1012 transactions, all matched: 2025 bits, and one byte more than documented. |
| MerkleBlock.UnpackedPacked | src/merkleblock.h:92-105 | Unpacking packed bits gives them back, with fewer than eight padding bits. |
| MerkleBlock.PackBits | src/merkleblock.h:101-104 | Bit p goes to bit p mod 8 of byte p / 8, and all other bits are zero. |
| MerkleBlock.UnpackBits | src/merkleblock.h:96-98 | All eight bits of every byte, lowest first. |
| MerkleBlock.PartialMerkleTree.constructor | src/merkleblock.cpp:116-128 | Building stores the bits and hashes of the specification. |
| MerkleBlock.PartialMerkleTree.Unserialize | src/merkleblock.h:93-99 | Reading gives the proof with all bits of the bytes, marked good. |
| MerkleBlock.PartialMerkleTree.Serialize | src/merkleblock.h:100-105 | Writing gives the number of transactions, the hashes and the packed bits. |
| MerkleBlock.PartialMerkleTree.RootHeight | src/merkleblock.cpp:121-124 | The loop finds the root's height. |
| MerkleBlock.PartialMerkleTree.AnyMatch | src/merkleblock.cpp:61-64 | Whether any transaction under a node is matched. |
| MerkleBlock.PartialMerkleTree.TraverseAndBuild | src/merkleblock.cpp:60-76 | Appends the bits and hashes of a subtree, depth first. |
| MerkleBlock.PartialMerkleTree.TakeHash | src/merkleblock.cpp:87-92 | The next stored hash, or a failure when none is left. |
| MerkleBlock.PartialMerkleTree.TraverseAndExtract | src/merkleblock.cpp:78-114 | The in-place traversal with its counters and bad flag reads a subtree as the specification does. |
| MerkleBlock.PartialMerkleTree.ExtractChildren | src/merkleblock.cpp:98-113 | Its descending part, with identical children refused; that this refusal is what keeps proofs sound whatever number they claim is ExtractSound. |
| MerkleBlock.PartialMerkleTree.ExtractMatches | src/merkleblock.cpp:132-163 | The root of an accepted proof and null otherwise; matches are replaced and positions appended even by a refused traversal; nothing is read from a proof without transactions, with more than 16,666, with more hashes than transactions or fewer bits than hashes. |
| MerkleBlock.Relay | src/merkleblock.cpp:116-163 | Building, writing, reading and extracting in sequence gives the root and exactly the matches in order, within two bytes of the documented size. |
| AddrMan.GoodLinked | src/addrman.cpp:305-306 | One more place in a new bucket keeps all indexes exact. |
| AddrMan.GoodUnlinked | src/addrman.cpp:128-141 | One place fewer does, too; an entry without place is in limbo. |
| AddrMan.GoodSwapped | src/addrman.cpp:94-112 | Swapping two entries of vRandom keeps vRandom and nRandomPos inverse. |
| AddrMan.GoodDeleted | src/addrman.cpp:114-126 | Deleting an entry in no table keeps all indexes exact, including the counters. |
| AddrMan.GoodCreated | src/addrman.cpp:82-92 | Creating an entry for an unknown address keeps them, up to its pending count. |
| AddrMan.GoodCleared | src/addrman.cpp:128-141 | Clearing a slot keeps them, deleting the occupant with its last place. |
| AddrMan.GoodWithdrawn | src/addrman.cpp:145-155 | Taking an entry out of all new buckets brings its reference count to zero. |
| AddrMan.GoodReadmitted | src/addrman.cpp:162-183 | Throwing an entry out of the tried table into its new slot keeps them. |
| AddrMan.GoodMadeTried | src/addrman.cpp:143-189 | All of MakeTried leaves the manager consistent. |
| AddrMan.MadeTriedMoves | src/addrman.cpp:143-189 | The entry is in its tried slot, and a former occupant is known still and stands in its new slot. |
| AddrMan.OccupantCounted | src/addrman.cpp:128-141 | An occupied slot means a positive reference count, so counts never go below zero. |
| AddrMan.BucketsOfGroups | src/addrman.cpp:12-26 | The tried bucket of an address is one of the eight of its group, and its new bucket one of the 64 of the group of its source. |
| AddrMan.CountersMean | src/addrman.cpp:386-460 | The counters: tried entries are as many as taken tried slots, and tried and new ones together are all entries. |
| AddrMan.TerribleExactly | src/addrman.cpp:34-54 | An entry is terrible exactly if it was not tried within the last minute, and is from the future, unseen for 30 days, failed three times without ever succeeding, or failed ten times without success in a week. |
| AddrMan.Manager.Clear | src/addrman.h:457-480 | The empty manager. |
| AddrMan.Manager.SwapRandom | src/addrman.cpp:94-112 | Exchanges two places of vRandom and both back references. |
| AddrMan.Manager.Delete | src/addrman.cpp:114-126 | Forgets an entry that is in no table. |
| AddrMan.Manager.ClearNew | src/addrman.cpp:128-141 | Frees a slot, and forgets its occupant with the last place. |
| AddrMan.Manager.Create | src/addrman.cpp:82-92 | Enters a new address in mapInfo, mapAddr and vRandom. |
| AddrMan.Manager.WithdrawFromNew | src/addrman.cpp:145-152 | The loop over all new buckets finds every place of the entry. |
| AddrMan.Manager.EvictTried | src/addrman.cpp:162-183 | Throws the occupant of a tried slot back into the new table. |
| AddrMan.Manager.MakeTried | src/addrman.cpp:143-189 | From any consistent manager to a consistent one, with the entry tried. |
| AddrMan.Manager.FindNewBucket | src/addrman.cpp:220-230 | The scan from a random start finds a bucket whenever the entry has one. |
| AddrMan.Manager.MoveToTried | src/addrman.cpp:220-240 | An entry of the new table is taken out of all its buckets and made tried: the exit for "no bucket found" is never taken. |
| AddrMan.Manager.Good_ | src/addrman.cpp:191-241 | The whole new state: an unknown service changes nothing but nLastGood; a known one gets fresh statistics and, unless it is there already, moves to its tried slot. |
| AddrMan.Manager.InsertNew | src/addrman.cpp:303-306 | The slot is cleared and then holds the entry; only its former occupant and the entry change. |
| AddrMan.Manager.PlaceInNew | src/addrman.cpp:292-312 | The whole new state: the entry gets the slot if and only if it is free or its occupant may be dropped, and is forgotten if and only if it ends up in no slot. |
| AddrMan.Manager.Refresh | src/addrman.cpp:257-284 | What a repeated announcement updates, and when it tries for one more bucket. |
| AddrMan.Manager.Announce | src/addrman.cpp:286-289 | A new entry with its penalised time, counted as new. |
| AddrMan.Manager.Add_ | src/addrman.cpp:243-314 | The whole new state, consistent: the tried table is as it was, no entry changes but the announced one and the occupant of its slot, and true is returned exactly for unknown routable addresses. |
| AddrMan.Manager.Attempt_ | src/addrman.cpp:316-336 | Changes only the statistics of the exact service. |
| AddrMan.Manager.Connected_ | src/addrman.cpp:484-502 | Changes only its time, at most every 20 minutes. |
| AddrMan.Manager.SetServices_ | src/addrman.cpp:504-520 | Changes only its service bits. |
| AddrMan.Manager.GetAddr_ | src/addrman.cpp:463-482 | At most 2,500 addresses and 23 percent of all, no two of the same host, each of an entry that may be given away; fewer only if every such entry is among them. |
| AddrMan.NotGiven | src/addrman.cpp:463-482 | The host of an entry that may not be given away is in no answer. |
| AddrMan.Step | src/addrman.cpp:82-520 | Every operation keeps all indexes consistent; all but Clear keep tried slots occupied and record in every entry exactly what the operation did: attempts, successes, times and services. An announcement changes the new table only in the buckets of its source group. |
| AddrMan.Run | src/addrman.cpp:82-520 | In every state of every run from an empty manager all indexes are consistent; until the next Clear a tried slot once taken stays taken, and every entry records what each operation did to it; the new buckets in use are those of the groups that have announced something. |
| AddrMan.FailuresAddUp | src/addrman.cpp:316-336 | Along a run without success, the attempts of an entry grow by exactly the attempts that were counted. |
| AddrMan.ThreeFailuresNotGiven | src/addrman.cpp:34-54 | A peer that never succeeded and failed three counted attempts is in no answer given an hour after it was last tried, in every run. |
| AddrMan.NewcomerNotGiven | src/addrman.cpp:34-54 | Neither is a peer that was announced and has failed three counted attempts since. |
| AddrManGroups.TriedSpread | src/addrman.h:125-127 | Tried addresses of one group are in at most eight buckets, and at most 512, in every consistent state. |
| AddrManGroups.NewSpread | src/addrman.h:119-121 | Where only the given groups have announced anything, which Run shows of every state for the groups of all sources so far, the new table uses at most 64 of its 1,024 buckets and 4,096 slots for each of them. |
| AddrManGroups.OneGroupReach | src/addrman.h:113-121 | However often sources of one group announce, they change nothing outside the 64 new buckets of that group. |
| AddrManStore.WriteInfos | src/addrman.h:315-334 | Entries of a kind in ascending order of ids, with their numbers; the source's assertions on nNew and nTried hold. |
| AddrManStore.Serialize | src/addrman.h:301-349 | The stream of the specification; both counts are natural numbers. |
| AddrManStore.MarkedTwice | src/addrman.h:313 | The number of new buckets is stored with bit 30 flipped, and flipping it again gives the number back. |
| AddrManStore.ReadNew | src/addrman.h:381-397 | One round of the loop over new entries, for usable and unusable bucket lists. |
| AddrManStore.ReadTried | src/addrman.h:402-418 | One round of the loop over tried entries, which are lost if their slot is taken. |
| AddrManStore.ReadPlace | src/addrman.h:425-436 | One bucket index, ignored unless it fits. |
| AddrManStore.Prune | src/addrman.h:439-449 | The whole new state: the entries without a place are deleted in ascending order of ids. Afterwards none is left, and every entry with a place is as before. |
| AddrManStore.Unserialize | src/addrman.h:351-455 | Succeeds if and only if header and length are right; then the manager is what the stream describes, pruned. |
| AddrManStore.NewLimit | src/addrman.h:372-374 | A consistent manager has at most 65,536 new entries. |
| AddrManStore.TriedLimit | src/addrman.h:376-378 | And at most 16,384 tried ones. |
| AddrManStore.SavedReadable | src/addrman.h:301-378 | What a consistent manager writes passes all checks of the reader. |
| AddrManStore.LoadNewCopies | src/addrman.h:381-397 | Reading the first k new entries copies them, numbered in order and consistently. |
| AddrManStore.LoadTriedCopies | src/addrman.h:402-418 | Reading the tried entries loses none to a collision. |
| AddrManStore.PlacesLeft | src/addrman.h:428-434 | No place is refused for the limit of eight. |
| AddrManStore.LoadBucketsCopies | src/addrman.h:422-437 | Reading the bucket lists rebuilds the new table slot for slot. |
| AddrManStore.TriedTableRebuilt | src/addrman.h:402-418 | The tried table, never written, is rebuilt slot for slot. |
| AddrManStore.AddressesRebuilt | src/addrman.h:381-418 | mapAddr, never written, is rebuilt, too. |
| AddrManStore.RoundTrip | src/addrman.h:301-455 | Loading what a consistent manager saved gives a consistent manager equal up to a bijection of ids: same infos, kinds, reference counts, tables and counters; nothing is lost. |
| AddrManStore.Reload | src/addrman.h:301-455 | The same for the two methods, into any other manager with the same hashes. |
| Bits.SetBit | src/cuckoocache.h:92-95 | Setting one flag of a byte leaves the other seven. |
| Bits.ClearBit | src/cuckoocache.h:103-106 | So does clearing one. |
| CuckooCache.FlagsFit | src/cuckoocache.h:61-68 | The reserved bytes hold all flags if and only if the size is at most 2^32 - 8. |
| CuckooCache.FlagsMissing | src/cuckoocache.h:61-68 | For 2^32 - 7 flags no byte is reserved. |
| CuckooCache.Flags.Setup | src/cuckoocache.h:79-83 | All flags are set. |
| CuckooCache.Flags.Set | src/cuckoocache.h:92-95 | Exactly one flag changes. |
| CuckooCache.Flags.Unset | src/cuckoocache.h:103-106 | Exactly one flag changes. |
| CuckooCache.Place | src/cuckoocache.h:243-253 | The fixed-point product: the place is the one whose share of all 2^32 hashes the hash falls into. |
| CuckooCache.EveryPlaceReached | src/cuckoocache.h:243-253 | Every slot is the place of some hash. |
| CuckooCache.Locs | src/cuckoocache.h:243-253 | Place k is the place of hash k, for eight hashes; all within the table. |
| CuckooCache.Displaces | src/cuckoocache.h:430-438 | A swap keeps the multiset of uncollected (element, epoch) pairs together with the one in hand, and every element at one of its own places. |
| CuckooCache.Lands | src/cuckoocache.h:407-415 | Placing the element in hand into a collected slot completes the insert without loss. |
| CuckooCache.Drops | src/cuckoocache.h:406-440 | Running out of depth loses exactly the element in hand. |
| CuckooCache.LosesAtMostOne | src/cuckoocache.h:386-390 | After an insert the uncollected elements are the old ones and the new one, with the exception of at most one. |
| CuckooCache.RefreshKeepsAll | src/cuckoocache.h:398-405 | Inserting an element that is in the table loses nothing. |
| CuckooCache.EpochSizeExact | src/cuckoocache.h:348-349 | The epoch size is 45 percent of the size if and only if 45 * size does not wrap in 32 bits. |
| CuckooCache.EpochTooSmall | src/cuckoocache.h:348-349 | With 2^28 slots the epoch size is 34,896,609 instead of 120,795,955. |
| CuckooCache.AgedKeeps | src/cuckoocache.h:305-310 | A new epoch leaves no recent uncollected element. |
| CuckooCache.AgedDemotes | src/cuckoocache.h:305-310 | The uncollected elements of the last epoch are then those that were recent. |
| CuckooCache.Cache.constructor | src/cuckoocache.h:340-353 | An empty cache satisfies the invariant. |
| CuckooCache.Cache.CountRecent | src/cuckoocache.h:297-300 | Counts the uncollected elements of the current epoch. |
| CuckooCache.Cache.Age | src/cuckoocache.h:305-310 | Demotes the recent elements and collects all others. |
| CuckooCache.Cache.EpochCheck | src/cuckoocache.h:289-321 | Leaves room for one more recent element within the bound, and says when it starts an epoch and what the counter is then. |
| CuckooCache.Cache.NextPlace | src/cuckoocache.h:430 | The place after the first occurrence of the last one among the eight, and the second if it is none of them. |
| CuckooCache.NotMovedAgain | src/cuckoocache.h:416-430 | The element just put in is not the one moved next if and only if the place behind the first that is its own is another one. |
| CuckooCache.MovedAgain | src/cuckoocache.h:416-430 | It is, where the eight hashes of the element in hand agree. |
| CuckooCache.Cache.Displace | src/cuckoocache.h:406-440 | For any depth limit at most the element in hand is lost, and only if all places of the new element were taken. |
| CuckooCache.Cache.Insert | src/cuckoocache.h:392-440 | Keeps every uncollected element at one of its own places and loses at most one, counted after epoch_check, and only if all places of the new element were taken. |
| CuckooCache.Cache.Contains | src/cuckoocache.h:467-477 | True if and only if one of the eight places holds the element, so always for an uncollected one; erasing collects one such slot. |
| CuckooCache.EraseIsLazy | src/cuckoocache.h:442-477 | An element found and erased is found again. |
| CuckooCache.KeptForAnEpoch | src/cuckoocache.h:177-196 | What is inserted is found again through epoch_size further inserts, with any other operations among them, unless it is erased or the insert drops it. |
| CuckooCache.Run | src/cuckoocache.h:289-477 | Over any run the current epoch has at most epoch_size + max(1, epoch_size / 16) uncollected elements, with 21 slots or more some slot is always collected, and all uncollected elements are found. |
| Chain.InvertsLowestOne | src/chain.cpp:69-70 | n & (n - 1) takes away exactly the lowest one of n. |
| Chain.SkipsBack | src/chain.cpp:72-81 | The skip height is always lower. |
| Chain.StepDown | src/chain.cpp:91-106 | Each step of the walk lowers the number of digits in which the height and the wanted one differ, or a rank below 3 L + 4. |
| Chain.PreferredLink | src/chain.cpp:93-98 | The parent is preferred to the skip link only where one place lower there are no more ones to clear. |
| Chain.BlockIndex.GetAncestor | src/chain.cpp:83-108 | Over any tree with right skip links: the block that following the parent link nHeight - height times reaches; null exactly out of range. With all skip links there, at most 3 L^2 + 7 L + 3 steps for a height of L binary digits. |
| Chain.BlockIndex.BuildSkip | src/chain.cpp:115-119 | Gives a block with a parent its right skip link, and keeps those of the tree right. |
| Chain.AddBlock | src/validation.cpp:2843-2856 | A new block on any block of the tree keeps it a tree with right skip links. |
| Chain.AncestorOfAncestor | src/chain.cpp:83-108 | Ancestors of ancestors are ancestors. |
| Chain.CChain.SetTip | src/chain.cpp:11-21 | In spite of the early exit the vector is the full path from the root to the new tip. |
| Chain.CChain.FindFork | src/chain.cpp:51-60 | The highest common ancestor of a block and the tip. |
| Chain.CChain.GetLocator | src/chain.cpp:23-49 | The ancestors of the start at the heights of LocatorHeights, whether read from the vector or by skip links. |
| Chain.CChain.StepBack | src/chain.cpp:36-43 | Vector and skip links give the same ancestor. |
| Chain.LocatorHeights | src/chain.cpp:23-49 | Eleven single steps, then doubling ones: heights fall strictly from the start to zero. |
| Chain.LocatorAt | src/chain.cpp:23-49 | Entry i is i blocks back for the first eleven, and 9 + 2^(i - 10) back from the eleventh on, but not below the root. |
| Chain.LocatorIsShort | src/chain.cpp:23-49 | A locator has at most twelve entries more than its height has bits. |
| Chain.ContainsAncestors | src/chain.h:486-488 | The chain contains exactly the ancestors of its tip. |
| Chain.LastCommonAncestor | src/chain.cpp:155-170 | The highest common ancestor of two blocks, or null if there is none. |
| Arith256.AddAssign | src/arith_uint256.h:142-152 | Addition modulo 2^256 with no 64-bit overflow, also onto itself. |
| Arith256.Complement | src/arith_uint256.h:76-82 | 2^256 - 1 minus the number. |
| Arith256.Increment | src/arith_uint256.h:180-187 | Plus one modulo 2^256. |
| Arith256.Decrement | src/arith_uint256.h:197-204 | Minus one modulo 2^256. |
| Arith256.Negate | src/arith_uint256.h:84-91 | The negative modulo 2^256. |
| Arith256.SubAssign | src/arith_uint256.h:154-158 | Subtraction modulo 2^256. |
| Arith256.CompareTo | src/arith_uint256.cpp:112-122 | The sign of the difference. |
| Arith256.WordProduct | src/arith_uint256.cpp:62-81 | A product of limbs with two limbs added fits into 64 bits. |
| Arith256.MulAssign32 | src/arith_uint256.cpp:58-68 | Product with a 32-bit number modulo 2^256. |
| Arith256.MulRow | src/arith_uint256.cpp:75-82 | Adds one row of the product, cut off at the width. |
| Arith256.MulAssign | src/arith_uint256.cpp:70-84 | Product modulo 2^256; zero if both operands are the same object. |
| Arith256.OrDisjoint | src/arith_uint256.cpp:32-36 | Or adds where the operands share no bit. |
| Arith256.ShlAssign | src/arith_uint256.cpp:24-39 | Product with 2^shift modulo 2^256, for any shift. |
| Arith256.ShrAssign | src/arith_uint256.cpp:41-56 | Quotient by 2^shift, for any shift. |
| Arith256.Bits | src/arith_uint256.cpp:174-187 | The number of bits: 2^(r-1) <= value < 2^r. |
| Arith256.SetBit | src/arith_uint256.cpp:103 | Sets one quotient bit, all lower ones being zero. |
| Arith256.Quotient | src/arith_uint256.cpp:99-108 | The shift-subtract loop computes the exact quotient. |
| Arith256.DivAssign | src/arith_uint256.cpp:86-110 | Exact integer division; division by zero is an error and leaves zero. |
| Compact.SetCompact | src/arith_uint256.cpp:207-225 | Decodes value and flags. |
| Compact.DocumentedValue | src/arith_uint256.h:267-286 | The documented meaning: an exponent e of eight bits, a sign and a mantissa m of 23 bits stand for m * 256^(e - 3), rounded down. |
| Compact.OverflowExact | src/arith_uint256.cpp:221-224 | The overflow flag is set if and only if the number is 2^256 or more; otherwise the decoded value is exact. |
| Compact.GetCompact | src/arith_uint256.cpp:227-248 | The highest three bytes with their length, sign bit free; both assertions hold. |
| Compact.CompactRoundTrip | src/arith_uint256.cpp:207-248 | SetCompact(GetCompact(x)) is neither negative nor overflowing, at most x, and falls short of x by less than a 2^-15 part of itself. |
| Compact.SignRoundTrip | src/arith_uint256.cpp:207-248 | With the sign asked for, the same number comes back, negative unless it is zero. |
| Compact.RoomForOne | src/chain.cpp:128-133 | A decoded target plus one never wraps. |
| Compact.GetBlockProof | src/chain.cpp:121-134 | floor(2^256 / (target + 1)) without a 257th bit; zero for invalid targets. |
| Pow.Clamped | src/pow.cpp:77-82 | The time span is between a quarter and four times the aim; RetargetFollowsTime says what becomes of it without naming it. |
| Pow.CalculateNextWorkRequired | src/pow.cpp:72-100 | Agrees with exact integer arithmetic: multiply first before the fork, divide first after it, capped by the limit of the era; RetargetFollowsTime says what that is. |
| Pow.RetargetFollowsTime | src/pow.cpp:72-100 | The new target is the old one times the time that the last interval took, over the time that it should take, with that time held between a quarter and four times; it is rounded as the era rounds it, capped by the limit of the era, and lost by less than a 2^15th in the compact form. |
| Pow.SlowerIsEasier | src/pow.cpp:84-94 | A slower interval never leads to a lower target. |
| Pow.ChainTargets | src/pow.cpp:29-100 | The targets of every chain block by block: the limit while difficulty is low, the parent's between retargets, and at a retarget the parent's in the share of time from the first block of the last interval to its last. |
| Pow.MinDifficultyTargets | src/pow.cpp:41-61 | With the rule for test networks: the limit for a block more than two spacings after its parent, and otherwise the target of the last block that starts its interval or did not use the rule. |
| Pow.GetNextWorkRequired | src/pow.cpp:29-70 | The required bits in all branches, including the rule for test networks; both assertions hold. |
| Pow.FirstOfInterval | src/pow.cpp:63-67 | The assertion on nHeightFirst holds. |
| Pow.MainIsMainStyle | src/chainparams.cpp:104-115 | The main network meets the conditions of the results below. |
| Pow.ScaledBounded | src/pow.cpp:84-94 | No product reaches 2^256 in either era, and the target at most quadruples. |
| Pow.PositiveTarget | src/pow.cpp:84-94 | After a retarget the target is positive if and only if the scaled target is not rounded down to zero. |
| Pow.TargetVanishes | src/pow.cpp:88-99 | On the main network past the fork a target of one becomes zero at the next retarget. |
| Pow.LowDiffPastFork | src/pow.cpp:36-38 | The low-difficulty stretch always covers the fork block. |
| Pow.LowDiffToRetarget | src/pow.cpp:36-38 | It ends at the first retarget at or after the end of the premine window. |
| Pow.NextLegal | src/pow.cpp:29-100 | The next block's target is legal if the last one's is, across the fork. |
| Pow.TargetsStayLegal | src/pow.cpp:29-100 | On every chain from a legal first block, with retargeting and without the test-network rule, every target decodes non-negative, without overflow and within the limit of its era. |
| Pow.TargetsGrowSlowly | src/pow.cpp:29-100 | Outside the low-difficulty stretch each target is at most four times its predecessor, and no product wraps. |
| Pow.CheckProofOfWork | src/pow.cpp:129-146 | Accepts exactly hashes at most a target that is not negative, does not overflow, is positive and within the limit of the era. |
| Bech32.PolyMod | src/bech32.cpp:37-94 | The remainder of the whole sequence. |
| Bech32.StepLinear | src/bech32.cpp:60-92 | A step is linear over exclusive or. |
| Bech32.StepInjective | src/bech32.cpp:60-92 | A step is injective on 30-bit remainders. |
| Bech32.FoldLinear | src/bech32.cpp:37-94 | So is the remainder of a sequence linear. |
| Bech32.FoldInjective | src/bech32.cpp:37-94 | And injective in its starting value, at every length. |
| Bech32.WindowsDiffer | src/bech32.cpp:37-94 | Different windows of at most six values give different remainders. |
| Bech32.BurstRejected | src/bech32.cpp:118-125 | A valid string with any change within six consecutive values, in particular of a single one, is rejected, at every length. |
| Bech32Errors.TurnsDiffer | src/bech32.cpp:46-48 | An element of the field of 1024 elements has order 1023: none of its powers less than 1023 apart agree on anything but zero. |
| Bech32Errors.EmbedScaled | src/bech32.cpp:51-58 | The values are a subfield of 32 elements in it: twice a value, modulo a^5 + a^3 + 1, is a fixed power times it. |
| Bech32Errors.Root997 | src/bech32.cpp:44-48 | The 997th power is a root of the generator. |
| Bech32Errors.Root998 | src/bech32.cpp:44-48 | So is the 998th. |
| Bech32Errors.Root999 | src/bech32.cpp:44-48 | And the 999th. |
| Bech32Errors.SyndromeStep | src/bech32.cpp:60-92 | At a root of the generator, the remainder takes in a value as the polynomial of all values does. |
| Bech32Errors.SyndromeFold | src/bech32.cpp:37-94 | So a sequence and its remainder have the same value there. |
| Bech32Errors.AllVanish | src/bech32.cpp:46-48 | Three terms that vanish at three consecutive powers are zero, where their places are less than 1023 apart. |
| Bech32Errors.SparseDetected | src/bech32.cpp:46-48 | Up to three values other than zero within 1023 places never have the remainder zero. |
| Bech32Errors.ThreeErrorsRejected | src/bech32.cpp:46-48 | A valid string with up to three changed values, wherever they are within 1023 places, is rejected. |
| Bech32Errors.TwoErrorsRejected | src/bech32.cpp:46-48 | In particular with two, however few values there are. |
| Bech32Errors.SequencesDiffer | src/bech32.cpp:46-48 | Two sequences that differ in up to three places within 1023 have different remainders. |
| Bech32Errors.PrefixErrorRejected | src/bech32.cpp:103-125 | A valid string with one changed character of the prefix, one changed value, or both, is rejected. |
| Bech32Errors.ThreeCharactersRejected | src/bech32.cpp:159-189 | A string that decodes, with up to three characters behind the separator replaced by others than the separator that stand for other values, does not decode. |
| Bech32.CreatedVerifies | src/bech32.cpp:128-139 | Every created checksum verifies. |
| Bech32.ExpandHRP | src/bech32.cpp:103-115 | High parts, zero, low parts of the prefix. |
| Bech32.VerifyChecksum | src/bech32.cpp:118-125 | Accepts exactly remainder one. |
| Bech32.CreateChecksum | src/bech32.cpp:128-139 | Six five-bit groups. |
| Bech32.RevChar | src/bech32.cpp:12-25 | Looking up the character of a value gives the value. |
| Bech32.AlphabetFirst | src/bech32.cpp:13 | The characters of the values 0 to 7. |
| Bech32.AlphabetSecond | src/bech32.cpp:13 | The characters of the values 8 to 15. |
| Bech32.AlphabetThird | src/bech32.cpp:13 | The next ones. |
| Bech32.AlphabetFourth | src/bech32.cpp:13 | The next ones. |
| Bech32.AlphabetLast | src/bech32.cpp:13 | The last ones, up to 31. |
| Bech32.Encode | src/bech32.cpp:147-156 | Prefix, separator, characters of values and checksum. |
| Bech32.Decode | src/bech32.cpp:159-189 | Computes the decoding: all refusals, the last separator, a prefix in lower case, and the values without checksum. |
| Bech32.DecodesExactly | src/bech32.cpp:159-189 | A string decodes if and only if it has at most 90 characters, all visible and not both small and capital letters, and splits into a non-empty prefix, the last "1" and at least six characters of the alphabet with a valid checksum. |
| Bech32.RoundTrip | src/bech32.cpp:147-189 | Decode(Encode(hrp, values)) is (hrp, values) if and only if the prefix is non-empty, printable and without capitals, and the total length at most 90. |
| Bech32.ChecksumUnique | src/bech32.cpp:118-139 | No other six values than the created ones verify. |
| Bech32.CharRev | src/bech32.cpp:12-25 | A character with a value is the character of that value, or its capital. |
| Bech32.DecodeEncode | src/bech32.cpp:147-189 | Encoding what was decoded gives the string in lower case. |
| Bech32.CapitalsMeanTheSame | src/bech32.cpp:97-189 | A string without capitals decodes the same all in capitals. |
| RollingBloom.Wipes | src/bloom.cpp:256-264 | The mask wipe clears exactly the positions of the reused generation. |
| RollingBloom.Writes | src/bloom.cpp:273-274 | The two writes make exactly one position record the generation. |
| RollingBloom.SamePosition | src/bloom.cpp:269-274 | Two hashes share a position exactly if they agree in their lowest six bits and the rest selects the same pair of words. |
| RollingBloom.StampedNext | src/bloom.cpp:250-257 | The number of a new epoch is none of the two before it. |
| RollingBloom.RememberedWipe | src/bloom.cpp:250-265 | Starting a generation forgets no key of the last three epochs but the oldest. |
| RollingBloom.RememberedStore | src/bloom.cpp:268-275 | Storing a key forgets none. |
| RollingBloom.JustifiedWipe | src/bloom.cpp:250-265 | Starting a generation forgets the oldest of the three epochs: nothing stays set but by keys of the others. |
| RollingBloom.JustifiedStore | src/bloom.cpp:268-275 | Storing a key sets nothing but its own positions. |
| RollingBloom.SetIsShared | src/bloom.cpp:284-296 | A position that is set was set by one of the last 3 * nEntriesPerGeneration keys. |
| RollingBloom.RecentEpoch | src/bloom.cpp:222-224 | The last count + 2 * nEntriesPerGeneration inserts are of the last three epochs. |
| RollingBloom.Filter.constructor | src/bloom.cpp:216-241 | An empty filter satisfies the invariant. |
| RollingBloom.Filter.Reset | src/bloom.cpp:304-312 | Forgets everything. |
| RollingBloom.Filter.Wipe | src/bloom.cpp:258-264 | The loop over word pairs refines the wipe of a generation array. |
| RollingBloom.Filter.Store | src/bloom.cpp:268-275 | Refines one assignment to a generation array. |
| RollingBloom.Filter.Rotate | src/bloom.cpp:250-265 | After a full generation: the next number, a count of zero, recent keys remembered and old ones forgotten. |
| RollingBloom.Filter.Insert | src/bloom.cpp:248-276 | Keeps the invariant and adds one key. |
| RollingBloom.Filter.Contains | src/bloom.cpp:284-296 | True if and only if all positions are set; always for the last nEntriesThisGeneration + 2 * nEntriesPerGeneration keys, that is N to 1.5 N; only if each position is shared with one of the last 3 * nEntriesPerGeneration keys. |
| RollingBloom.Run | src/bloom.cpp:248-296 | After any inserts, each of the last nElements keys is found, and a key is found only through positions of the last 3 * ceil(nElements / 2) keys. |
| Base58.ReservedSuffices | src/base58.cpp:37-38 | Both buffer estimates suffice for every length, so neither carry assertion fails. |
| Base58.Fits58 | src/base58.cpp:84-85 | 256^8 <= 58^11 and 58^71 <= 256^52. |
| Base58.MulAdd | src/base58.cpp:46-55 | Multiplies and adds in place; the carry is zero in the end. |
| Base58.ConvertedBack | src/base58.cpp:25-113 | Converting a numeral with its leading zeroes to another base and back changes nothing. |
| Base58.EncodingIs | src/base58.cpp:75-113 | The text is the same number in base 58, digit by digit in the alphabet, with one "1" for each leading zero byte. |
| Base58.EncodingExample | src/base58.cpp:75-113 | The bytes 0 and 97 are "12g". |
| Base58.AlphabetIs | src/base58.cpp:23 | The 58 characters of the alphabet. |
| Base58.Significant | src/base58.cpp:63-66 | The digits without leading zeroes are the shortest numeral. |
| Base58.ToBase58 | src/base58.cpp:84-101 | The digits of the number, with the carry assertion proved. |
| Base58.EncodeBase58 | src/base58.cpp:75-113 | Leading zero bytes as ones, and the number in base 58. |
| Base58.ReadDigits | src/base58.cpp:37-57 | Reads characters up to a space, refusing others. |
| Base58.SpacesAre | src/base58.cpp:27-29 | The characters that are skipped as space. |
| Base58.DecodeBase58 | src/base58.cpp:25-73 | The bytes of the trimmed text, or failure for any other character. |
| Base58.EncodeDecode | src/base58.cpp:25-113 | Decoding an encoded byte string gives it back. |
| Base58.DecodeEncode | src/base58.cpp:25-113 | Encoding a decoded text gives it back, without spaces around it. |
| NetMessage.FeedTwice | src/net.cpp:739-789 | Feeding in two chunks is feeding at once. |
| NetMessage.FeedKeepsBytes | src/net.cpp:739-789 | The messages hold the bytes of the stream once and in order: all of them, or a prefix if it was rejected. |
| NetMessage.SizeAnnounced | src/protocol.h:30-53 | The size of a payload, written into a header of 24 bytes, is read back from it. |
| NetMessage.SentArrive | src/net.cpp:739-789 | Any messages written one after the other, none longer than 32 million bytes, are received as they are, with nothing pending. |
| NetMessage.LongRejected | src/net.cpp:748-773 | A longer one behind them is rejected by its header, and all before it are received. |
| NetMessage.HeaderBlock | src/net.cpp:818-847 | A block of header bytes is as good as its bytes one by one. |
| NetMessage.DataBlock | src/net.cpp:849-864 | So is a block of data. |
| NetMessage.ReadHeader | src/net.cpp:818-847 | Takes what the header lacks; rejects sizes over MAX_SIZE. |
| NetMessage.ReadData | src/net.cpp:849-864 | Takes what the data lack, up to the announced size. |
| NetMessage.Node.Absorb | src/net.cpp:748-773 | One round takes at least one byte, or rejects. |
| NetMessage.Node.ReceiveMsgBytes | src/net.cpp:739-789 | A chunk has the effect of its bytes one by one, including partial state and verdict; complete is set exactly if a message was completed. |
| NetMessage.Run | src/net.cpp:739-789 | For every way of cutting a stream into chunks the messages, the partial message and the verdict depend only on the stream; the messages hold its bytes once and in order, all of them unless it was rejected. |
| BlockEncodings.MakeCompact | src/blockencodings.cpp:18-28 | The first transaction in full, and short ids of all others, of the hash with or without witness as asked. |
| BlockEncodings.PositionsGrow | src/blockencodings.cpp:58-64 | Prefilled positions grow strictly. |
| BlockEncodings.PositionsDecoded | src/blockencodings.cpp:58-64 | Ascending positions sent as the gaps between them are read back. |
| BlockEncodings.PlacedNext | src/blockencodings.cpp:58-73 | Each prefilled transaction lands in a free slot within the block. |
| BlockEncodings.FreeIsAssigned | src/blockencodings.cpp:81-85 | Every free slot belongs to exactly one short id. |
| BlockEncodings.SlotsGrow | src/blockencodings.cpp:81-85 | Slots of short ids grow strictly. |
| BlockEncodings.SearchesEndExactly | src/blockencodings.cpp:81-84 | With an offset of 16 bits, the searches for free slots all end if and only if there is no short id or fewer than 65,536 transactions are prefilled. |
| BlockEncodings.SlotsExact | src/blockencodings.cpp:80-85 | For every well-formed compact block, every short id reaches its own free slot in 16-bit arithmetic if and only if there are at most 65,536 transactions. |
| BlockEncodings.LastSlotWraps | src/blockencodings.cpp:80-85 | A coinbase and 65,536 short ids: well-formed, and the slot number of the last short id is that of the coinbase. |
| BlockEncodings.SearchWithoutEnd | src/blockencodings.cpp:83-84 | 65,536 prefilled transactions and one short id: well-formed, and its search never ends. |
| BlockEncodings.MatchFills | src/blockencodings.cpp:112-115 | A match fills a slot with a transaction of its short id. |
| BlockEncodings.MatchEmpties | src/blockencodings.cpp:116-124 | A second match empties it, and the count never goes below zero. |
| BlockEncodings.PoolFollows | src/blockencodings.cpp:109-125 | A mempool transaction has exactly the effect on its short id that one entry has in the matching of single short ids, and none on others. |
| BlockEncodings.ExtraFollows | src/blockencodings.cpp:135-157 | So has an extra transaction. |
| BlockEncodings.PoolOnce | src/blockencodings.cpp:112-124 | A short id met once in the mempool keeps its transaction. |
| BlockEncodings.ExtraSame | src/blockencodings.cpp:138-156 | The same transaction found again among the extra ones does no harm. |
| BlockEncodings.KnownIsFound | src/blockencodings.cpp:108-163 | A transaction known under its short id, at most once in the mempool, is available in the end, in spite of the early exits. |
| BlockEncodings.FoundExactly | src/blockencodings.cpp:108-163 | Matching leaves a transaction for a short id if and only if some entry has it, no two of the mempool do, and all that do are the same transaction. |
| BlockEncodings.AvailableExactly | src/blockencodings.cpp:108-163 | So a slot holds a transaction after matching exactly under that condition on its short id. |
| BlockEncodings.WellFormedIs | src/blockencodings.cpp:49-73 | A compact block is refused as invalid unless it has a header, one to 100,000 transactions, and every prefilled one is real and at a position within 16 bits that the short ids lead up to. |
| BlockEncodings.PartiallyDownloadedBlock.PlacePrefilled | src/blockencodings.cpp:56-73 | Accepts exactly lists of real transactions, within 16 bits and without a gap that no short id could fill; each is then in its slot. |
| BlockEncodings.PartiallyDownloadedBlock.SkipFilled | src/blockencodings.cpp:83-84 | The 16-bit search: stops at the next free slot, where fewer than 65,536 are filled. |
| BlockEncodings.PartiallyDownloadedBlock.AssignSlots | src/blockencodings.cpp:76-102 | For every compact block whose searches end: succeeds if and only if short ids are distinct and no bucket is too full; then they map to the 16-bit numbers that the searches give. |
| BlockEncodings.PartiallyDownloadedBlock.MatchPool | src/blockencodings.cpp:104-132 | The count is exact for every numbering of slots. With the right one, each slot holds what matching its short id against the entries looked at leaves; all are looked at unless every slot is filled. |
| BlockEncodings.PartiallyDownloadedBlock.MatchExtra | src/blockencodings.cpp:134-163 | The same for the extra transactions. |
| BlockEncodings.PartiallyDownloadedBlock.InitData | src/blockencodings.cpp:48-168 | For every compact block whose searches end: invalid exactly if malformed, successful exactly if slots can be assigned. With at most 65,536 transactions each slot is then prefilled or holds exactly what matching leaves for its short id, and what is known once is available. |
| BlockEncodings.PartiallyDownloadedBlock.FillBlock | src/blockencodings.cpp:176-208 | With too few transactions the slots before the first gap left are emptied; with too many the block is dropped; both are invalid. Otherwise the free slots are filled in order and CheckBlock decides. |
| BlockEncodings.AvailableIsRight | src/blockencodings.cpp:48-168 | For a compact block of a block and no short-id collision, whatever is available is right. |
| BlockEncodings.FilledIsOriginal | src/blockencodings.cpp:176-190 | With the missing transactions in order the result is the original list. |
| BlockEncodings.OnlyUnknown | src/blockencodings.cpp:108-190 | Only transactions that are not known once are missing. |
| BlockEncodings.Transfer | src/blockencodings.cpp:18-208 | Without short-id collisions, a block made compact, initialised from any pool and filled comes out as it went in; it starts exactly if its short ids differ and no bucket is too full, and asks for no transaction known once. |

## Left out

- Coins: memory accounting (`cachedCoinsUsage`), the best-block hash, and splitting a database write into several batches.
- Miner: which candidate scores best; no claim is made about the fees collected.
- Miner.BlockAssembler.AddPackageTxs: a transaction left out is shown unfit when counted with all its ancestors, including those already in the block, because an entry that failed and comes back restarts from these totals.
- Miner: `CreateNewBlock` around the selection, and the transaction rules behind eligibility, which is a parameter.
- CheckQueue: the interrupt of a waiting thread and the destructor of `CCheckQueueControl`.
- MerkleBlock: choosing the matches with a Bloom filter; the pair hash is any injective function.
- AddrMan: `Select_`, whose loops end only with probability one, and the conditions of `Check_` on statistics (a positive last success, times not negative).
- AddrMan.Manager.Add_: time penalties are natural numbers, as in every call.
- AddrManStore.Unserialize: does not model negative counts in the stream, or an item that is cut off; consistency is claimed only of what a consistent manager has written.
- CuckooCache.Cache.constructor: sizes above 2^32 - 8, where the flag bytes do not suffice; the depth limit is a parameter instead of a floating-point logarithm.
- CuckooCache: concurrent readers; operations are taken one after the other.
- Chain.BlockIndex.GetAncestor: the bound on its steps is not the 110 for 2^18 blocks that the source has found in simulations.
- Chain: `FindEarliestAtLeast`, `GetBlockProofEquivalentTime`, and the other fields of a block index; the doubling step of a locator is not bounded to 32 bits.
- Arith256: hexadecimal and floating-point conversions, and the bitwise operators that work limb by limb.
- Pow.TargetsStayLegal: not stated for networks with the minimum-difficulty rule or without retargeting, which copy earlier targets.
- Pow: Equihash solutions; the chain is the sequence of its headers, with `GetAncestor` as proved in Chain.
- Bech32Errors.ThreeErrorsRejected: not stated for four errors within 89 places, which the source promises as well; that follows from no structure of the code but from a search through all placements.
- Bech32: segwit address rules above the encoding.
- Base58: the checksum of `EncodeBase58Check`, address classes; text ends before the first null character.
- RollingBloom.Filter.constructor: does not model a filter without any words, where positions are undefined.
- RollingBloom: the false-positive rate, and how the numbers of bits and hash functions follow from it.
- NetMessage: checksums, commands and per-command byte counts; after a rejection the peer is disconnected, so nothing more is fed.
- BlockEncodings.PartiallyDownloadedBlock.InitData: does not model a search that never ends, and does not describe the contents of slots when their numbers wrap; when either happens is said exactly by SearchesEndExactly and SlotsExact. The limit of twelve entries per hash bucket is a parameter.
- BlockEncodings: the counters that only appear in the log, and wire formats.
- Sockets, RPC, wallet, script execution, signatures and the XMSS key counter, and chain state validation.

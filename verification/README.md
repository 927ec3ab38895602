# Elastos ESC node: a verified model of its stateful core

This project models, in Dafny 4.11, the parts of the Elastos Smart Chain node
whose correctness is a property of whole runs rather than of single calls, and
proves those properties:

- the **transaction pool** with its per-account lists, hash index, price heap and
  virtual nonces;
- the **canonical chain**: header writes, block reorganisation, the
  number-to-hash map, the transaction lookup table and six-block finality;
- the **chain indexer**, which works while the chain is reorganised under it;
- the **state transition** with gas, refunds and the temporary loan behind
  deposits and refunds, and the block processor with its completion markers;
- **DPoS** voting and view changes;
- two small caches and queries that sit on the chain: BLOCKHASH and
  GetBlockHeaders.

`dafny verify dfyconfig.toml` checks everything.

## How the model is built

Each locked region of the node is one atomic step. Objects that the node updates
in place are classes whose methods state the whole new state; the functions that
specify them, and the lemmas about those functions, are values. Files follow the
components:

| files | component |
|---|---|
| Basics | machine integers |
| ContainerHeap, Transactions, TxSortedMap, TxList, TxPricedList | lists and heaps of the pool (ContainerHeap is the heap of Go's standard library) |
| PoolAccount, PoolIndex, PoolSizes, PoolRun, TxPool, PoolHole | one account, all accounts as values, their sizes, runs of operations, the pool, a run that leaves a hole |
| HashTree, HeaderChain, HeaderQuery, BlockHashCache | hash-linked headers and what reads them |
| ChainFork, BlockChain | two branches of the block tree, the block chain |
| ChainIndexer | the section indexer |
| Ledger, GasPool, IntrinsicGas, StateTransition, StateProcessor | applying messages and blocks |
| ViewClock, ConsensusView, Dispatcher | view numbers, turns, votes |

Hashes are numbers that name one value: a block hash stands for its header, a
pooled transaction for itself, a vote hash for proposal, signer and accept flag.
What the node gets from elsewhere is a parameter: the clock, coin tosses,
signature checks, the SPV service, the backend of the indexer, what the database
shows at a given moment, and the EVM. Of the EVM it is assumed only that it does
not create gas, does not touch the storage of the zero address and does not lower
its nonce. Header numbers, nonces, view numbers and queries use 64-bit or 32-bit
arithmetic where the code can wrap; majorities are computed exactly instead of in
floating point.

A bare price heap may hold a transaction twice, and a purge of two may then name it
twice (`TxPricedLists.PurgeFallsShort`). The pool never asks for that: above its limit
it holds at most one remote transaction, which is part of its invariant, so a purge
always makes its room (`TxPools.TxPool.MakeRoom`).

The pool works on nonce maps. `TxSortedMaps.TxSortedMap` and `TxLists.TxList` prove
that the heap-and-cache objects of the node implement exactly these maps.

## What turned out not to hold as promised

Where a promise does not hold for every input, the model keeps the code as it is,
gives the failing case and proves the exact condition:

- *Pending lists are gap free.* After a head change that takes the state nonce
  back, a queue run that starts at the new nonce can stop short of what is still
  pending; the code treats a gap in front as impossible, but this gap is in the
  middle and stays (`PoolHoles.RewoundHeadLeavesHole`).
  `PoolAccounts.HeadChangeShape` gives the condition for every account,
  `PoolAccounts.HeadChangeExactly` restates it for accounts without gaps, and
  `PoolRuns.StaysFine` carries it over whole runs, account by account.
- *After a reorganisation the number map is the new chain.* Stale numbers are
  deleted above the current block, which is still the old head when the new branch
  has one block (`BlockChains.StaleNumberRemains`). The condition is part of
  `BlockChains.Moved` and proved in `BlockChains.InsertedPath`.
- *Number queries return headers skip + 1 apart.* The 64-bit sum may wrap; with the
  largest skip a reverse query repeats one header (`HeaderQueries.NumberStep`,
  `HeaderQueries.NumberStepBack`).
- *The view number is the elapsed time over the tolerance.* A poll changes the view
  only strictly after the view has ended, so two nodes that look at the clock exactly
  at the end of a view can disagree, depending on when they looked before
  (`ViewClocks.LatePollDisagrees`); `ViewClocks.OnTimeIff` says when every schedule
  leads to the right number. Away from those moments schedules are on time if and only
  if the tolerance is whole seconds, because the start is cut to a whole second
  (`ViewClocks.PunctualIff`).
- *Nodes agree on who is on duty.* When the next block is overdue, a restart of the
  consensus counts views from the node's own second, and a node that was on duty is
  restarted with the view number it had, so nodes can disagree in the middle of a view
  (`ConsensusViews.RestartsDisagree`, `ConsensusViews.DutyDisagrees`).
  `ViewClocks.AgreedIff` gives the exact condition for any two restarted nodes,
  `ConsensusViews.RestartsAgreeIff` for nodes restarted once after a block, and
  `ConsensusViews.NodesAgree` what a caller can check.
- *Producers take turns.* True in a window of views if and only if the 32-bit sum
  does not wrap in it or 2^32 is a multiple of the number of producers
  (`ConsensusViews.FairTurnsIff`). From height to height duty moves on by one
  producer unless the 64-bit distance from the working height wraps
  (`ConsensusViews.DutyAdvances`).
- *A confirm passes its check.* Taking up a second proposal keeps the accepting votes
  for the first, so a majority may mix them (`Dispatchers.MixedConfirm`). A confirm
  passes if and only if every vote collected before is for the proposal at hand
  (`Dispatchers.Dispatcher.ProcessVote`).
- *Sections are never processed below a checkpoint.* A checkpoint that arrives while
  an earlier section is being processed is given up when that section is finished
  (`ChainIndexers.CheckpointOvertaken`); `ChainIndexers.ChainIndexer.FinishUpdate`
  states exactly when.
- The comment on header writes speaks of a greater total difficulty; the code also
  switches on a tie when a coin says so, and the model does the same.

## Model

| member | source | states |
|---|---|---|
| `TxSortedMaps.TxSortedMap.Put` | core/tx_list.go:76-82 | the nonce map gains the transaction; the heap still holds each nonce once and the cache is dropped |
| `TxSortedMaps.TxSortedMap.Forward` | core/tx_list.go:87-101 | returns exactly the transactions below the threshold in nonce order and keeps the rest; a present cache stays the sorted list |
| `TxSortedMaps.TxSortedMap.Filter` | core/tx_list.go:105-138 | removes exactly what the predicate holds of, returns each of it once, and rebuilds heap and cache |
| `TxSortedMaps.TxSortedMap.Cap` | core/tx_list.go:142-163 | keeps the lowest nonces up to the threshold and returns the others, highest first, with heap and cache still right |
| `TxSortedMaps.TxSortedMap.Remove` | core/tx_list.go:167-184 | deletes the nonce from map and heap and says whether it was there |
| `TxSortedMaps.TxSortedMap.Ready` | core/tx_list.go:193-208 | removes and returns the maximal run of consecutive nonces if the lowest nonce does not exceed the start |
| `TxSortedMaps.TxSortedMap.Flatten` | core/tx_list.go:218-231 | returns all transactions in nonce order, from the cache or by sorting |
| `TxSortedMaps.CapItems` | core/tx_list.go:142-163 | dropping from the end of the sorted heap leaves exactly the lowest nonces, again in a valid heap |
| `TxSortedMaps.PopRun` | core/tx_list.go:193-208 | popping while nonces are consecutive yields exactly the maximal run |
| `TxSortedMaps.SortedListing` | core/tx_list.go:218-231 | a sorted listing of the map is its transactions in nonce order |
| `TxLists.TxList.Add` | core/tx_list.go:266-287 | a free nonce is taken, a held one only by a strictly higher price that exceeds the old one by the percentage; the caps keep bounding everything stored |
| `TxLists.AcceptsExactly` | core/tx_list.go:266-287 | a held nonce is taken over if and only if the price is higher and old price times (100 + bump) is below 100 times (new price + 1) |
| `TxLists.TxList.Filter` | core/tx_list.go:305-329 | leaves what is affordable and, in a strict list, below the first removed nonce; returns the removed and the invalidated ones, with or without the short cut |
| `TxLists.TxList.Remove` | core/tx_list.go:340-351 | deletes the nonce and, in a strict list, returns everything above it |
| `TxLists.ShortCircuit` | core/tx_list.go:305-310 | caps within the limits mean that a full filter would remove nothing |
| `TxLists.GapFreeFiltered` | core/tx_list.go:305-329 | a gap-free strict list stays gap free under filtering |
| `TxLists.GapFreeLowest` | core/tx_list.go:333-335 | a gap-free list stays gap free when capped |
| `TxLists.GapFreeParts` | core/tx_list.go:292-294 | a gap-free list stays gap free when it loses a lower or an upper part |
| `TxPricedLists.PriceRankIsLess` | core/tx_list.go:388-398 | the heap order is by price, and among equal prices the higher nonce first |
| `TxPricedLists.TxPricedList.Put` | core/tx_list.go:429-431 | the heap gains one entry and keeps covering the pool |
| `TxPricedLists.TxPricedList.Removed` | core/tx_list.go:436-451 | reported removals only raise the stale counter until a quarter of the heap may be stale; then the heap is rebuilt from the pool |
| `TxPricedLists.TxPricedList.Cap` | core/tx_list.go:455-482 | names exactly the pooled transactions that are not local and below the threshold |
| `TxPricedLists.TxPricedList.Underpriced` | core/tx_list.go:486-508 | true exactly when the sender is not local and nothing pooled is cheaper than the transaction |
| `TxPricedLists.TxPricedList.Discard` | core/tx_list.go:512-535 | takes the lowest ranked heap entries of remote pooled transactions, as many as asked or all of them; no remote transaction that stays is cheaper than one that is dropped; fewer than asked only if nothing but local ones is left |
| `TxPricedLists.RoomMade` | core/tx_list.go:512-535 | of a list by itself: a purge frees as many places as it names entries if it cannot reach the second entry of a transaction, and only if there is none it is sure to reach |
| `TxPricedLists.RoomMadeIff` | core/tx_list.go:512-535 | of a list by itself: if nothing else has the rank of a doubled transaction, the room is made if and only if the purge cannot reach a second entry |
| `TxPricedLists.PurgeFallsShort` | core/tx_list.go:512-535 | a list, in no pool, on which a purge of two names one transaction twice and frees one place |
| `TxPricedLists.StaleBounded` | core/tx_list.go:414-451 | stale heap entries never exceed the counter, so it never becomes negative |
| `PoolAccounts.RemoveExactly` | core/tx_pool.go:1144-1189 | deleting by nonce deletes exactly the named transaction from both lists |
| `PoolAccounts.PromoteKeepsExecutable` | core/tx_pool.go:1446-1506 | promotion keeps the pending nonces exactly from state nonce to virtual nonce |
| `PoolAccounts.PromoteExactly` | core/tx_pool.go:1446-1506 | the pending list gains exactly the consecutive run of payable queued transactions; of the other payable ones those remain queued that have fewer than the cap below them |
| `PoolAccounts.PromoteHolds` | core/tx_pool.go:1446-1506 | nothing pending leaves; a queued transaction stays only if its nonce is not below the state, its cost within the balance and its gas within the limit, and without a cap exactly then |
| `PoolAccounts.BeyondCap` | core/tx_pool.go:1482-1496 | a payable transaction is thrown out only when the queue is full, and full of lower nonces |
| `PoolAccounts.RunExactly` | core/tx_list.go:193-208 | the promoted run: everything from the lowest queued nonce, if that is due, up to the first missing one |
| `PoolAccounts.LowestExactly` | core/tx_list.go:142-163 | what a cap keeps: the nonces with fewer than the cap below them |
| `PoolAccounts.DemoteExactly` | core/tx_pool.go:1643-1690 | after demotion the account holds exactly what was queued and those pending transactions that are not too old and can be paid for; a transaction invalidated by a lower one is still held |
| `PoolAccounts.DemotedPending` | core/tx_pool.go:1643-1690 | what stays pending leads on from the state nonce below the first unpayable one; nothing if the state nonce is missing |
| `PoolAccounts.HeadChangeHolds` | core/tx_pool.go:1294-1343 | after promotion and demotion only payable transactions are left, and without a cap all that were held |
| `PoolAccounts.HeadChangeShape` | core/tx_pool.go:1294-1343 | for every account whatsoever: after promotion, demotion and refresh the pending nonces run from state to virtual nonce if and only if the account settles |
| `PoolAccounts.HeadChangeExactly` | core/tx_pool.go:1294-1343 | for a pending list without gaps that condition is that the account survives, a condition on queue and pending list that does not run the reorganisation |
| `PoolAccounts.AdvancingHead` | core/tx_pool.go:1357-1441 | an account whose state nonce did not go back always survives |
| `PoolAccounts.SameHeadExactly` | core/tx_pool.go:1643-1690 | without a change of state an account in order settles if and only if nothing is pending or its first pending transaction is affordable |
| `PoolAccounts.CutTransitive` | core/tx_pool.go:1511-1593 | cutting a pending list off twice is cutting it off once |
| `PoolAccounts.CutKeepsExecutable` | core/tx_pool.go:1144-1189 | a cut with its lowered virtual nonce keeps the account in order |
| `PoolAccounts.TrimmedInOrder` | core/tx_pool.go:1334-1342 | truncation followed by the nonce refresh keeps an account in order |
| `PoolAccounts.ReorgExactly` | core/tx_pool.go:1294-1343 | an account that is not truncated ends in order if and only if it settles |
| `PoolIndex.RemoveKeepsStep` | core/tx_pool.go:1144-1189 | removal keeps lists and hash index in step |
| `PoolIndex.PlanIsPromote` | core/tx_pool.go:1446-1506 | the order in which promotion handles the queue computes the promoted account |
| `PoolIndex.PromoteKeepsStep` | core/tx_pool.go:1446-1506 | promotion keeps lists and hash index in step: what leaves the queue unpromoted leaves the index |
| `PoolIndex.DemoteKeepsStep` | core/tx_pool.go:1643-1690 | demotion keeps lists and hash index in step |
| `TxPools.TxPool.SetIfLower` | core/tx_noncer.go:68-79 | the virtual nonce becomes the minimum of its value, or the state nonce, and the given one |
| `TxPools.TxPool.EnqueueTx` | core/tx_pool.go:785-811 | the transaction takes its place in the queue unless the present one is too close in price; index and price heap follow |
| `TxPools.TxPool.RemoveTx` | core/tx_pool.go:1144-1189 | exactly the named transaction leaves; pending ones above it return to the queue and the virtual nonce drops; no other account changes |
| `TxPools.TxPool.MakeRoom` | core/tx_pool.go:732-738 | drops only remote transactions, none dearer than a remote one that stays, no more than needed; ends with exactly one place or with local transactions only; removals change each account as stated |
| `TxPools.TxPool.Add` | core/tx_pool.go:710-780 | every outcome with its exact condition, and the exact accounts afterwards, for a full pool too: first the purge, then the place of the nonce in the sender's lists; pending lists can only be cut; what is displaced is no dearer than remote ones that stay; the pool stays within its limit or all but one transaction are local |
| `TxPools.TxPool.Place` | core/tx_pool.go:740-780 | an admitted transaction takes its nonce in the pending list or the queue exactly if it is not underpriced there, and says whether it replaced another; no other account changes |
| `TxPools.TxPool.ReplacePending` | core/tx_pool.go:742-761 | the better priced transaction takes the place of the pending one in list, index and heap |
| `TxPools.TxPool.PromoteTx` | core/tx_pool.go:829-865 | the transaction becomes pending, or leaves the index if the present one is better; virtual nonce and heartbeat follow |
| `TxPools.TxPool.PromoteAccount` | core/tx_pool.go:1446-1506 | the account becomes its promoted version; of what is indexed only queued transactions of the account go that are too old or unpayable, or beyond the cap of a remote account, whose queue is then full of lower nonces |
| `TxPools.TxPool.PromoteExecutables` | core/tx_pool.go:1446-1506 | exactly the given accounts are promoted; no pending transaction leaves the index, and a payable queued one only from a remote account whose queue is full of lower nonces; no remote queue exceeds its cap |
| `TxPools.TxPool.DemoteAccount` | core/tx_pool.go:1643-1690 | the account becomes its demoted version; the index loses exactly its pending transactions below the state nonce, above the balance or above the gas limit |
| `TxPools.TxPool.DemoteUnexecutables` | core/tx_pool.go:1643-1690 | every account is demoted; the index keeps exactly what was queued or has a nonce not below the state, a cost within the balance and gas within the limit |
| `TxPools.TxPool.Equalize` | core/tx_pool.go:1537-1586 | the offenders come down together, one transaction each round, to the threshold or to the limit |
| `TxPools.TxPool.TruncatePending` | core/tx_pool.go:1511-1593 | non-local lists are cut to one common level that is never below the account slots; the total is within the limit or the level is the account slots; the limit is undershot by less than the number of accounts cut; only highest nonces go |
| `TxPools.TxPool.TruncateQueue` | core/tx_pool.go:1596-1638 | removes exactly the minimum of overflow and non-local total, latest heartbeat first and highest nonces first; pending lists and virtual nonces stay |
| `TxPools.TxPool.Truncate` | core/tx_pool.go:1334-1336 | both truncations one after the other: pending lists are cut to one level and queues by exactly the excess, local accounts keep everything, and a pool within its limits is left alone |
| `TxPools.TxPool.RefreshNonces` | core/tx_pool.go:1338-1342 | every virtual nonce follows the last pending nonce |
| `TxPools.TxPool.AddAll` | core/tx_pool.go:965-1032 | the transactions are added one after the other, each as Add states; with room every account gets exactly its admitted transactions, in order; pending lists can only be cut, and every account in order stays so |
| `TxPools.TxPool.Reset` | core/tx_pool.go:1357-1441 | the pool takes the new head state with a fresh noncer and then adds the reinjected transactions one after the other; with room every account gets exactly its own; without a state nothing changes |
| `TxPools.TxPool.Trim` | core/tx_pool.go:1334-1342 | both size limits hold, or only guaranteed or local transactions are left; exactly as much is cut as the truncations say, so nothing within the limits; pending lists keep at least one transaction, and those of local accounts or below the guaranteed slots keep all; no local transaction leaves |
| `TxPools.TxPool.Settle` | core/tx_pool.go:1294-1343 | without a head change the dirty accounts are promoted and all are then cut exactly as the size limits demand; every account in order stays so, and no payable local transaction leaves |
| `TxPools.TxPool.TurnToHead` | core/tx_pool.go:1294-1343 | after a head change, with or without a readable state, all accounts are promoted, demoted and cut exactly as the size limits demand; only payable transactions are left, and no payable local one is lost; every account that settles once the pool has turned to the head is in order, and of the local or untruncated accounts no other is |
| `TxPools.TxPool.SetGasPrice` | core/tx_pool.go:439-448 | exactly the remote transactions below the price leave the pool, and every account in order stays so |
| `TxPools.TxPool.Evict` | core/tx_pool.go:373-388 | exactly the queues of silent non-local accounts go; virtual nonces stay, and so does every account in order |
| `TxPools.TxPool.Run` | core/tx_pool.go:710-1690 | over every run of operations lists, index and price heap stay in step, each step is recorded, and at every moment the pool is within its limit or all but one transaction are local; every account in order stays so if each head change finds it settled, and if the run is calm for it |
| `PoolRuns.QuietStep` | core/tx_pool.go:710-1690 | no operation but a head change can put an account out of order |
| `PoolRuns.StaysFine` | core/tx_pool.go:1294-1343 | over every recorded run with any head changes and reinjections, an account in order at some moment is in order later if each head change in between finds it settled |
| `PoolRuns.FineAgain` | core/tx_pool.go:1294-1343 | a head change that finds an account settled puts it in order, whatever came before |
| `PoolRuns.SettledIffSurvives` | core/tx_pool.go:1357-1441 | an account whose pending list had no gap before a head change is settled by it if and only if it survives, reinjected transactions included |
| `PoolRuns.SettledWithoutState` | core/tx_pool.go:1417-1424 | if the state cannot be read, an account in order is settled if and only if it can pay for its first pending transaction |
| `PoolRuns.CalmStaysFine` | core/tx_pool.go:1294-1343 | an account stays in order over every run that never takes its nonce back and reinjects nothing |
| `PoolHoles.RewoundHeadLeavesHole` | core/tx_pool.go:1643-1690 | a run of the pool after which an account that was in order has a hole: three pending transactions, a head that goes back two nonces, and one of the two reinjected |
| `TxPools.Emptied` | core/tx_pool.go:724-738 | because a pool above its limit holds at most one remote transaction, a purge leaves exactly one place or only local ones |
| `HeaderChains.RewriteStops` | core/headerchain.go:199-205 | the back-walk may stop at the first number that agrees, because all lower ones do |
| `HeaderChains.HeaderChain.WriteHeader` | core/headerchain.go:158-222 | the canonical map stays exactly the ancestor path of the current header with nothing above, total difficulties stay path sums, no header is heavier than the current one, and its weight never decreases; an unknown parent changes nothing |
| `HeaderChains.HeaderChain.InsertHeaderChain` | core/headerchain.go:297-321 | imports headers up to the first with an unknown parent, keeping all of the above |
| `HeaderChains.HeaderChain.GetAncestor` | core/headerchain.go:368-401 | finds exactly the n-th parent of the plain walk, or nothing exactly when the part off the canonical chain exceeds the budget; the budget left is exact |
| `HeaderChains.DetourExactly` | core/headerchain.go:368-401 | the way to the canonical chain is exact: so many parents up, and not before, the walk meets it |
| `HeaderQueries.Answer` | eth/handler.go:403-481 | at most 192 headers; hash queries return headers exactly skip + 1 generations apart and end early only where the line ends or a hundred steps off the canonical chain do not suffice; number queries return the canonical headers at their 64-bit positions |
| `HeaderQueries.DetourAbove` | eth/handler.go:437-445 | walking up shortens the way to the canonical chain step for step, so the budget is spent once over a whole reply |
| `HeaderQueries.NumberStep` | eth/handler.go:477-479 | neighbours of a number query towards the head are skip + 1 apart if and only if the 64-bit sum does not wrap |
| `HeaderQueries.NumberStepBack` | eth/handler.go:469-474 | the same towards the genesis, if and only if skip + 1 does not wrap; else one header is repeated |
| `BlockHashCaches.BlockHashCache.Query` | core/evm.go:74-110 | whatever was asked before, the answer is that of the uncached parent walk |
| `BlockHashCaches.UncachedIsUp` | core/evm.go:74-110 | on a complete chain the uncached answer is the ancestor at that height |
| `ChainForks.CommonMeets` | core/blockchain.go:2054-2078 | the branches agree at the fork point |
| `ChainForks.SwitchLookup` | core/blockchain.go:2114-2142 | after a head switch the lookup table maps exactly the transactions of the new chain to their blocks, if and only if none repeats on it |
| `ChainForks.HeavierIsLonger` | core/blockchain.go:1420-1441 | with even difficulties above the fork the heavier branch is the longer one |
| `BlockChains.BlockChain.FindFork` | core/blockchain.go:2034-2078 | finds the fork point, both branches and the transactions of the old one, or fails exactly when a block on the way is missing |
| `BlockChains.BlockChain.Splice` | core/blockchain.go:2114-2142 | the new branch up to its head's parent is canonical with nothing above, or nothing changed if it has at most one block; the lookup table loses what only the old branch held |
| `BlockChains.BlockChain.Reorg` | core/blockchain.go:1999-2142 | succeeds exactly when both branches can be read and, under PBFT, there are no signers or at most five blocks are undone, else the block has at most six signers or twice the undone blocks do not exceed them; a failure changes nothing |
| `BlockChains.InsertedPath` | core/blockchain.go:2133-2142 | after the switch the number map is the path of the new head, if and only if the switch is clean: the new head is not lower than the old one or at least two blocks above the fork |
| `BlockChains.StaleNumberRemains` | core/blockchain.go:2133-2142 | writing four blocks, the last a lower head of equal weight on a one-block branch, leaves a stale number |
| `BlockChains.BlockChain.SwitchHead` | core/blockchain.go:1443-1465 | succeeds exactly for an extension or under those limits of a reorganisation; then lookup entries and head follow, map and lookup as stated above |
| `BlockChains.BlockChain.WriteBlock` | core/blockchain.go:1328-1471 | every outcome with its exact condition in numbers: which block is better by total difficulty, number, preservation and coin, and how many blocks may be undone; a failure or side block leaves head, map and lookup alone; an exact lookup table stays exact if and only if nothing repeats; a chain that can be read stays readable |
| `BlockChains.BlockChain.Import` | core/blockchain.go:1328-1471 | over every sequence of writes exactly the blocks with a known parent are stored, the lookup table stays exact as long as no head on the way repeats a transaction, and the number map stays the path of the head as long as every switch is clean |
| `BlockChains.SwitchComplete` | core/blockchain.go:2034-2078 | a head switch that succeeds leads to a chain whose blocks can all be read |
| `BlockChains.FinalStep` | core/blockchain.go:2105-2112 | a switch that undoes at most five blocks keeps the canonical block five below the head and does not lower the head |
| `BlockChains.BlockChain.Run` | core/blockchain.go:1328-1471 | over every sequence of writes under PBFT with signers and even difficulties, the canonical block at height k never changes once the head is at k + 5 |
| `BlockChains.FinalityIsSharp` | core/blockchain.go:2105-2112 | five blocks of finality are not four: a run of writes under PBFT with signers and even difficulties after which the block at height 1 is another one although the head had reached height 5 |
| `ChainIndexers.AllCanonical` | core/chain_indexer.go:420-427 | if the last stored section head is canonical, so are all of them back to the last one a checkpoint gave |
| `ChainIndexers.ChainIndexer.SetValidSections` | core/chain_indexer.go:469-481 | exactly the section heads below the new count remain |
| `ChainIndexers.ChainIndexer.VerifyLastHead` | core/chain_indexer.go:420-427 | drops exactly the trailing sections whose head is not canonical, down to the checkpoint |
| `ChainIndexers.ChainIndexer.AddCheckpoint` | core/chain_indexer.go:127-140 | at any time, also while a section is being processed, a later checkpoint becomes the last stored section; an earlier one changes nothing |
| `ChainIndexers.ChainIndexer.HandleNewHead` | core/chain_indexer.go:240-297 | a reorganisation rolls stored and known sections back to the common ancestor but not below the checkpoint; a new head only raises the known ones |
| `ChainIndexers.ChainIndexer.KnownAfter` | core/chain_indexer.go:274-289 | known sections grow only past confirmations and checkpoint, and only if the chain agrees with the checkpoint |
| `ChainIndexers.ChainIndexer.BeginUpdate` | core/chain_indexer.go:314-334 | starts on the section after the last verified one |
| `ChainIndexers.ChainIndexer.ReadSection` | core/chain_indexer.go:395-414 | whatever the chain looks like at each read, there is a result exactly if every header continues the one before and the backend takes all; it is the last block of the section and the head before is its ancestor one section back |
| `ChainIndexers.ChainIndexer.ProcessSection` | core/chain_indexer.go:385-415 | a failed reset forgets all sections; otherwise nothing stored changes and the result is that of reading the section |
| `ChainIndexers.ChainIndexer.FinishUpdate` | core/chain_indexer.go:347-366 | the section counts exactly if it succeeded and the head it was built on is still stored, and is then the last one; the stored sections fall below the checkpoint exactly if it was added above this section meanwhile |
| `ChainIndexers.CheckpointOvertaken` | core/chain_indexer.go:347-352 | a checkpoint added while section 0 is being processed is lost when that is finished |
| `ChainIndexers.ChainIndexer.Sections` | core/chain_indexer.go:432-438 | after checking the last head only, every stored head is canonical back to the last one a checkpoint gave |
| `ChainIndexers.ChainIndexer.Run` | core/chain_indexer.go:240-438 | in any interleaving of the update loop with new heads, checkpoints and queries each stored head stays the ancestor one section back of the next or a checkpoint's, and every answer given on the way is canonical in the sense of Sections |
| `IntrinsicGases.IntrinsicGas` | core/state_transition.go:128-166 | the exact mathematical sum, or an error exactly when it exceeds 64 bits |
| `IntrinsicGases.ExactGasIs` | core/state_transition.go:128-166 | 21000, or 53000 for a creation; 4 for each zero byte and 16 or 68 for each other one; no charge for the data of a small deposit |
| `Ledger.TotalCredit` | core/evm.go:119-122 | crediting one account changes the sum of balances by that amount |
| `StateTransitions.StateTransition.BuyGas` | core/state_transition.go:209-222 | sender and block pay for the gas, or nothing changes: exactly if the sender cannot pay gas times price, or else if the block has less gas left |
| `StateTransitions.StateTransition.Prepare` | core/state_transition.go:397-412 | the error exactly, in the order of the checks: nonce, balance, gas of the block, intrinsic gas; else gas is bought, the intrinsic gas spent and the nonce counted |
| `StateTransitions.PreparedExactly` | core/state_transition.go:209-222 | the sender, and no one else, pays gas times price before the EVM runs |
| `StateTransitions.OpeningExactly` | core/state_transition.go:240-395 | which messages are refused at once and with which error, and which run on a loan: a marked main-chain transaction never does |
| `StateTransitions.StateTransition.RefundGas` | core/state_transition.go:558-585 | used gas falls by the refund but by no more than half, or to nothing for a bridge call; all remaining gas is paid back to sender and block |
| `StateTransitions.StateTransition.PayFee` | core/state_transition.go:474-490 | the fee goes to the sender, or half of it in equal shares to the developers and the rest to the miner |
| `StateTransitions.FeePaidTotal` | core/state_transition.go:474-490 | nothing of the fee is lost or created by the split |
| `StateTransitions.FeePaidEach` | core/state_transition.go:474-490 | what every account gets of the fee: the sender all of a free message, else each listed developer one share and the miner the rest |
| `StateTransitions.UsedExactly` | core/state_transition.go:558-585 | used gas is what the EVM did not return less the refund of at most half, or nothing for a bridge call without error |
| `StateTransitions.MinerKeepsHalf` | core/state_transition.go:478-487 | with a split the miner gets at least half of the fee, and less than half plus one unit for each developer |
| `StateTransitions.StateTransition.Settle` | core/state_transition.go:270-395 | a loan is paid back once, exactly if a refund ran without error and left its fee, every deposit fee is positive and together they cover the used gas, and the balance reaches the loan; otherwise the whole state is restored and an error returned |
| `StateTransitions.StateTransition.TransitionDb` | core/state_transition.go:240-492 | succeeds exactly under a condition on message, state and gas pool; then the gas used is what the EVM did not return less the refund, or none for a bridge call; every balance is the one the EVM left plus exactly its part of unused gas, deposit fee, loan and fee; a loan was repaid exactly once; the gas pool paid exactly the used gas; a failed start changes nothing |
| `StateTransitions.ClosingEach` | core/state_transition.go:467-492 | every balance after a message: unused gas and deposit fee to the sender, the loan back, the fee to sender, developers and miner |
| `StateTransitions.ClosingTotal` | core/state_transition.go:467-492 | the sum of balances changes by what the EVM does to it plus the fee credited for a deposit |
| `StateProcessors.MarkersSurvive` | core/state_processor.go:117-151 | clearing empty accounts never loses a marker, because its nonce was bumped |
| `StateProcessors.UnbumpedMarkerIsLost` | core/state_processor.go:117-151 | without the bump a marker would be lost |
| `StateProcessors.DepositIsMarked` | core/state_processor.go:125-136 | a successful deposit always passes the test that sets its marker |
| `StateProcessors.ApplyTransaction` | core/state_processor.go:97-170 | succeeds exactly if the message does and the data of a deposit is at hand; the gas is accounted for; a message that ran on a refund or deposit loan had no marker before and has one now, and no other message changes the markers |
| `StateProcessors.Process` | core/state_processor.go:61-91 | stops at the first transaction that fails and at no other; after every transaction gas pool plus used gas is the gas limit and its receipt carries the gas used so far; each main-chain transaction is credited or refunded once |
| `StateProcessors.ProcessChain` | core/state_processor.go:61-151 | along any chain of blocks no two successful transactions that ran on a refund or deposit loan name the same main-chain transaction, and none names one that had a marker at the start |
| `ConsensusViews.ConsensusView.ChangeView` | dpos/consensusview.go:183-208 | the clock ticks by the whole tolerances elapsed, or starts over from the parent's time; the duty flag follows, and a node that comes on duty stops the consensus |
| `ConsensusViews.ConsensusView.TryChangeView` | dpos/consensusview.go:60-66 | ticks only while running and strictly past the change time, which stays one tolerance after the start of the view; as one event of a node's life |
| `ConsensusViews.ConsensusView.Prepare` | consensus/pbft/pbft.go:479-487 | a stopped consensus starts with the view number it had, from the second of the parent block or, if more than five seconds have passed since, from the present one |
| `ConsensusViews.ConsensusView.FollowBlock` | dpos/dispatcher.go:193-213 | from a finished block on clock and running state are what the polls, turns on duty and restarts make of them, in any order, and the duty index follows the height |
| `ViewClocks.EarlyTick` | dpos/consensusview.go:167-174 | polling before the tolerance has passed changes nothing |
| `ViewClocks.PunctualIff` | dpos/consensusview.go:167-208 | at all moments but the ends of views every polling schedule has led to the whole tolerances elapsed, if and only if the tolerance is whole seconds |
| `ViewClocks.OnTimeIff` | dpos/consensusview.go:60-66 | at a given moment every polling schedule has led to the whole tolerances elapsed, if and only if it is not exactly the end of a view |
| `ViewClocks.AgreedIff` | dpos/consensusview.go:60-66 | at a given moment two nodes, started at any seconds with any view numbers, have the same view number whatever their polling schedules, if and only if it is not the end of a view after the first for either and the same view is due for both |
| `ViewClocks.LatePollDisagrees` | dpos/consensusview.go:60-66 | two nodes polling at the end of the second view, one of which polled before, have different view numbers |
| `ConsensusViews.FairTurnsIff` | dpos/producers.go:198-209 | in n consecutive views each of n producers is on duty exactly once, if and only if the 32-bit sum does not wrap or n divides 2^32 |
| `ConsensusViews.DutyAdvances` | dpos/producers.go:131-146 | from one height to the next duty moves on by one producer, if and only if the 64-bit distance from the working height does not wrap there or 2^64 is a multiple of the number of producers |
| `ConsensusViews.NodesAgree` | consensus/pbft/pbft.go:479-487 | nodes that finished the same block and were restarted within the block period, or in the same second, agree on who is on duty, whatever their polling schedules, as long as neither has been on duty since and they do not look exactly at the end of a view |
| `ConsensusViews.RestartedClock` | consensus/pbft/pbft.go:765-778 | a node restarted once that has not been on duty counts views from the second of that restart, whatever polls came before |
| `ConsensusViews.RestartsAgreeIff` | consensus/pbft/pbft.go:479-487 | two nodes restarted once have the same view number at a given moment whatever their schedules, if and only if it is steady for both and the same number of views has passed since each start |
| `ConsensusViews.RestartsDisagree` | consensus/pbft/pbft.go:483-487 | nodes restarted at six and nine seconds after a block have different view numbers at twelve |
| `ConsensusViews.DutyDisagrees` | consensus/pbft/pbft.go:891-898 | a node that was on duty and is restarted falls behind one that was not |
| `Dispatchers.CheckConfirm` | dpos/confirm.go:15-46 | accepts a confirm if and only if its proposal is valid, it has enough votes and every vote accepts, is for the proposal and is valid |
| `Dispatchers.MajorityExactly` | dpos/producers.go:172-178 | a count is a majority if and only if it is more than two thirds |
| `Dispatchers.QuorumIntersection` | dpos/producers.go:172-178 | two confirms built under one producer set that pass the check share at least 2(floor(2T/3)+1)-T, so more than a third, of the T arbiters, and each of these has a valid accepting vote for its proposal in either confirm |
| `Dispatchers.DifferentSigners` | dpos/dispatcher.go:361-376 | a checked confirm built by a dispatcher has as many different producers as votes |
| `Dispatchers.Dispatcher.CreateConfirm` | dpos/dispatcher.go:361-376 | lists each collected accepting vote once; the confirm passes its check if and only if all of them are for the proposal |
| `Dispatchers.Dispatcher.ProcessVote` | dpos/dispatcher.go:141-191 | counts a vote exactly if it is new, valid, from a producer and for the proposal at hand; a confirm is built exactly when more than two thirds have accepted, from different votes, and passes its check if and only if all votes collected before are for the proposal |
| `Dispatchers.Dispatcher.SetProcessingProposal` | dpos/dispatcher.go:105-125 | exactly the early votes for the proposal that are new, valid and from producers are counted, all of them unless they make a majority before; then they are dropped |
| `Dispatchers.Dispatcher.ProcessProposal` | dpos/dispatcher.go:51-83 | takes up a proposal exactly if it is for the current view, new, well signed and from the producer on duty; later views are kept for later |
| `Dispatchers.MixedConfirm` | dpos/dispatcher.go:105-125 | two proposals and one vote for each give a confirm that fails its check |
| `Dispatchers.Dispatcher.CleanProposals` | dpos/dispatcher.go:280-298 | forgets all votes; only proposals for this or later views survive a change of view |
| `Dispatchers.Dispatcher.FinishedProposal` | dpos/dispatcher.go:193-213 | an older height changes nothing; otherwise votes are forgotten, duty follows the height and views start over from the block time |

## Left out

- TxSortedMaps.TxSortedMap.Filter: deposit transactions and the deployment of the black contract, for which the filter changes its own test while it runs, so that its result depends on map order.
- TxPools.TxPool.Reset: the walk that collects the transactions to reinject; the list is a parameter, and no state is given if the walk breaks off.
- TxPools.TxPool.Add: signature, size, intrinsic gas, blacklist and frozen-account checks are one parameter; the journal is not modelled.
- TxPricedLists.RoomMade: between its two conditions other entries of the same rank decide, that is, the layout of the heap.
- TxPools.TxPool.PromoteTx: the fail-safe for transactions that tests put into the lists without indexing them.
- TxPools.TxPool.RemoveTx: the account lists of the pool are nonce maps, so sharing of list objects between places of the pool is not captured; TxLists shows that the objects implement the maps.
- RemoveLocalTx of the pool, which does not keep the lists in step.
- BlockChains.BlockChain.WriteBlock: the head header and the head fast block that follow the head block; receipts, logs, preimages and trie garbage collection; the state commit and the evil-signer test are parameters; the transactions of a block are a set.
- HeaderChains.HeaderChain.GetAncestor: the second read of the canonical map, which guards against a concurrent change, and the caches in front of the database.
- ChainIndexers.ChainIndexer.FinishUpdate: children of an indexer and the cascading of heads to them.
- StateTransitions.StateTransition.TransitionDb: what the EVM does, access lists and return data; decoding of deposit and withdrawal data is part of the message.
- StateProcessors.ApplyTransaction: logs, bloom filters and state roots; of a receipt only the gas is modelled.
- Dispatchers.QuorumIntersection: a change of the producer set between the two confirms.
- Dispatchers.Dispatcher.ProcessVote: the notification of a rejected proposal, recovery from abnormal states and the view-reset requests.
- ViewClocks.PunctualIff: tolerances of 97 years and more, for which three views exceed the range of a duration.
- ViewClocks.AgreedIff: nodes that start polling 2^32 seconds or more after the second they count from.
- ConsensusViews.ConsensusView.FollowBlock: of consensus/pbft/pbft.go only the start of the consensus in Prepare and the stop on a turn of duty are modelled; sealing, recovery, the other errors of Prepare, the first start of the view loop and resets of the consensus by request are not.
- CalcGasLimit of core/block_validator.go and CanTransfer of core/evm.go, which would only add easy members.
- InsertReceiptChain, the freezer, insertChain and its side-chain import, the evil-signer bookkeeping, networking, RPC, codecs and cryptography.

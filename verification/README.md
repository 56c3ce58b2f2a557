# Klomang state and mempool model

A Dafny model, with proofs, of the parts of the Klomang node where several functions have to agree: the chain state
machine with its undo data and reorganizations, the witness codec, and the mempool's conflict graph, dependency graphs
and priority structures. Code that updates fields or loops over buffers is a class or a method with loops, tied by its
contract to a specification; the theorems are about that specification.

| File | Subject |
|---|---|
| `Basics`, `Graphs`, `ListMap`, `Kahn` | shared vocabulary: sums over maps, reachability and acyclicity, the in-degree worklist |
| `Ledger` | spends and creations on the UTXO map, the running supply, and the undo record |
| `ChainState`, `StateManager` | the state machine as functions, and as the class that changes its fields |
| `ChainUndo`, `ChainSupply`, `ChainReorg` | undo, conservation and inflation, reorganization as replay |
| `ChainConnected` | what connecting demands and leaves, over the transactions of the block |
| `ReorgOrder`, `PlannerReorg`, `ReorgLeftovers` | undoing blocks oldest first, and reorganizations with the planner's list |
| `ChainRollback`, `ChainRuns` | rollback, whole runs |
| `ChainExamples`, `ForkExamples` | runs from the genesis state, most of which break a promise |
| `WitnessCodec`, `WitnessLayout` | the printer and parser of execution witnesses, and the format byte by byte |
| `UnionFind`, `ConflictEngine`, `BlockBuilder` | disjoint sets, conflicts and canonical order, block candidates |
| `DependencyManager`, `OrderingEngine` | cycle prevention and depths, the two topological sorts |
| `BreadthFirst`, `AncestryTracker` | breadth-first distances, the incremental closure |
| `MemoryLimiter`, `CoreMempool`, `PriorityBuckets` | weight accounting, the core priority index, the fee buckets |

`dafny verify dfyconfig.toml` checks everything.

## How the program is read

Every call is one atomic step. A hash is its 32 bytes read as a big-endian number. Tree keys are injective in what
they are computed from (no digest collides; indices are 32-bit, `KeysDiffer`), the virtual machine and the tree
commitment are function parameters (`Env`), the key tree is a map, and the block lookup files blocks under their own
ids. The answer of the transaction store about an output, the clock, the validation verdict of the core mempool and
floating-point scores are parameters; a score is an integer whose order alone matters. Iteration over a hash table or
set takes elements in any order, so every result holds for all of them. Amounts of outputs are below 2^64 and the
supply arithmetic saturates as in the program; a block's output lists fit memory.

## Where the code differs from what is said about it

The model follows the code. The differences it proves:

* The printer writes proof type 0 for membership, the parser reads 0 as non-membership. A printed witness parses back
  with every proof type flipped and the opening proofs gone, and comes back right only if it has no entries
  (`RoundTrip`, `PromisedRoundTripIff`); two round trips bring it back (`DoubleRoundTrip`).
* The planner lists the blocks to drop tip first, and the reorganization disconnects them in reverse, so the oldest
  block is undone first (`PlannerOrder`). UTXO set, supply and height of the base come back if and only if no dropped
  block spends an output that a dropped block created (`TipFirstIff`, `PlannedUnwindsIff`); a single dropped block
  always qualifies (`ShortDropApart`), two chained blocks do not (`TipFirstCounterexample`). Where
  output ids are used once, the whole reorganization equals replay if and only if the new branch replays on the base,
  creates again every output the dropped branch created and spent, and no dropped block raised the supply above base
  and tip supply together (`PlannedReplaysIff`, `PlannedPlainIff`); two branches with the same transactions qualify (`SharedForkReplays`). With the blocks listed in
  chain order it always equals replay (`ReorganizationIsReplay`).
* A block can write a live output down under its own id and spend it at the value it had before the block: validation
  reads the set before the block. Coinbase outputs of 1 then raise the supply by 100 (`WriteDownInflates`). The excess
  is at most what was written down (`NoInflation`), and there is none where ids are computed from the contents
  (`ContentIdsNeverInflate`).
* Undoing a block recomputes tree keys with the output index in little-endian order, applying uses big-endian
  (`KeysRestoredIff`, `ByteOrderMatters`). It leaves the total-supply key alone and writes an empty value where there
  was none (`TreeBack`, `PlainTreeBackIff`), keeps what the virtual machine wrote (`MachineWritesStay`,
  `TreeBackIff`), and does not restore the tip hash, the prune markers or the earlier gas fees.
* A failed reorganization puts back UTXO set, supply, height, fees and tip only; tree, keys, undo data and stacks stay
  as the accepted blocks left them (`FailureLeaves`, `LateForkPutBack`). The next block panics on the snapshot stack
  exactly when fewer new blocks had been accepted than old ones were dropped (`FailedReorgThenPanicIff`,
  `RefusedForkPanics`).
* The inflation check cuts the declared fee to 64 bits, so it is gas limit times price only below 2^64
  (`FeeIsProductIff`).
* Creating an outpoint that exists breaks conservation of supply; it holds exactly when nothing is overwritten
  (`ConservedIff`, `RepeatedCoinbaseBreaksConservation`).
* Rollback by snapshot restores tree and supply exactly but not the UTXO set (`RollbackAfterConnect`,
  `RollbackConservesIff`).
* The canonical order is not by descending fee: the transactions without dependencies come out by exactly ascending
  score (`ComputeCanonicalOrder`), so by descending score only if there is at most one (`DescendingIff`). The
  order has one layer, and a duplicated dependency keeps a transaction out (`CanonicalOrderComplete`). A block's only
  layer is the whole order, left-out transactions included (`OneLayerWithEverything`).
* A block may hold a child without its parent: when the parent clashes or does not fit (`MissingParentIff`,
  `OversizedParent`). A block that takes the whole order is closed under parents, and `WholeOrderIff` says when that
  is.
* After a cascade a survivor can still name a removed transaction as a conflict (`RemovalFreshIff`), and then a
  parallel group contains it (`RemovedInGroupIff`, `RemovedInGroup`).
* Removal in the dependency manager evicts nothing but the transaction while recorded children name their parents back
  (`RemoveTransaction`), although it is meant to cascade; children keep the removed hash among their parents.
* The queue-based sort counts untracked ancestors and then reports a cycle where there is none (`KahnEmitsIff`,
  `PhantomCycle`).
* The ancestry tracker misses cycles that are registered children first (`MissedCycle`, `RegisterCycle`), and never
  cleans the child sets of immediate parents on removal.
* The cascade depth the tracker reports is at most one while ancestries are complete, however long the chain, because
  descendant sets are transitive (`CascadeInvalidate`).
* The memory limiter's counter drifts by the overwritten weight when a hash is added twice (`AddTxWeight`).
* In the core mempool a transaction that only breaks the byte limit is admitted whatever its fee, and evicts one other
  (`InsertTransaction`).
* Inside a fee bucket the lowest score is listed first (`ListingOrder`); a limit of zero returns one transaction
  (`GetOrderedTransactions`); the largest 64-bit fee fits no bucket (`BucketsTile`); the consistency check refuses
  every bucket with two transactions (`VerifyConsistency`).

## Model

| member | source | states |
|---|---|---|
| Ledger.RunBalance | klomang-core/src/core/state_manager.rs:522-566 | while supply covers the UTXO total, no supply update saturates: supply moves exactly with the recorded delta, and with the UTXO total up to overwritten outputs |
| Ledger.RunRemembers | klomang-core/src/core/state_manager.rs:522-566 | the undo record of any run of spends and creations still determines every outpoint it did not touch and the last spent value of those it did |
| Ledger.RestoreLookup | klomang-core/src/core/state_manager.rs:714-772 | re-inserting the spent outputs gives each outpoint its last spent output and leaves all others alone |
| Ledger.UndoExact | klomang-core/src/core/state_manager.rs:714-772 | removing the created and re-inserting the spent outputs gives the earlier UTXO map back if and only if every outpoint that was created or spent is undoable |
| Ledger.FreshUndoable | klomang-core/src/core/state_manager.rs:522-566 | fresh output ids and inputs that exist before the block are enough for an exact undo |
| Ledger.FreshOverwritesNothing | klomang-core/src/core/state_manager.rs:546-563 | fresh, pairwise different output ids overwrite no value |
| StateManager.Manager.constructor | klomang-core/src/core/state_manager.rs:344-372 | the genesis state: height 0, no supply, one snapshot and one stored tree |
| StateManager.Manager.ApplyUtxoTransaction | klomang-core/src/core/state_manager.rs:522-566 | input and output loops leave exactly the working state of the transaction's spends and creations, or report the missing input |
| StateManager.Manager.ApplyContractTransition | klomang-core/src/core/state_manager.rs:569-616 | gas check, virtual machine call, fee split and record of the specified working state, or an error |
| StateManager.Manager.ApplyTransactions | klomang-core/src/core/state_manager.rs:421-437 | the transactions of a block run in order up to the first failure |
| StateManager.Manager.ApplyStateTransition | klomang-core/src/core/state/v_trie.rs:116-154 | accepts exactly the updates with a supply of at most 600000000000000000 and no output owned by the all-zero address; then the supply key holds the supply, every other written key its last value, and all other keys what they held |
| StateManager.Manager.ApplyBlock | klomang-core/src/core/state_manager.rs:375-481 | the whole new state, including restoring every field when a transaction or the transition fails: a failure leaves every field and the UTXO set as before |
| StateManager.Manager.CommitBlock | klomang-core/src/core/state_manager.rs:455-480 | height, tip, snapshot, stored tree and undo entry move together, and a missing parent snapshot panics |
| StateManager.Manager.ValidateBlockStateful | klomang-core/src/core/state_manager.rs:640-711 | accepts exactly the blocks whose transactions without inputs aside each have all inputs live and input values that cover output values plus the declared fee in clamped 64-bit sums, and whose declared root, if the block has transactions, is the current one |
| StateManager.Manager.ConnectBlock | klomang-core/src/core/state_manager.rs:775-782 | validation against the state before the block, then application; a refusal leaves every field and the UTXO set as before |
| StateManager.Manager.DisconnectBlock | klomang-core/src/core/state_manager.rs:714-772 | the whole state after undoing a block, or an error and no change without undo data; tip, prune markers and pending updates stay in either case |
| StateManager.Manager.SplitPlan | klomang-core/src/core/state_manager.rs:842-861 | a plan splits at its first block without undo data; unknown blocks are skipped |
| StateManager.Manager.PerformReorganization | klomang-core/src/core/state_manager.rs:836-878 | disconnects the leading applied blocks in reverse and connects the rest, stopping at the first failure |
| StateManager.Manager.ReorganizeChain | klomang-core/src/core/state_manager.rs:785-833 | after a failure UTXO set, supply, height, fees and tip are those from before the call; after a success the tip is the last block of the plan, or the old one if the plan connects nothing |
| ChainState.TransitionIff | klomang-core/src/core/state/v_trie.rs:116-154 | the tree's two checks decide exactly on cap and burn address, and each key holds what was written to it last |
| ChainState.KnownInOrder | klomang-core/src/core/state_manager.rs:846-861 | the blocks of a plan keep their places, unknown hashes are skipped |
| ChainState.ReorganizedTip | klomang-core/src/core/state_manager.rs:836-878 | a successful reorganization that connects anything has the last block of its plan as tip, and keeps the tip otherwise |
| StateManager.Manager.RollbackState | klomang-core/src/core/state_manager.rs:904-952 | truncation and restoration from the snapshot of a height, with every error return |
| StateManager.Manager.Rollback | klomang-core/src/core/state_manager.rs:955-1020 | the rollback that puts six fields back when it fails |
| ChainUndo.ApplyDone | klomang-core/src/core/state_manager.rs:375-481 | what a successful application leaves: books of the block, one snapshot and stored tree more, one undo entry more |
| ChainUndo.NoSaturation | klomang-core/src/core/state_manager.rs:540-562 | no saturating supply operation of a block clamps when supply covers the UTXO total, and the recorded delta fits 128 bits |
| ChainUndo.DisconnectAfterApply | klomang-core/src/core/state_manager.rs:714-772 | undoing an applied block restores supply, height, stacks and undo map; the UTXO map exactly when the record is undoable |
| ChainUndo.ValidInputsLive | klomang-core/src/core/state_manager.rs:640-655 | a block that passes validation spends nothing it creates itself |
| ChainUndo.DisconnectAfterConnect | klomang-core/src/core/state_manager.rs:714-782 | for fresh output ids, undoing a connected block restores UTXO map, supply, height, both stacks and the undo map |
| ChainUndo.DisconnectLeaves | klomang-core/src/core/state_manager.rs:714-772 | undoing any recorded block takes one height, one snapshot, one stored tree and as many fees as the block had added, moves the supply against the recorded delta within its bounds, and leaves tip, prune markers and pending updates alone |
| ChainExamples.ApplyAloneIsNotUndone | klomang-core/src/core/state_manager.rs:485-510 | from the genesis state a block that spends its own output is refused by connecting but applies, and disconnecting it leaves the intermediate output in the set |
| ChainUndo.KeysRestoredIff | klomang-core/src/core/state_manager.rs:722-737 | the outpoint keys come back if and only if every spent index reads the same in both byte orders |
| ChainUndo.ByteOrderMatters | klomang-core/src/core/state_manager.rs:731-736 | index 0 reads the same in both orders, index 1 and a whole family of others do not |
| ChainUndo.KeysDiffer | klomang-core/src/core/state_manager.rs:549-556 | different outpoints have different tree keys, in either byte order |
| ChainUndo.TreeBack | klomang-core/src/core/state_manager.rs:739-747 | the value of every tree key after connecting and undoing a block of plain transfers |
| ChainUndo.PlainTreeBackIff | klomang-core/src/core/state_manager.rs:739-747 | for plain transfers the tree comes back if and only if every key written existed and the total-supply leaf is the same |
| ChainUndo.MachineWritesStay | klomang-core/src/core/state_manager.rs:569-616 | for any block, contracts included: what the virtual machine wrote is in no undo entry and stays after the undo, except under keys of created outputs |
| ChainUndo.TreeBackIff | klomang-core/src/core/state_manager.rs:739-747 | for any block the tree comes back if and only if the machine changed no key outside the created outputs, every noted value is the one from before the block, and the total-supply leaf is the same |
| ChainSupply.ConservedIff | klomang-core/src/core/state_manager.rs:1142-1160 | supply equals the sum of UTXO values after a block if and only if the block overwrote nothing |
| ChainSupply.FeeIsProductIff | klomang-core/src/core/state_manager.rs:698-700 | the declared fee is gas limit times price if and only if that product is below 2^64; 2^32 times 2^32 declares nothing |
| ChainSupply.TxValidIff | klomang-core/src/core/state_manager.rs:680-708 | a transaction with inputs is valid if and only if all inputs are live and their values cover the output values plus the declared fee, sums clamped to 64 bits; where nothing reaches 2^64, plus the gas limit times the price |
| ChainSupply.ValidIff | klomang-core/src/core/state_manager.rs:640-711 | a block is valid if and only if each of its transactions is, and it declares the current root, no root, or is empty |
| ChainExamples.RepeatedCoinbaseBreaksConservation | klomang-core/src/core/state_manager.rs:546-563 | from the genesis state a block with two equal coinbases connects and ends with supply 200 and UTXO total 100 |
| ChainSupply.TxNeverInflates | klomang-core/src/core/state_manager.rs:680-708 | a covered transaction lowers the supply delta by at least its declared fee, gas limit times price below 2^64, up to what its inputs lost since the start of the block |
| ChainSupply.BlockNeverInflates | klomang-core/src/core/state_manager.rs:640-711 | over any valid block, delta plus declared fees is at most the coinbase outputs plus what inputs lost inside the block |
| ChainSupply.NoInflation | klomang-core/src/core/state_manager.rs:775-782 | a connected block raises supply by at most coinbase outputs minus declared fees, gas limit times price each below 2^64, plus what the block wrote down before spending it, with no bound on the sums; a block that writes nothing down does not inflate |
| ChainSupply.FreshNeverLowers | klomang-core/src/core/state_manager.rs:546-563 | fresh output ids never lower an existing value, the condition of the inflation bound |
| ChainSupply.ContentIdsNeverInflate | klomang-core/src/core/state_manager.rs:775-782 | where transactions with the same id have the same outputs no connected block inflates, and the next state is again of that kind |
| ForkExamples.WriteDownInflates | klomang-core/src/core/state_manager.rs:640-711 | from genesis a block that writes an output of 100 down to 1 and spends it as 100 connects, and supply rises by 100 on coinbase outputs of 1 |
| ChainConnected.ConnectIff | klomang-core/src/core/state_manager.rs:375-782 | any block on any state, contract calls included: refused, with nothing changed, exactly when a transaction does not pay its way, the declared root is wrong, a call is short of gas or fails, an input is gone when its turn comes, the supply ends above the cap, or an output is owned by the all-zero address; otherwise it connects, or panics if the snapshots do not reach above the height |
| ChainConnected.BurnRefused | klomang-core/src/core/state/v_trie.rs:122-133 | a block with an output owned by the all-zero address is refused by applying and by connecting, and leaves the state as it was |
| ChainConnected.NothingBurned | klomang-core/src/core/state/v_trie.rs:122-133 | no output of any transaction of an applied block is owned by the all-zero address |
| ChainConnected.TransfersConnectIff | klomang-core/src/core/state_manager.rs:640-782 | a block of plain transfers connects if and only if its transactions pay their way, the declared root is right, its spends and creations can be run, the supply stays within the cap, and no output is owned by the all-zero address |
| ForkExamples.BurningBlockRefused | klomang-core/src/core/state_manager.rs:439-453 | from genesis a coinbase that pays 100 to the all-zero address is refused and the state is the genesis state |
| ChainConnected.NoDoubleSpendIff | klomang-core/src/core/state_manager.rs:522-545 | a block of valid transactions with fresh output ids can be run if and only if no two of its inputs name the same output |
| ChainConnected.ConnectedUtxo | klomang-core/src/core/state_manager.rs:522-566 | the UTXO set after a connected block with fresh output ids: exactly what its transactions make, under id and 32-bit index, and what was there before and is no input of theirs |
| ChainConnected.ConnectedLeaf | klomang-core/src/core/state_manager.rs:546-563 | the tree after such a block key by key: made outputs under their keys, the supply under its key, everywhere else what the virtual machine left |
| ChainConnected.ConnectedRest | klomang-core/src/core/state_manager.rs:455-480 | height, tip, fees, snapshot, stored tree and undo entry after a connected block, prune markers without those of spent outputs, outpoint keys in step with the UTXO set |
| ChainConnected.KeyBytes | klomang-core/src/core/state_manager.rs:549-556 | the key of an output holds the four bytes of its index highest first, the key recreated by an undo lowest first |
| ChainConnected.PayloadPrice | klomang-core/src/core/state_manager.rs:571-575 | a payload costs 16 for every byte and 12 less for a zero byte |
| ChainConnected.SplitShares | klomang-core/src/core/state_manager.rs:887-896 | the miner gets four fifths of a fee rounded down, the full nodes the rest, and the shares add up |
| ChainConnected.BlockSplits | klomang-core/src/core/state_manager.rs:569-616 | the virtual machine calls of a block, each with at least 21000 gas plus its payload and charged the gas it used times its price, and its spends and creations do not depend on each other; the fees are listed call by call |
| ChainReorg.FoldBacked | klomang-core/src/core/state_manager.rs:375-481 | the replay of any chain keeps supply covering the UTXO total, under the cap, with height the chain length |
| ChainReorg.ConnectGrows | klomang-core/src/core/state_manager.rs:775-782 | a successful connect is one step of the replay |
| ChainReorg.PlainConnectIff | klomang-core/src/core/state_manager.rs:775-782 | a block of plain transfers connects if and only if the replay accepts it |
| ChainReorg.ConnectTracks | klomang-core/src/core/state_manager.rs:775-782 | connecting keeps the state equal to the replay, undo records right and snapshots following the chain |
| ChainReorg.DisconnectTracks | klomang-core/src/core/state_manager.rs:714-772 | undoing the tip leads to the state of the chain without it |
| ChainReorg.DisconnectSuffix | klomang-core/src/core/state_manager.rs:863-868 | undoing a whole suffix, tip first, leads to the state of the base |
| ChainReorg.ConnectSuffix | klomang-core/src/core/state_manager.rs:870-875 | connecting a list of blocks extends the replay by the whole list |
| ChainReorg.FreshReversible | klomang-core/src/core/state_manager.rs:714-772 | chains with fresh output ids can be undone block by block anywhere |
| ChainReorg.ReorganizationIsReplay | klomang-core/src/core/state_manager.rs:836-878 | with the dropped blocks listed in chain order a successful reorganization ends in the state a replay of the new chain gives, snapshots included |
| ChainReorg.PlainReorganizationIff | klomang-core/src/core/state_manager.rs:836-878 | with plain new blocks and that order it succeeds if and only if the replay of the new chain does |
| ChainReorg.UnwoundThenReplayed | klomang-core/src/core/state_manager.rs:836-878 | the same for any list of blocks to drop whose disconnection leads back to the base |
| ReorgOrder.OldestFirstIff | klomang-core/src/core/state_manager.rs:714-772 | undoing blocks oldest first gives the base UTXO set if and only if no outpoint was both created and spent by them |
| ReorgOrder.SupplyEnds | klomang-core/src/core/state_manager.rs:749-757 | undoing blocks oldest first ends at or above the supply of the base, and at it if and only if no block raised the supply above base and tip supply together |
| ReorgOrder.ApartSupplyBack | klomang-core/src/core/state_manager.rs:749-757 | under that condition no supply update clamps on the way, and the supply of the base comes back too |
| ReorgOrder.ApartFresh | klomang-core/src/core/state_manager.rs:714-772 | blocks that are fresh one by one and never spend what they create are fresh as a whole |
| PlannerReorg.TipFirstIff | klomang-core/src/core/state_manager.rs:863-868 | disconnecting a list that has the tip first always ends, and restores the base UTXO set, and with it supply and height, if and only if no outpoint is both created and spent by the dropped blocks |
| PlannerReorg.PlannerOrder | klomang-core/src/core/consensus/ghostdag.rs:676-711 | for two branches on a common ancestor the planner's list, looked up in the DAG, is the dropped branch tip first, then the new branch from the ancestor up |
| PlannerReorg.PlannedUnwindsIff | klomang-core/src/core/state_manager.rs:836-868 | where output ids are never used twice, the planner's list leads from the old chain back to the base, undo records and snapshots included, if and only if no dropped block spends an output of a dropped block |
| PlannerReorg.ShortDropApart | klomang-core/src/core/state_manager.rs:836-868 | a plan that drops at most one block always meets that condition |
| ReorgLeftovers.PlannedReplaysIff | klomang-core/src/core/state_manager.rs:785-878 | where output ids of the dropped blocks are used once, a successful reorganization with the planner's list ends in the state a replay of the new chain gives, undo records and snapshots included, if and only if that replay exists, the new branch creates again every output the dropped branch created and spent, and no dropped block raised the supply above base and tip supply together |
| ReorgLeftovers.PlannedPlainIff | klomang-core/src/core/state_manager.rs:785-878 | with plain new blocks it succeeds and ends in that replay if and only if the same condition holds |
| ReorgLeftovers.ApartSettles | klomang-core/src/core/state_manager.rs:785-878 | where no dropped block spends an output of a dropped block, the condition is just that the replay exists |
| ReorgLeftovers.RunBeside | klomang-core/src/core/state_manager.rs:522-566 | a run of spends and creations on a set with leftover outputs and an excess of supply stays beside the run without them, with the same undo record, and loses the leftovers it creates |
| ChainExamples.TipFirstCounterexample | klomang-core/src/core/state_manager.rs:836-878 | from genesis a coinbase block and a block spending it connect; the plan that drops both tip first succeeds and leaves the coinbase output in the set and a supply of 40 |
| ForkExamples.SharedForkReplays | klomang-core/src/core/state_manager.rs:785-878 | from genesis a fork whose branches carry the same coinbase and the same spending of it: the plan succeeds and ends exactly in the replay |
| ChainRollback.StacksKept | klomang-core/src/core/state_manager.rs:1122-1138 | connect, undo and rollback keep one snapshot and one committed tree per height |
| ChainRollback.RollbackIff | klomang-core/src/core/state_manager.rs:955-1020 | rollback succeeds exactly for heights up to the current one, and its whole result |
| ChainRollback.BareRollback | klomang-core/src/core/state_manager.rs:904-952 | the rollback without its backup, in any state: refused unchanged above the height or where no snapshot names the height, otherwise successful exactly when both stacks reach the target and tree and snapshot agree on the root |
| ChainRollback.BareRollbackLeaves | klomang-core/src/core/state_manager.rs:904-952 | then both stacks are cut to the target whatever comes of it, and tree, supply and fees are those stored there as far as they are |
| ChainRollback.FailedRollbackChangesNothing | klomang-core/src/core/state_manager.rs:1003-1018 | in any state a failing rollback is atomic |
| ChainRollback.RollbackAfterConnect | klomang-core/src/core/state_manager.rs:955-1020 | rolling a connected block back restores tree, supply, fees, height and stacks exactly, and nothing else |
| ChainRollback.RollbackConservesIff | klomang-core/src/core/state_manager.rs:904-952 | supply still equals the UTXO total after a rollback if and only if the supply had not changed since |
| ChainRuns.RunsKeepInv | klomang-core/src/core/state_manager.rs:714-878 | every run of connects, tip disconnects and reorganizations, with the planner's list or one in chain order, keeps the state equal to the replay of its chain with right undo records; failing plans owe nothing, successful planner plans exactly the condition of PlannedReplaysIff |
| ChainRuns.RunsConserveSupply | klomang-core/src/core/state_manager.rs:1142-1160 | along every such run supply equals the UTXO total and stays under the cap, height is the chain length, and until a reorganization fails snapshots follow the chain and nothing panics |
| ChainRuns.NoPanic | klomang-core/src/core/state_manager.rs:455-480 | blocks connected to a state with a snapshot above its height never panic |
| ChainRuns.FailedReorgTracks | klomang-core/src/core/state_manager.rs:810-832 | after a failed reorganization, whatever its plan, UTXO set, supply and height are again those of the old chain, with its undo records |
| ChainRuns.FailureLeaves | klomang-core/src/core/state_manager.rs:785-833 | after a failed reorganization of any plan on any state UTXO set, supply, height, fees and tip are as before, and tree, keys, prune markers, pending updates, undo data, snapshots and stored trees are those left by the dropped blocks and the new blocks accepted before the refused one |
| ChainRuns.DroppableIff | klomang-core/src/core/state_manager.rs:863-868 | recorded blocks can all be undone if and only if none is listed twice |
| ChainRuns.FailedReorgThenPanicIff | klomang-core/src/core/state_manager.rs:810-832 | after a failed reorganization, whatever recorded blocks it dropped in whatever order, the next acceptable block panics if and only if fewer new blocks had been accepted than old ones were dropped, and connects otherwise |
| ForkExamples.RefusedForkPanics | klomang-core/src/core/state_manager.rs:810-832 | from genesis a reorganization drops the reward block, is refused on a block that spends the reward, and the next block panics |
| ForkExamples.LateForkPutBack | klomang-core/src/core/state_manager.rs:785-833 | from genesis a plan drops the reward block, connects another block and is refused at the third: tip, fees, UTXO set, supply and height are those of the reward block again, whose undo data is gone while that of the other block is there |
| WitnessCodec.SerializeCompact | klomang-core/src/core/state_manager.rs:84-117 | the buffer loop prints the specified format |
| WitnessCodec.DeserializeCompact | klomang-core/src/core/state_manager.rs:120-301 | on every byte string the cursor loop stays in bounds, ends, and gives what the specified parser gives |
| WitnessCodec.RoundTrip | klomang-core/src/core/state_manager.rs:84-301 | a printed witness with any tail parses back with proof types flipped and opening proofs empty, stopping where the print ended |
| WitnessCodec.PromisedRoundTripIff | klomang-core/src/core/state_manager.rs:84-301 | the promised round trip holds if and only if the witness has no entries |
| WitnessCodec.DoubleRoundTrip | klomang-core/src/core/state_manager.rs:84-301 | printing and parsing twice gives the witness back without opening proofs |
| WitnessCodec.PrefixFree | klomang-core/src/core/state_manager.rs:84-117 | no print is a proper prefix of another, and equal prints come from equal witnesses up to opening proofs |
| WitnessCodec.DecodedFits | klomang-core/src/core/state_manager.rs:120-301 | whatever parses has lengths that fit the format and takes exactly as many bytes as its print |
| WitnessLayout.TruncatedRefused | klomang-core/src/core/state_manager.rs:120-301 | no proper prefix of a print parses: too short below 36 bytes, cut off from there on |
| WitnessLayout.DecodeKept | klomang-core/src/core/state_manager.rs:120-301 | more bytes at the end change no answer but those two |
| WitnessLayout.BadTypeIff | klomang-core/src/core/state_manager.rs:149-158 | an entry is refused for its type if and only if the type byte is above 1, and 1 is read as membership |
| WitnessLayout.AbsentIff | klomang-core/src/core/state_manager.rs:160-275 | an optional field is read as absent if and only if its flag byte is there and is not 1 |
| WitnessLayout.WitnessLayout | klomang-core/src/core/state_manager.rs:84-117 | root in the first 32 bytes, number of entries in the next four, entries one after the other |
| WitnessLayout.EntryLayout | klomang-core/src/core/state_manager.rs:88-114 | the position of every field of an entry: key, type byte with 0 for membership, value, path, siblings of 32 bytes, root, leaf, and the three fee amounts in order |
| WitnessLayout.LengthBytes | klomang-core/src/core/state_manager.rs:84-117 | a length is four bytes, the highest first |
| UnionFind.RootFacts | klomang-node/src/mempool/graph_conflict_ordering.rs:43-58 | ranks rise along parent links, so the search for the root ends in a root |
| UnionFind.CompressKeepsRoots | klomang-node/src/mempool/graph_conflict_ordering.rs:49-53 | path compression changes no root |
| UnionFind.ClassesAreClosure | klomang-node/src/mempool/graph_conflict_ordering.rs:61-80 | two elements share a root if and only if the unions made connect them |
| UnionFind.LinkBalanced | klomang-node/src/mempool/graph_conflict_ordering.rs:69-79 | union by rank keeps every class of rank k at 2^k members or more |
| UnionFind.DisjointSetUnion.MakeSet | klomang-node/src/mempool/graph_conflict_ordering.rs:35-40 | adds an element and changes no class |
| UnionFind.DisjointSetUnion.Find | klomang-node/src/mempool/graph_conflict_ordering.rs:43-58 | returns the root and changes no class |
| UnionFind.DisjointSetUnion.Union | klomang-node/src/mempool/graph_conflict_ordering.rs:61-80 | the classes become those of one more connection; if the first end is a key, the keys gain exactly the second |
| UnionFind.DisjointSetUnion.GetComponents | klomang-node/src/mempool/graph_conflict_ordering.rs:83-98 | every element listed once, under the root of its class |
| Kahn.CompleteIff | klomang-node/src/mempool/graph_conflict_ordering.rs:318-410 | a worklist run emits every node if and only if no counter starts too high, every parent is a node, and there is no cycle |
| Kahn.NoUnderflow | klomang-node/src/mempool/graph_conflict_ordering.rs:379-388 | a counter about to be lowered is positive |
| Kahn.AncestorsEarlier | klomang-node/src/mempool/graph_conflict_ordering.rs:318-410 | in a parents-first order every ancestor stands before |
| Kahn.Sort | klomang-node/src/mempool/dependency_ordering_engine.rs:83-108 | the first-in first-out worklist emits without repetition, parents first, exactly the nodes whose parents are all emitted |
| ConflictEngine.Engine.RegisterTransaction | klomang-node/src/mempool/graph_conflict_ordering.rs:199-260 | reports exactly the other transactions that share a claimed transaction, records those conflicts both ways and no others, and keeps the claim index exact |
| ConflictEngine.Engine.AddDependency | klomang-node/src/mempool/graph_conflict_ordering.rs:283-291 | one more parent at the end of the child's list, and no cached order |
| ConflictEngine.Engine.SortByPriority | klomang-node/src/mempool/graph_conflict_ordering.rs:343-361 | a permutation along which scores never rise, equal scores by falling hash |
| ConflictEngine.Engine.ComputeCanonicalOrder | klomang-node/src/mempool/graph_conflict_ordering.rs:299-426 | the order is a finished worklist run in at most one layer; of two transactions without dependencies the one with the lower score stands first, and of equal scores the smaller hash; the very first of all has the lowest score among them |
| ConflictEngine.DescendingIff | klomang-node/src/mempool/graph_conflict_ordering.rs:342-361 | they stand with the higher score first, and of equal scores the larger hash, as promised, if and only if there is at most one of them |
| ConflictEngine.CanonicalOrderComplete | klomang-node/src/mempool/graph_conflict_ordering.rs:318-410 | for any dependencies no repetition and parents first; all registered transactions exactly when lists have no duplicates, parents are registered and there is no cycle |
| ConflictEngine.NeverOrdered | klomang-node/src/mempool/graph_conflict_ordering.rs:318-410 | a path to an unregistered transaction or onto a cycle keeps a transaction out |
| ConflictEngine.Engine.GetParallelExecutionGroups | klomang-node/src/mempool/graph_conflict_ordering.rs:429-456 | each registered transaction and each transaction a conflict list names stands in exactly one group, and nothing else does; groups are the connected components of the recorded conflicts |
| ConflictEngine.GroupsRegisteredIff | klomang-node/src/mempool/graph_conflict_ordering.rs:429-456 | the groups hold registered transactions only if and only if every listed conflict is registered |
| ConflictEngine.GroupsAreClasses | klomang-node/src/mempool/graph_conflict_ordering.rs:445-455 | the listed components are the classes of the conflict relation |
| ConflictEngine.GroupsShareNothing | klomang-node/src/mempool/graph_conflict_ordering.rs:429-456 | registered transactions of different groups never claim the same previous transaction, in every state |
| ConflictEngine.Engine.CollectRemovals | klomang-node/src/mempool/graph_conflict_ordering.rs:465-476 | the transaction and its transitive dependents, each once |
| ConflictEngine.Engine.RemoveTransactionCascade | klomang-node/src/mempool/graph_conflict_ordering.rs:459-499 | exactly those are removed, no survivor names a removed parent, no index lists a removed claimant, nothing else is lost |
| ConflictEngine.RemovalFreshIff | klomang-node/src/mempool/graph_conflict_ordering.rs:479-493 | the conflict lists stay clean after a cascade if and only if no survivor conflicted with a removed transaction |
| ConflictEngine.RemovedInGroupIff | klomang-node/src/mempool/graph_conflict_ordering.rs:429-499 | after a cascade a group holds a removed transaction if and only if a survivor conflicted with it |
| ConflictEngine.RemovedInGroup | klomang-node/src/mempool/graph_conflict_ordering.rs:429-499 | a run of the engine: two claimants of one transaction, one removed, and a group that holds the removed one |
| BlockBuilder.SelectGreedily | klomang-node/src/mempool/graph_conflict_ordering_integration.rs:167-195 | the loop makes the greedy selection |
| BlockBuilder.BuildBlockCanonical | klomang-node/src/mempool/graph_conflict_ordering_integration.rs:161-212 | the greedy selection on the canonical order and the layers that contain a selected transaction |
| BlockBuilder.BlockIsGreedy | klomang-node/src/mempool/graph_conflict_ordering_integration.rs:161-212 | every block is a duplicate-free subsequence of the order with exact fee and weight sums within the limit, and whatever is left out clashes or does not fit |
| BlockBuilder.BlockConflictFree | klomang-node/src/mempool/graph_conflict_ordering_integration.rs:178-185 | no two selected transactions claim the same previous transaction |
| BlockBuilder.BlockParentsFirst | klomang-node/src/mempool/graph_conflict_ordering_integration.rs:161-212 | a selected parent stands before its selected child |
| BlockBuilder.MissingParentIff | klomang-node/src/mempool/graph_conflict_ordering_integration.rs:172-195 | a parent of a selected transaction is left out if and only if it clashed with what was selected before it or did not fit beside it |
| BlockBuilder.WholeOrderIff | klomang-node/src/mempool/graph_conflict_ordering_integration.rs:172-195 | the whole canonical order is selected, and the block closed under parents, if and only if the order is conflict-free, fits, and does not reach the limit before its last transaction |
| BlockBuilder.OversizedParent | klomang-node/src/mempool/graph_conflict_ordering_integration.rs:172-195 | a parent above the limit and its child within it: every block is the child alone |
| BlockBuilder.ChildWithoutParent | klomang-node/src/mempool/graph_conflict_ordering_integration.rs:161-212 | a run of the engine that builds such a block |
| BlockBuilder.OneLayerWithEverything | klomang-node/src/mempool/graph_conflict_ordering_integration.rs:197-203 | the only layer of a block is the whole canonical order |
| BlockBuilder.VerifyCanonicalOrder | klomang-node/src/mempool/pool.rs:1724-1752 | accepts if and only if ids are distinct and no outpoint is spent twice, and each refusal is justified |
| BlockBuilder.PrepareBlockCandidate | klomang-node/src/mempool/pool.rs:1674-1700 | a candidate is refused if and only if one of its transactions spends one of its own inputs twice |
| BlockBuilder.CandidateAccepted | klomang-node/src/mempool/pool.rs:1690-1697 | for conflict-free selections all ids differ, and all inputs differ exactly when each transaction's own do |
| Graphs.NewNodeAcyclic | klomang-node/src/mempool/advanced_dependency_manager.rs:139-140 | a node's first edges close a cycle if and only if one of their ends already reaches it |
| DependencyManager.Manager.HasCycleDfs | klomang-node/src/mempool/advanced_dependency_manager.rs:403-434 | ends on any graph; finds the target only if it is reachable or the graph has a cycle, and otherwise everything reachable is visited |
| DependencyManager.Manager.DetectCycles | klomang-node/src/mempool/advanced_dependency_manager.rs:384-400 | reports a cycle if and only if a parent reaches the transaction |
| DependencyManager.Manager.RegisterTransaction | klomang-node/src/mempool/advanced_dependency_manager.rs:89-181 | in every reachable state parents stay acyclic and the depth index exact; refused as circular exactly when the new edges would close a cycle; depth, links and the answered chain; with tracked parents never refused as circular, and all parents stay tracked and all depths exact |
| DependencyManager.Manager.GetExecutionSequence | klomang-node/src/mempool/advanced_dependency_manager.rs:333-381 | a parents-first permutation of all ancestors |
| Graphs.Collect | klomang-node/src/mempool/advanced_dependency_manager.rs:313-330 | the breadth-first search finds exactly what is reachable by one edge or more |
| DependencyManager.Manager.RemoveTransaction | klomang-node/src/mempool/advanced_dependency_manager.rs:230-272 | what is evicted besides the transaction had no recorded parent; nothing else is evicted exactly when it has no such child; which depths change and to what |
| DependencyManager.Manager.Recalculate | klomang-node/src/mempool/advanced_dependency_manager.rs:437-475 | the depth becomes one more than the deepest tracked parent, and the index follows |
| DependencyManager.DepthsKeptIff | klomang-node/src/mempool/advanced_dependency_manager.rs:132-162 | a registration keeps all depths exact if and only if the newcomer is shallower than every tracked child of it |
| DependencyManager.AncestorsShallower | klomang-node/src/mempool/advanced_dependency_manager.rs:26-31 | with exact depths every tracked ancestor is shallower |
| DependencyManager.LinksBackKeptIff | klomang-node/src/mempool/advanced_dependency_manager.rs:147-153 | a re-registration keeps children naming their parents back if and only if stale child entries belong to current parents |
| OrderingEngine.BuildAdjacencyStructures | klomang-node/src/mempool/dependency_ordering_engine.rs:236-277 | the levels below the first empty one, in-degrees counting all ancestors, edges from listed ancestors |
| OrderingEngine.GetTopologicalSortKahn | klomang-node/src/mempool/dependency_ordering_engine.rs:79-128 | a finished worklist run on the ancestor graph, with the reported cycle members being what was not emitted; no cycle is reported if and only if all ancestors of listed transactions are listed; when registrations came parents first, every tracked transaction, ancestors first, and no cycle |
| OrderingEngine.KahnEmitsIff | klomang-node/src/mempool/dependency_ordering_engine.rs:79-128 | a listed transaction is emitted if and only if all its ancestors are listed |
| OrderingEngine.PhantomCycle | klomang-node/src/mempool/dependency_ordering_engine.rs:79-128 | a run of the manager: a transaction with an unregistered parent makes the sort report a cycle in an acyclic graph |
| OrderingEngine.VisitAll | klomang-node/src/mempool/dependency_ordering_engine.rs:140-152 | on any graph every node once, cycle members reported if and only if there is a cycle, children before parents when there is none |
| OrderingEngine.DfsVisit | klomang-node/src/mempool/dependency_ordering_engine.rs:280-306 | one recursive visit keeps finished nodes closed and in postorder |
| OrderingEngine.GetTopologicalSortDfs | klomang-node/src/mempool/dependency_ordering_engine.rs:132-164 | all listed transactions, ancestors first, never a cycle in a reachable state; when registrations came parents first, every tracked transaction |
| OrderingEngine.SortsAgreeIff | klomang-node/src/mempool/dependency_ordering_engine.rs:77-164 | both sorts put ancestors first and list the same transactions exactly when no listed one has an unlisted ancestor |
| DependencyManager.ParentsFirstKeeps | klomang-node/src/mempool/advanced_dependency_manager.rs:89-181 | registrations after their parents keep every parent tracked and every depth exact |
| OrderingEngine.AllListed | klomang-node/src/mempool/dependency_ordering_engine.rs:240-252 | after such a run no level is skipped: everything tracked is listed, with all ancestors |
| OrderingEngine.KahnComplete | klomang-node/src/mempool/dependency_ordering_engine.rs:79-128 | then the queue-based sort emits everything that is tracked, ancestors first |
| AncestryTracker.Tracker.RegisterTransaction | klomang-node/src/mempool/recursive_dependency_tracker.rs:171-266 | every outcome and its condition, what is kept on each failure, and the new ancestry, verdict and child entries on success; with registered parents, after registrations that came parents first, never refused for a cycle or for depth, and ancestries stay the full closure with depths above those of ancestors |
| AncestryTracker.Tracker.BuildAncestors | klomang-node/src/mempool/recursive_dependency_tracker.rs:521-563 | the recursion collects what is reachable through unregistered transactions plus the recorded ancestries, and fails only on a chain longer than the limit |
| AncestryTracker.Tracker.Validate | klomang-node/src/mempool/recursive_dependency_tracker.rs:566-619 | exact counts of missing and invalid ancestors, status, and a depth one above the deepest |
| AncestryTracker.Tracker.CascadeInvalidate | klomang-node/src/mempool/recursive_dependency_tracker.rs:369-425 | marks exactly what the descendant sets reach, each once, and nothing else, and reports the largest distance in them; with complete ancestries exactly the transaction and those that reach it through direct parents, at a reported depth of at most one |
| AncestryTracker.Tracker.Affected | klomang-node/src/mempool/recursive_dependency_tracker.rs:369-396 | the breadth-first search meets exactly what is reachable, and its depth is the largest distance |
| BreadthFirst.Visit | klomang-node/src/mempool/recursive_dependency_tracker.rs:377-395 | taking one entry keeps: everything nearer than the front has been met, everything at the front distance has been met or waits, and the depth is the largest distance met |
| BreadthFirst.BallIff | klomang-node/src/mempool/recursive_dependency_tracker.rs:377-395 | distance means the length of a shortest path |
| AncestryTracker.Tracker.RemoveTransaction | klomang-node/src/mempool/recursive_dependency_tracker.rs:428-479 | the transaction disappears from all ancestor and descendant sets, which stay inverse to each other |
| AncestryTracker.BuiltIsClosure | klomang-node/src/mempool/recursive_dependency_tracker.rs:521-563 | with registered parents and complete ancestries the construction finds exactly what the parents reach |
| AncestryTracker.CycleCheckExact | klomang-node/src/mempool/recursive_dependency_tracker.rs:206-213 | then the cycle check is exact |
| AncestryTracker.CycleCheckIff | klomang-node/src/mempool/recursive_dependency_tracker.rs:206-213 | in any state with registered parents the check is right if and only if the newcomer is in the recorded ancestry of a parent exactly when a parent reaches it |
| AncestryTracker.CompleteKeptIff | klomang-node/src/mempool/recursive_dependency_tracker.rs:227-240 | ancestries stay the full closure if and only if whoever counts the newcomer as an ancestor knows the newcomer's ancestors |
| AncestryTracker.ParentsFirstKeeps | klomang-node/src/mempool/recursive_dependency_tracker.rs:171-266 | on parents-first runs no registration is refused for a cycle, ancestries are the full closure and depths exceed those of all ancestors |
| AncestryTracker.CascadeExact | klomang-node/src/mempool/recursive_dependency_tracker.rs:369-425 | then the cascade hits exactly the transaction and those that reach it through direct parents |
| AncestryTracker.ChildAccepted | klomang-node/src/mempool/recursive_dependency_tracker.rs:171-266 | a registration with one mempool parent is accepted unless the parent names it |
| AncestryTracker.MissedCycle | klomang-node/src/mempool/recursive_dependency_tracker.rs:206-213 | the registration that closes a cycle of three registered children first is accepted |
| AncestryTracker.RegisterCycle | klomang-node/src/mempool/recursive_dependency_tracker.rs:171-266 | a run from the empty tracker: three registrations, children first, are all accepted and leave a cycle of direct parents |
| AncestryTracker.DepthAboveKeptIff | klomang-node/src/mempool/recursive_dependency_tracker.rs:582-610 | depths stay above those of ancestors if and only if the newcomer is shallower than whoever knew it |
| AncestryTracker.Tracker.GetReadyTransactions | klomang-node/src/mempool/recursive_dependency_manager.rs:184-207 | exactly the validated, ready transactions, each once, by depth, with ancestors first whenever depths exceed those of ancestors |
| AncestryTracker.ReadyIsTopological | klomang-node/src/mempool/recursive_dependency_manager.rs:180-207 | in that list every ancestor stands before its descendants |
| MemoryLimiter.Limiter.AddTxWeight | klomang-node/src/mempool/memory_limiter.rs:240-250 | the counter equals the tracked total plus the weight of entries overwritten so far |
| MemoryLimiter.Limiter.RemoveTxWeight | klomang-node/src/mempool/memory_limiter.rs:253-263 | frees exactly the tracked weight |
| MemoryLimiter.Limiter.RegisterDependency | klomang-node/src/mempool/memory_limiter.rs:266-272 | adds one parent-child pair and no other |
| MemoryLimiter.Limiter.UnregisterDependency | klomang-node/src/mempool/memory_limiter.rs:275-283 | removes one parent-child pair and no other |
| MemoryLimiter.Limiter.GetEvictionCandidates | klomang-node/src/mempool/memory_limiter.rs:315-344 | all tracked transactions, scores never falling, equal scores by rising number of recorded children, then by hash |
| MemoryLimiter.Limiter.CollectDependents | klomang-node/src/mempool/memory_limiter.rs:347-368 | on any graph, cycles included, exactly the transitive dependents |
| MemoryLimiter.Limiter.EvictTransactionCascade | klomang-node/src/mempool/memory_limiter.rs:372-414 | untracks exactly the transaction and its dependents, and the freed weight is the drop of counter and total |
| MemoryLimiter.Limiter.MakeSpaceFor | klomang-node/src/mempool/memory_limiter.rs:418-461 | evicts candidates in order with their dependents and nothing else, until weight plus requirement is at most half the maximum or nothing is tracked, and the last round was needed |
| CoreMempool.AboveTotal | klomang-core/src/core/mempool.rs:67-77 | the priority order decides between any two different keys one way only, is transitive, and never puts a smaller fee, for equal fees a later insertion, or for both equal a larger id above |
| CoreMempool.Mempool.InsertTransaction | klomang-core/src/core/mempool.rs:251-295 | every outcome and its condition, the pool being full exactly when a limit would be broken, none has room left, and nothing stored pays less; at most one eviction, of the transaction with the least fee, of those the latest, of those the largest id; index, byte counter and transaction limit stay exact |
| CoreMempool.Mempool.EvictLowestPriority | klomang-core/src/core/mempool.rs:442-449 | removes the transaction with the least fee, of those the latest inserted, of those the one with the largest id |
| CoreMempool.Mempool.RemoveTransactions | klomang-core/src/core/mempool.rs:343-361 | removes exactly the given ids and counts those that were stored |
| CoreMempool.Mempool.ExpireOldTransactions | klomang-core/src/core/mempool.rs:363-391 | removes and counts exactly those whose insertion time plus lifetime is not after now |
| CoreMempool.Mempool.GetTopTransactions | klomang-core/src/core/mempool.rs:328-336 | up to the limit, fees never rising along the answer, equal fees oldest first, then by id; nothing left out pays more than a listed one, or ranks above it at the same fee |
| CoreMempool.LastIsLowest | klomang-core/src/core/mempool.rs:442-449 | the last key of the index is that of the transaction with the least fee, then the latest insertion, then the largest id |
| PriorityBuckets.BucketsTile | klomang-node/src/mempool/priority_ordering.rs:229-267 | for any thresholds the first bucket whose range holds a fee exists for every fee but the largest |
| PriorityBuckets.InRangeIff | klomang-node/src/mempool/priority_ordering.rs:229-267 | a bucket holds the fees from the threshold below it to under its own, the last one to under 2^64 - 1 |
| PriorityBuckets.BucketsMonotone | klomang-node/src/mempool/priority_ordering.rs:229-267 | a higher fee is never filed lower |
| PriorityBuckets.InsertIntoBucket | klomang-node/src/mempool/priority_ordering.rs:116-142 | binary search inserts one transaction and keeps the bucket in order |
| PriorityBuckets.PriorityBuckets.Insert | klomang-node/src/mempool/priority_ordering.rs:252-277 | accepted exactly when ordering is on and the fee is not the largest number; one live transaction more, in its bucket |
| PriorityBuckets.PriorityBuckets.Remove | klomang-node/src/mempool/priority_ordering.rs:280-292 | with distinct hashes exactly the transaction of that hash goes |
| PriorityBuckets.PriorityBuckets.GetOrderedTransactions | klomang-node/src/mempool/priority_ordering.rs:313-328 | the first transactions of the listing, one at least |
| PriorityBuckets.PriorityBuckets.VerifyConsistency | klomang-node/src/mempool/priority_ordering.rs:368-412 | accepts a consistent structure if and only if no bucket has two transactions |
| PriorityBuckets.OrderIndependence | klomang-node/src/mempool/priority_ordering.rs:309-328 | with distinct hashes buckets and listings depend only on the thresholds and the set of live transactions |
| PriorityBuckets.ListingOrder | klomang-node/src/mempool/priority_ordering.rs:313-328 | higher buckets first; inside a bucket lower scores first, and of equal scores the larger hash |
| PriorityBuckets.ListingMembers | klomang-node/src/mempool/priority_ordering.rs:313-328 | the listing holds exactly the live transactions |

## Left out

- DependencyManager.Manager.RemoveTransaction: the new depth of a child one of whose parents is itself a child of the removed transaction depends on the order of a hash set, so only the other children's depths are stated.
- ConflictEngine.Engine.ComputeCanonicalOrder: nothing is stated about the priority of transactions with dependencies, because they are released in the order of a hash map.
- PlannerReorg.PlannerOrder: the common ancestor is given; finding it and the finality check are not part of this model.
- AncestryTracker.Tracker.BuildAncestors: a chain longer than the limit need not fail, because the walk may reach its transactions by shorter ways, in the order of a hash set; so that direction is not stated.
- CoreMempool.Mempool.InsertTransaction: no bound on the byte limit is stated, because the code evicts one transaction only.
- Virtual machine, tree commitment and its proofs, signatures, transaction validation rules of the UTXO module and of the core mempool: parameters, or not part of this model.
- `restore_from_snapshot`, pruning cycles and mempool notification of the state manager.
- Overflow of 64-bit and machine-word counters (heights, depths, fee and weight sums, lifetimes) and of the 128-bit gas split.
- Recursive status resolution of the ancestry tracker: it need not end on the cycles the tracker accepts.
- Floating-point scores, fee estimation, aging and statistics counters.
- Locks, concurrent interleavings inside a call, persistence and networking.
- The remaining mempool modules (orphan pool, parallel selection, replacement, multi-dimensional index): their properties are easier versions of those above, or they promise no invariant.

# hayate, verified

A Dafny model of the parts of hayate (a Cardano indexer and wallet) whose correctness rests on how several
operations fit together, with proofs of the properties those parts exist for. `dafny verify dfyconfig.toml` checks
everything.

## What is modelled

**The reorg-safe UTxO index.** `Storage.NetworkStorage` is the storage task: one mutable object whose trees change by
one command at a time, with a ghost history of every state it has been in. `Processor.BlockProcessor` is the block
processor, loop for loop: spending inputs, creating tracked outputs, logging events, the bounded queue of undo
records, tips saved at epoch boundaries, rollback gated on the persisted tip. Every method is tied to a function of
the old state (`Processing`, `Machine`). The reference these are measured against is a plain replay of the surviving
chain from empty trees (`Runs.Replay`), and below that an account of the chain by positions, which names no processing
function: which outputs are live or spent at a moment, and by whom (`Chronicle`), and what each block logs
(`EventLog`). The main results: every run agrees with the replay; undoing a block is the exact inverse of processing
it; in every reachable state balances are the sums of live UTxOs and the address index is exactly the UTxO set by
address; after every single command, even in the middle of a block or a rollback, no index entry points at a foreign
or missing UTxO; indexing with a filter gives the filtered full ledger; the read queries, also when they interleave
with processing, and the walk along previous-block hashes return what the surviving chain says.

**Bytes.** CBOR items of definite and indefinite length (RFC 8949, section 3) with an iterative skipping decoder
proved against a recursive definition and fixed by examples spelled as in appendix A; adding a signature to a
transaction envelope; extracting the body; signing a built transaction; the governance datum codec; the M-of-N native
script; the hand-written Bech32 encoder (BIP-173, sections "Bech32" and "Checksum"), its checksum as a remainder over
GF(32); the reader of the immutable database's primary index, secondary index and chunk files.

**Amounts.** The treasury and reserves update over any number of epochs, pool reward factors over any list of pools,
the two greedy coin selectors, the plain builder down to the bytes of its transaction body, and the fee fix-point of
the unified transaction builder.

**Snapshots.** Their names, the cleanup that keeps the newest, and the restore that falls back from bad ones.

## Where the code does less than its words

The model follows the code. These are the places where a property one would expect holds only under a condition, each
with the exact condition or a concrete counterexample:

- `rollback_to` compares its target with the persisted tip, which forward processing writes only at epoch boundaries.
  A target at or above it does nothing, whatever newer blocks are indexed (`Runs.RollbackExactWhen`); while only epoch
  0 is indexed no rollback does anything (`Runs.EpochZeroNeverRollsBack`, `Runs.FirstEpochRollbackKeepsBlock`). The
  comment at src/indexer/block_processor.rs:373-375 says UTxO changes are not
  undone; the loop above it does undo them.
- Rollback deletes at most 100000 events of a slot. A block is undone exactly if and only if it logged no more, and a
  rollback restores the event log if and only if that holds of every block it undoes (`Undo.UndoInvertsApply`,
  `Runs.ScannedExactWhen`); a block of 100001 outputs is not undone (`Undo.FloodOutlastsRollback`).
- A filter without payment keys tracks every output. With stake keys alone that includes addresses that are not ours:
  exactly then (`Ledger.TracksOnlyOursExactWhen`, `Ledger.StakeKeyTracksForeign`).
- The signature embedder re-encodes the envelope with the one-byte head 0x84; the body extractor recognises only that
  spelling (`Signing.ExtractUnchangedWhen`, `SigningExamples.LongHeadChangesBody`). Of a three-element envelope the
  embedder's result promises four elements and holds three (`Signing.EmbedMeaning`,
  `SigningExamples.ThreeElementsStayThree`).
- The embedder takes a witness map or vkey array of indefinite length as empty, so that embedding a signature drops the
  fields or signatures in it: exactly then (`Signing.EmbedAllKeepsExactWhen`, `SigningExamples.OpenVkeysAreDropped`,
  `SigningExamples.OpenFieldsAreDropped`). Signing a built transaction drops the fields of such a map
  (`Signing.SignBuiltKeepsExactWhen`).
- The comment at src/rewards_calculation.rs:130-132 takes the whole expansion out of the reserves; the code at line 172
  takes out only what the treasury gets beyond the fees. The two agree exactly when the treasury rate is one or there
  is neither expansion nor fee (`Rewards.ReservesLoseExpansionExactWhen`, `Rewards.ReservesLoseLess`). The conservation
  law proved is the code's.
- A pool below its pledge can have a negative reward, which the cast to an unsigned integer turns into a huge one
  (`Rewards.RewardFitsPotExactWhen`, `Rewards.MissedPledgeWraps`).
- Gross rewards are capped neither at the optimal reward nor at the pot: the exact condition for both is
  `Rewards.GrossStaysWithinExactWhen`, and `Rewards.GrossExceedsPot` is a pool paid 190000 out of a pot of 100000.
- An output that lists one asset twice is paid for in full but encoded with its last amount only
  (`TxBodyOps.BytesBalance`, `TxBodyOps.ListedTwice`).
- The unified builder drops change too small for an output, tops up change that carries tokens, and counts the value of
  script inputs nowhere, so its transaction balances only when none of these happens, or when the script inputs happen
  to be worth the top-up: decided by the first selection (`Fees.BuildBalancesExactWhen`, `Fees.TokenChangeBalancesWhen`),
  shown to fail by `Fees.DroppedChange`, `Fees.ToppedUpChange` and `Fees.UncountedScriptInput`.
- `build_and_sign` assembles the transaction anew and puts the change back without its tokens: what is signed is what
  was built exactly when no tokens are left over (`Fees.SignedIsBuiltExactWhen`, `Fees.SignedChangeLosesToken`).
- The sum that a fee retry compares with the change can wrap around in u64, and only then a retry can lose its inputs
  (`Fees.RetryKeepsInputsExactWhen`, `Fees.WrappedRetryRunsDry`).
- The snapshot-name parser takes names the writer never makes, and those sort wrongly: exactly those
  (`Snapshots.OrdersAsSlotExactWhen`, `Snapshots.LooseNameBreaksOrder`).

## Conventions and assumptions

- Addresses and hashes are hex strings, as the storage keys have them; records stored as JSON are values. The address
  decoder, signing, hashing, CRC-32, the transaction assembler and the outcomes of file operations on snapshots are
  parameters: results hold for every choice of them.
- Storage calls succeed. u64 arithmetic that can overflow is written out (wrapping as in a release build, or saturating
  as the source says), and is shown not to overflow where the total value fits.
- The storage view drops zero balances: a missing balance and a stored zero read the same
  (tests/block_processor_tests.rs:203).
- A chain is admissible when each block has its own slot and hash, transaction hashes are new, and live value plus the
  value a block creates fits in u64 (`Runs.Follows`). The guard of `process_block` alone does not give distinct slots.
- Byte strings are shorter than 2^64; Rust's `String` order is taken on characters.

## Model

| member | source | states |
|---|---|---|
| Runs.RunAgreesWithReplay | src/indexer/block_processor.rs:203-394 | Over every run of process and rollback steps whose effective rollbacks drop only buffered blocks of at most 100000 events each, all indexed structures equal a replay of the surviving chain from empty, the buffer is the undo records of its last blocks (at most K), and the persisted tip never exceeds the current slot |
| Runs.StepKeepsReplay | src/indexer/block_processor.rs:203-394 | One step of either kind, rejected or ineffective steps included, takes an indexed chain to its surviving chain |
| Runs.ReachableIsQuiescent | src/indexer/block_processor.rs:528-719 | In every reachable state each address's balance is the sum of its live UTxOs, the address index is exactly the (address, key) pairs of the UTxO set, and no key is both live and spent |
| Runs.NoSpendSaturates | src/indexer/block_processor.rs:528-588 | In every reachable state, at every input of the next block, the balance covers the spent UTxO, so `saturating_sub` never saturates |
| Runs.NoRollbackSaturates | src/indexer/block_processor.rs:362-371 | In every reachable state, while the newest buffered blocks are undone one after another: at every created output deleted, the balance covers the UTxO |
| Runs.UnwindGoesThrough | src/indexer/block_processor.rs:362-371 | Those states are the ones the unwinding loop passes through |
| Runs.NoUndoSaturates | src/indexer/block_processor.rs:459-478 | The same for undoing any block of a replay, whatever is in the event log |
| Runs.RollbackExactWhen | src/indexer/block_processor.rs:347-394 | A rollback leaves the replay of the blocks at or below its target if and only if no indexed block is above it, or the target is below the persisted tip, all blocks above it are buffered and none of them logged more than 100000 events |
| Runs.FirstEpochRollbackKeepsBlock | src/indexer/block_processor.rs:350-360 | A concrete rollback in epoch 0 that leaves the block above its target indexed |
| Runs.EpochZeroNeverRollsBack | src/indexer/block_processor.rs:306-360 | In every run that has only processed blocks of epoch 0, no tip is persisted and no rollback changes anything |
| Runs.RollbackStep | src/indexer/block_processor.rs:347-394 | An effective, buffered rollback of blocks with at most 100000 events each leaves exactly the blocks at or below the target, with a buffer that can undo the rest |
| Runs.ForwardStep | src/indexer/block_processor.rs:203-345 | An accepted block extends the indexed chain by itself and its undo record by one |
| Runs.UndoLast | src/indexer/block_processor.rs:416-481 | Undoing the last of n replayed blocks gives the replay of the first n - 1, event log aside; it gives exactly that replay if and only if the block logged at most 100000 events |
| Runs.UnwindReplay | src/indexer/block_processor.rs:362-371 | The unwinding loop stops at the replay of the blocks at or below the target, or when its records run out, with the event log scanned once per block undone, whatever was in it |
| Runs.ScannedExactWhen | src/indexer/block_processor.rs:445-457 | Those scans restore the event log if and only if none of the blocks undone logged more than 100000 events |
| Runs.KeptExactly | src/indexer/block_processor.rs:363-366 | The blocks that survive a rollback are exactly those at or below its target |
| Runs.ReplayBlocks | src/indexer/block_processor.rs:284-287 | The block-hash index of a replay holds exactly its blocks, each with its slot, time and parent |
| Runs.PushKeepsBuffers | src/indexer/block_processor.rs:300-304 | Pushing an undo record and dropping the oldest keeps the buffer the records of the last blocks, as many as there are up to its size |
| Runs.ForwardKeepsTip | src/indexer/block_processor.rs:306-310 | Saving tips at epoch boundaries never moves the persisted tip past the processed block |
| Runs.ReachableTipsAgree | src/indexer/block_processor.rs:374-413 | In every run, admissible or not, each configured wallet's tip is the chain tip, or neither is stored |
| Runs.ReachableResumesAtChainTip | src/indexer/mod.rs:403-431 | So the resume point, the smallest wallet tip, is the chain tip in every reachable state |
| Forks.RollbackReopens | src/indexer/block_processor.rs:205-394 | After a rollback below the persisted tip every block from its target on is processed and every one below it refused |
| Forks.RollbackElseNothing | src/indexer/block_processor.rs:350-360 | Any other rollback changes nothing |
| Forks.BlockMovesOn | src/indexer/block_processor.rs:205-345 | After a block that was processed every block from its slot on is processed and every one below it refused |
| Forks.SwitchesToFork | src/indexer/block_processor.rs:203-394 | After a rollback and the blocks of a fork above its target the chain is the blocks at or below the target followed by all blocks of the fork, and the index is the replay of that |
| Forks.EpochIsHighest | src/indexer/block_processor.rs:236-241 | The epoch the processor has reached is the highest of all blocks it ever processed, rolled back or not |
| Forks.SavesFirstOfEpoch | src/indexer/block_processor.rs:236-413 | A processed block becomes the chain tip and every wallet tip, with its slot, hash and time, if and only if its epoch of 86400 slots is above 0 and above those of all blocks processed before; otherwise no tip changes |
| Forks.RollbackSavesTarget | src/indexer/block_processor.rs:376-391 | A rollback that takes effect stores its target as chain tip and as every wallet tip, without a hash |
| Forks.TipEstimate | src/indexer/block_processor.rs:294-298 | The tip estimate is what the node reports, or else the highest slot so far |
| Forks.ReportsUndone | src/indexer/block_processor.rs:347-394 | A rollback reports the number of blocks above its target that were buffered, or the distance in slots if there were none, and 0 if it has no effect |
| Chronicle.ReplayHolds | src/indexer/block_processor.rs:528-719 | After any number of blocks the UTxO set holds exactly the tracked outputs that no later transaction names, every stored field as the chain has it, and the spent index exactly those one does name, with the block and transaction of the first that did: all by positions in the chain |
| Chronicle.ReachableHolds | src/indexer/block_processor.rs:203-394 | The same for the surviving chain in every reachable state |
| EventLog.LogSaysWhatHappened | src/indexer/block_processor.rs:248-282 | A block logs one creation for each tracked output still live after it, in order, then one spend for each input that spends a live output, in order, and every event says what the chain says |
| Undo.UndoInvertsApply | src/indexer/block_processor.rs:416-481 | Undoing a block right after processing it restores every structure but the event log, outputs created and spent within it included; it restores the event log too if and only if the block logged at most 100000 events |
| Undo.SmallBlockUndone | src/indexer/block_processor.rs:416-481 | A block of at most 100000 inputs and outputs is always undone exactly |
| Undo.UndoIgnoresEvents | src/indexer/block_processor.rs:416-481 | An undo does the same to all other structures whatever the event log holds |
| Undo.ApplyKeepsQuiescent | src/indexer/block_processor.rs:203-345 | Processing a block keeps balances and address index exact and live and spent keys disjoint |
| Undo.ProcessTxsSteps | src/indexer/block_processor.rs:237-246 | After any number of transactions of a block: exact balances and index, and an undo record that accounts for every UTxO created and spent so far |
| Undo.SpendInputStep | src/indexer/block_processor.rs:528-588 | Spending an input keeps that invariant and loses no value; an unknown input changes nothing |
| Undo.CreateStep | src/indexer/block_processor.rs:591-719 | Creating a tracked output keeps that invariant and adds exactly its value |
| Undo.WriteEventsExact | src/indexer/block_processor.rs:248-282 | A slot's event keys after logging are exactly 0 to n-1, in order, and no other event is touched |
| Undo.DeleteEventsInverts | src/indexer/block_processor.rs:445-457 | Scanning until an event is missing deletes all events of the slot and nothing else |
| Undo.DeleteEventsExactWhen | src/indexer/block_processor.rs:447 | It does so if and only if the slot has at most 100000 events |
| Undo.FloodOutlastsRollback | src/indexer/block_processor.rs:447 | A concrete block of more than 100000 outputs that undoing does not take back |
| Undo.RestoreExact | src/indexer/block_processor.rs:422-438 | Restoring spent UTxOs adds exactly them and keeps balances and index exact |
| Undo.DeleteCreatedExact | src/indexer/block_processor.rs:459-478 | Deleting created UTxOs removes exactly those still live and keeps balances and index exact |
| Undo.RecordCounts | src/indexer/block_processor.rs:251-282 | A block never records more creations and spends than it has outputs and inputs |
| Undo.SpendingStaysConsistent | src/indexer/block_processor.rs:499-502 | Before each input of a block, balances and address index are exact |
| Undo.UndoingStaysConsistent | src/indexer/block_processor.rs:459-478 | Before each deletion of a rollback, balances and address index are exact, whatever is in the event log |
| Holdings.AddKeepsConsistent | src/indexer/block_processor.rs:591-719 | Crediting and indexing a fresh UTxO keeps balances the sums of live UTxOs |
| Holdings.RemoveKeepsConsistent | src/indexer/block_processor.rs:528-588 | Debiting and unindexing a UTxO does too, without saturating |
| Holdings.CreditExact | src/indexer/block_processor.rs:430-431 | The new balance is the sum over the grown UTxO set; the addition does not wrap |
| Holdings.DebitExact | src/indexer/block_processor.rs:466-468 | The balance covers the UTxO, and the new balance is the sum over the shrunk UTxO set |
| Index.OutOfRange | src/indexer/block_processor.rs:430-468 | Out of range, which no reachable state gets to, a balance loses multiples of 2^64 upwards and ends at zero downwards |
| Ledger.TracksOnlyOursExactWhen | src/indexer/block_processor.rs:53-118 | Every indexed address is one of ours if and only if payment keys are configured or stake keys are not; otherwise exactly the addresses not listed are indexed without being ours |
| Ledger.StakeKeyTracksForeign | src/indexer/block_processor.rs:609-612 | A concrete filter for one stake key that indexes an address of another one |
| Ledger.TracksByAddress | src/indexer/block_processor.rs:53-118 | With payment keys configured and an address not listed, kind by kind: undecodable and script addresses are not indexed; a key address without stake key, or with a script or pointer for one, exactly when its payment key is configured; one with a stake key exactly when that is configured too, if any is |
| Ledger.TracksRegardless | src/indexer/block_processor.rs:609-612 | A listed address is always indexed, and every address is when no payment key is configured |
| Text.UtxoKeyInjective | src/indexer/block_processor.rs:603 | Distinct outputs have distinct UTxO keys |
| Text.IndexKeyInjective | src/indexer/mod.rs:472-483 | Distinct (address, key) pairs have distinct index entries: hex addresses hold no colon |
| Text.EventKeyInjective | src/indexer/block_processor.rs:254 | Distinct (slot, index) pairs have distinct event keys |
| WireFormats.KeysSpelled | src/indexer/block_processor.rs:603 | A UTxO key and an index entry, character for character |
| WireFormats.EventKeySpelled | src/indexer/block_processor.rs:254 | The key of event 25 of slot 86400, character for character |
| WireFormats.EventsInOrder | src/indexer/mod.rs:128 | Event keys order lexicographically exactly as slot and then index do |
| Processor.BlockProcessor.constructor | src/indexer/block_processor.rs:161-182 | A new processor resumes at the persisted tip with an empty buffer |
| Processor.BlockProcessor.ProcessInput | src/indexer/block_processor.rs:528-588 | Spends a live UTxO: debit, unindex, record the spend, remember it for undo, delete; keeps the index sound after each command |
| Processor.BlockProcessor.ProcessOutput | src/indexer/block_processor.rs:591-719 | Creates a tracked UTxO: insert, credit, index, remember the key; skips an untracked one; which ones are tracked is `Ledger.TracksByAddress` and `Ledger.TracksRegardless`, what is stored `Chronicle.ReachableHolds` |
| Processor.BlockProcessor.ProcessTransaction | src/indexer/block_processor.rs:484-507 | All inputs, then all outputs |
| Processor.BlockProcessor.LogCreated | src/indexer/block_processor.rs:251-264 | Logs the created outputs still live, numbered from 0 |
| Processor.BlockProcessor.LogSpent | src/indexer/block_processor.rs:266-282 | Logs the spends after them |
| Processor.BlockProcessor.ProcessTransactions | src/indexer/block_processor.rs:228-246 | The undo record and trees after the last transaction of a block |
| Processor.BlockProcessor.IndexBlock | src/indexer/block_processor.rs:219-287 | Transactions, events and block metadata together |
| Processor.BlockProcessor.ProcessBlock | src/indexer/block_processor.rs:203-345 | The whole new state of the processor, or none of it for a slot below the current one; the index stays sound after each command |
| Processor.BlockProcessor.SaveCurrentTipsNow | src/indexer/block_processor.rs:398-413 | Chain tip and wallet tips become the newest buffered block |
| Processor.BlockProcessor.StoreTips | src/indexer/block_processor.rs:376-381 | Stores the chain tip and one tip per wallet |
| Processor.BlockProcessor.RestoreSpentUtxos | src/indexer/block_processor.rs:422-438 | Re-inserts, credits and re-indexes each spent UTxO |
| Processor.BlockProcessor.ForgetSpends | src/indexer/block_processor.rs:440-443 | Removes exactly the recorded spends |
| Processor.BlockProcessor.DeleteSlotEvents | src/indexer/block_processor.rs:445-457 | The event scan, up to the first gap or the limit |
| Processor.BlockProcessor.DeleteCreatedUtxos | src/indexer/block_processor.rs:459-478 | Debits, unindexes and deletes each created UTxO that is live |
| Processor.BlockProcessor.RollbackBlock | src/indexer/block_processor.rs:416-481 | The five phases of an undo, each command keeping the index sound |
| Processor.BlockProcessor.UnwindBuffer | src/indexer/block_processor.rs:362-371 | Pops and undoes buffered blocks above the target and counts them |
| Processor.BlockProcessor.RollbackTo | src/indexer/block_processor.rs:347-394 | The whole new state of a rollback, both branches of the gate, and the reported count; which blocks it then accepts is `Forks.RollbackReopens` |
| Commands.Sync | src/indexer/storage_manager.rs:541-552 | Over any sequence of messages the processor is the state machine; on admissible runs every state after every single storage command has a sound address index, and every read that interleaves with these commands is honest |
| Commands.StartEmpty | src/indexer/block_processor.rs:161-182 | A processor on a store opened for the first time is in the state every run starts from |
| Commands.ReachableIsReady | src/indexer/block_processor.rs:203-394 | In every reachable state the next step meets what the per-command soundness of its methods needs |
| Commands.UnwindIsSafe | src/indexer/block_processor.rs:362-371 | Each undo record popped from the buffer can be restored when its turn comes |
| Commands.ReplaySound | src/indexer/mod.rs:472-513 | Between operations each index entry names a live UTxO of that address |
| Commands.InterleavedReadIsHonest | src/api/query.rs:98-208 | A whole read whose lookups happen at any later and later moments: each entry returned was live while it ran and belongs to an address asked for, and no UTxO is missed that was indexed when asked and lives on |
| Commands.LookupIsHonest | src/api/query.rs:105-208 | What is found later under a key belongs to the address the key was listed for |
| Storage.DeleteKeepsSound | src/indexer/storage_manager.rs:633-642 | Deleting a UTxO whose index entry is gone keeps the index sound |
| Storage.InsertKeepsSound | src/indexer/storage_manager.rs:622-632 | Inserting a fresh UTxO before it is indexed does too |
| Storage.NetworkStorage.constructor | src/indexer/mod.rs:269-310 | A store opened for the first time is empty |
| Storage.NetworkStorage.InsertUtxo | src/indexer/storage_manager.rs:622-632 | Sets one UTxO and nothing else |
| Storage.NetworkStorage.DeleteUtxo | src/indexer/storage_manager.rs:633-642 | Removes one UTxO and nothing else |
| Storage.NetworkStorage.GetUtxo | src/indexer/storage_manager.rs:601-612 | Reads one UTxO |
| Storage.NetworkStorage.ReadBalance | src/indexer/storage_manager.rs:643-652 | A missing balance reads as 0 |
| Storage.NetworkStorage.UpdateBalance | src/indexer/storage_manager.rs:653-662 | Overwrites one balance; a stored zero reads like a missing one |
| Storage.NetworkStorage.AddUtxoToAddressIndex | src/indexer/mod.rs:472-483 | Adds one (address, key) entry |
| Storage.NetworkStorage.RemoveUtxoFromAddressIndex | src/indexer/mod.rs:485-496 | Removes one (address, key) entry |
| Storage.NetworkStorage.InsertSpentUtxo | src/indexer/storage_manager.rs:735-745 | Records one spend |
| Storage.NetworkStorage.DeleteSpentUtxo | src/indexer/storage_manager.rs:746-755 | Forgets one spend |
| Storage.NetworkStorage.GetBlockEvent | src/indexer/storage_manager.rs:777-788 | Reads one event |
| Storage.NetworkStorage.InsertBlockEvent | src/indexer/storage_manager.rs:756-766 | Writes one event |
| Storage.NetworkStorage.DeleteBlockEvent | src/indexer/storage_manager.rs:767-776 | Deletes one event |
| Storage.NetworkStorage.GetBlockMetadata | src/indexer/mod.rs:450-463 | Reads one block's metadata |
| Storage.NetworkStorage.StoreBlockMetadata | src/indexer/mod.rs:434-448 | Stores one block's metadata |
| Storage.NetworkStorage.DeleteBlockMetadata | src/indexer/mod.rs:465-470 | Deletes one block's metadata |
| Storage.NetworkStorage.StoreChainTip | src/indexer/mod.rs:334-348 | Overwrites the chain tip and no wallet tip |
| Storage.NetworkStorage.StoreWalletTip | src/indexer/mod.rs:367-382 | Overwrites one wallet tip |
| Storage.WalletTipKeysDiffer | src/indexer/mod.rs:367-387 | Each wallet's tip has its own key, and none is the key of the chain tip |
| Storage.NetworkStorage.GetChainTip | src/indexer/mod.rs:350-365 | Reads the chain tip |
| Storage.NetworkStorage.GetMinWalletTip | src/indexer/mod.rs:403-431 | Chain tip without wallets; none as soon as a wallet has no tip; otherwise a wallet tip of the smallest slot |
| Filtering.FilteringCommutesWithReplay | src/indexer/block_processor.rs:540-612 | For any chain of new transactions and any filter, the indexed UTxO set is the full ledger UTxO set restricted to tracked addresses |
| Filtering.TrackedBalanceIsLedgerBalance | src/indexer/block_processor.rs:540-612 | A tracked address has the balance the full ledger gives it |
| Queries.GetUtxosForAddress | src/indexer/mod.rs:498-513 | The prefix scan returns each key indexed under exactly this address, once |
| Queries.ReadUtxos | src/api/query.rs:98-208 | At rest and for distinct addresses: each live UTxO of the requested addresses exactly once, with its data, and nothing else |
| Queries.ReadSlot | src/api/query.rs:562-623 | The events of one slot up to its end or the limit |
| Queries.ReadUtxoEvents | src/api/query.rs:560-624 | The unfiltered range read returns every logged event in (slot, index) order up to the limit |
| Queries.ReplayLog | src/indexer/block_processor.rs:248-282 | In a replay each processed slot holds exactly its block's events at 0 to n-1: surviving creations, then spends |
| Queries.RangeReadsChain | src/api/query.rs:560-624 | Reading a slot range of a replay returns the events of every block in range, in chain order, up to the 100000 that a read scans of each |
| Walker.WalkBackNBlocks | src/indexer/block_walker.rs:16-106 | The loop follows n previous-hash links: error for n = 0 or an unindexed hash, origin for a block without parent |
| Walker.WalkFindsAncestor | src/indexer/block_walker.rs:48-105 | On an indexed chain that is the n-th ancestor, the origin, or an error, exactly as the chain says |
| Walker.ReachableWalk | src/indexer/block_walker.rs:48-105 | The same from the last processed block of every reachable state |
| Cbor.HeadRoundTrip | src/wallet/plutus/datum.rs:104-122 | Heads in shortest form of all widths read back, whatever follows |
| Cbor.HeadIsShortest | src/wallet/plutus/datum.rs:104-122 | The head written for a number is no longer than any head that reads as it |
| Cbor.MostSignificantFirst | src/storage/immutable.rs:354-395 | Numbers are read with their most significant byte first |
| Cbor.StandardHeads | src/wallet/plutus/datum.rs:104-122 | Numbers and heads of each width are spelled as in RFC 8949, appendix A |
| Cbor.StandardItems | src/wallet/multisig.rs:308-393 | Concrete items of definite length, spelled as RFC 8949, appendix A, spells such items, are skipped whole |
| Cbor.StandardOpenItems | src/wallet/multisig.rs:308-393 | So are concrete items of indefinite length |
| Cbor.CutItems | src/wallet/multisig.rs:308-393 | A lone break, a reserved head, an array or string cut short and an array that is not closed are not skipped |
| Cbor.TextInBytes | src/wallet/multisig.rs:308-393 | Nor is a byte string of indefinite length with a text chunk |
| Cbor.SkipIsLocal | src/wallet/multisig.rs:314-328 | Skipping an item does not look past it |
| Cbor.SkipPrefix | src/wallet/multisig.rs:314-320 | What skipping delimits is itself one complete item |
| Cbor.ContainerItem | src/wallet/multisig.rs:345-390 | A head followed by as many items as it announces is one item |
| Cbor.Decoder.SkipItem | src/wallet/multisig.rs:314-327 | The iterative skip (a stack of the containers still open) consumes exactly the recursively defined item, of definite or indefinite length, or fails with it |
| Cbor.Decoder.SkipNext | src/wallet/multisig.rs:314-327 | One turn of it: close the innermost container or skip the next head, leaving what the recursive definition leaves |
| Cbor.Decoder.SkipString | src/wallet/multisig.rs:314-327 | Skips the chunks of an indefinite-length string up to its break |
| Cbor.Decoder.Head | src/wallet/multisig.rs:312 | Reads one head and advances past it |
| Cbor.Decoder.Container | src/wallet/multisig.rs:332 | Reads an array or map head: a length, none for an indefinite one, or an error |
| Cbor.Decoder.ByteString | src/wallet/plutus/datum.rs:210-224 | Reads one byte string and advances past it |
| Cbor.Decoder.Bool | src/wallet/multisig.rs:322 | Reads one boolean and advances past it |
| Signing.EmbedMeaning | src/wallet/multisig.rs:308-393 | Embedding keeps body, validity flag, auxiliary bytes and every non-zero witness field it reads byte for byte and appends exactly one entry to the vkey entries it reads; the result is one complete item exactly when auxiliary data was there |
| Signing.EmbedAllMeaning | src/wallet/multisig.rs:308-393 | Any number of embeddings keeps all of that; the vkey entries read afterwards are those read before and then, in order, arrays of two byte strings that read as exactly the keys and signatures embedded |
| Signing.EmbedAllKeepsExactWhen | src/wallet/multisig.rs:308-393 | Of all that is really in an envelope, any number of embeddings keeps everything and only adds the signatures if and only if the witness map has a length or holds nothing, and so has the vkey array |
| Signing.EmbedAllSucceedsExactWhen | src/wallet/multisig.rs:308-393 | While results fit in memory, any number of signatures can be embedded if and only if parts, witness fields and vkey array of the first envelope parse |
| Signing.SeenIsHeldExactWhen | src/wallet/multisig.rs:330-361 | What the source takes out of a witness set is all that is there exactly under that condition |
| Signing.ExtractUnchangedWhen | src/wallet/multisig.rs:214-232 | After one embedding the extracted body is the body; it equals the body extracted before if and only if the envelope began with 0x84 |
| Signing.ExtractAllUnchangedWhen | src/wallet/multisig.rs:214-232 | The same after any number of embeddings |
| SigningExamples.LongHeadChangesBody | src/wallet/multisig.rs:219-231 | The envelope headed 98 04 can be signed, and its extracted body changes from its whole bytes to the body |
| SigningExamples.ThreeElementsStayThree | src/wallet/multisig.rs:378-392 | The three-element envelope can be embedded into, leaving an incomplete item, and signed into a complete one |
| SigningExamples.OpenVkeysAreDropped | src/wallet/multisig.rs:352-361 | A concrete envelope whose vkey array has no length: embedding a signature drops the one that was there |
| SigningExamples.OpenFieldsAreDropped | src/wallet/multisig.rs:332-339 | A concrete envelope whose witness map has no length: embedding a signature drops its other field |
| SigningExamples.EmbeddedBytes | src/wallet/multisig.rs:308-393 | The envelope 84 a0 a0 f5 f6 with one signature, byte for byte |
| Signing.ExtractFromEnvelope | src/wallet/multisig.rs:219-228 | From a 0x84 envelope exactly the body item is extracted |
| Signing.SignBuiltMeaning | src/wallet/tx_builder/builder.rs:397-549 | Signing keeps body, flag and all other witness fields it reads, yields a complete transaction, and the entries read back from field 0 are exactly the pairs of each key's verification key and its signature of the body's hash, in order |
| Signing.SignBuiltKeepsExactWhen | src/wallet/tx_builder/builder.rs:473-498 | It keeps all other witness fields that are there if and only if their map has a length, or holds none |
| SigningOps.ReadTxParts | src/wallet/multisig.rs:311-328 | The decoder walk finds body, witness set, flag and rest of the envelope |
| SigningOps.ReadWitnessFields | src/wallet/multisig.rs:330-339 | The map loop collects each witness field's raw bytes, none of a map without a length |
| SigningOps.CopyElements | src/wallet/multisig.rs:352-361 | Counts and copies the existing vkey entries unchanged, none of an array without a length |
| SigningOps.EncodeWitness | src/wallet/multisig.rs:341-376 | Writes field 0 and then the others in key order |
| SigningOps.EmbedVkeyWitness | src/wallet/multisig.rs:308-393 | The whole operation is `Signing.Embed`, and failure exactly when a part does not parse; what the result reads as is `Signing.EmbedMeaning`, `Signing.EmbedAllMeaning` and `Witness.PairReadsBack` |
| SigningOps.AppendVkey | src/wallet/multisig.rs:341-376 | The new witness set: the vkey entries read, one more, and the other fields unchanged |
| SigningOps.ExtractTxBody | src/wallet/multisig.rs:214-232 | The whole operation, the pass-through of a bare body and the error case included |
| SigningOps.BuildAndSign | src/wallet/tx_builder/builder.rs:397-549 | The whole operation is `Signing.SignBuilt` for envelopes of three or four elements, an error otherwise; what the result reads as is `Signing.SignBuiltMeaning` |
| Witness.WriteWitnessRoundTrip | src/wallet/multisig.rs:330-376 | A written witness set is one item and reads back as the same fields |
| Witness.PairReadsBack | src/wallet/multisig.rs:365-367 | An appended entry reads back as an array of the verification key and the signature, in this order |
| Witness.WitnessKeysAscend | src/wallet/multisig.rs:345-376 | The fields of a written witness set stand in ascending order of their keys |
| Witness.WriteTxRoundTrip | src/wallet/multisig.rs:378-392 | A written envelope reads back as the same parts |
| Datum.FromCborInvertsToCbor | src/wallet/plutus/datum.rs:100-248 | Decoding an encoded datum returns it with its members sorted by hash, for any member count |
| Datum.ToCborIgnoresOrder | src/wallet/plutus/datum.rs:100-165 | With distinct hashes the encoding is the same for every order of the members |
| Datum.SortSorts | src/wallet/plutus/datum.rs:124-126 | The sort is ordered by hash and a permutation |
| Datum.SortIsStable | src/wallet/plutus/datum.rs:124-126 | Members with the same hash keep the order they are listed in |
| Datum.FirstDifferenceDecides | src/wallet/plutus/datum.rs:124-126 | The order of hashes is decided by the first byte that differs, or else by length |
| WireFormats.DatumBytes | src/wallet/plutus/datum.rs:100-165 | The datum of two members listed against their order, byte for byte |
| Datum.WrappedKeyLayout | src/wallet/plutus/datum.rs:134-147 | The wrapped hash is the four bytes 82 00 58 1c and the hash, which is what the decoder's slice 4..32 undoes |
| DatumOps.EncodeDatum | src/wallet/plutus/datum.rs:100-165 | The encoder loop writes the sorted datum |
| DatumOps.DecodeMember | src/wallet/plutus/datum.rs:201-230 | Reads one member pair and advances past it, or fails |
| WireFormats.PairPrefixIgnored | src/wallet/plutus/datum.rs:199-230 | Of the first string of a pair only bytes 4 to 31 count, whatever is before or behind them; a shorter one, or a key that is not 32 bytes long, is an error |
| WireFormats.OuterErrors | src/wallet/plutus/datum.rs:174-188 | The errors for an outer or inner array that is missing or of another length |
| WireFormats.InnerErrors | src/wallet/plutus/datum.rs:190-197 | The errors for a missing number of signers or list of members |
| WireFormats.MemberErrors | src/wallet/plutus/datum.rs:199-240 | The errors for a member that is no pair and for a missing round; bytes behind the round are ignored |
| WireFormats.NumberErrors | src/wallet/plutus/datum.rs:190-240 | The errors for a number of signers or a round that does not fit in 32 bits |
| DatumOps.DecodeDatum | src/wallet/plutus/datum.rs:168-248 | The decoder returns the datum, or the error of the first part that fails |
| NativeScript.EncodeNativeScript | src/wallet/multisig.rs:113-139 | The encoder loop writes the script of this threshold and these keys in order |
| NativeScript.ScriptReadsBack | src/wallet/multisig.rs:108-139 | An encoded script reads back by the script grammar as its threshold and key hashes in order |
| NativeScript.EncodingIsInjective | src/wallet/multisig.rs:108-147 | Scripts that differ in threshold, keys or key order have different encodings |
| WireFormats.ScriptBytes | src/wallet/multisig.rs:113-140 | A one-of-two script, byte for byte |
| Bech32Checksum.Polymod | src/wallet/portal.rs:369-380 | The loop is the fold whose result `Bech32Code.RunIsRemainder` shows to be the remainder modulo the generator polynomial of BIP-173 |
| Bech32Checksum.RunLinear | src/wallet/portal.rs:369-380 | The checksum is linear over GF(2) in start value and input |
| Bech32Checksum.ChecksumChecks | src/wallet/portal.rs:395-402 | For every input, polymod over the values followed by the six checksum symbols is 1 |
| Bech32Code.GeneratorsAre | src/wallet/portal.rs:370 | Each constant, as six elements of GF(32), is the generator polynomial of BIP-173 times the next power of alpha |
| Bech32Code.StepReduces | src/wallet/portal.rs:371-379 | One turn of the loop multiplies by x, adds the next value and subtracts the leading coefficient times the generator polynomial |
| Bech32Code.RunIsRemainder | src/wallet/portal.rs:369-380 | For any values the loop computes the remainder of their polynomial over GF(32) modulo that generator polynomial |
| Bech32.ConvertBits | src/wallet/portal.rs:381-394 | The regrouping loop, whose u32 accumulator is never masked and sheds high bits, yields exactly the bits in groups of five with zero padding |
| Bech32.ShiftIn | src/wallet/portal.rs:385-386 | Bits that fall off the top of the accumulator never matter |
| Bech32.FromSymbolsInverts | src/wallet/portal.rs:381-394 | Regrouping the symbols into bytes returns the input, with fewer than five padding bits, all zero |
| Bech32.Bech32Encode | src/wallet/portal.rs:367-408 | Prefix, separator, data symbols and checksum in the character set; the concrete strings of BIP-173 are `Bech32Examples.EncodesEmpty` and `Bech32Examples.EncodesLetters` |
| Bech32.DecodeInvertsEncode | src/wallet/portal.rs:367-408 | Every output is a valid Bech32 string that a checking reader takes back to prefix and bytes |
| Bech32Code.EncodedIsCodeword | src/wallet/portal.rs:367-408 | Expanded prefix, data symbols and checksum of every output are a multiple of the generator polynomial plus one: a code word of BIP-173 |
| Bech32Examples.EncodesEmpty | src/wallet/portal.rs:367-408 | The prefix a without data becomes a12uel5l |
| Bech32Examples.EncodesLetters | src/wallet/portal.rs:367-408 | The valid string of BIP-173 that uses every character of the character set |
| Immutable.ReadIsExact | src/storage/immutable.rs:75-147 | For every laid-out chunk and slot: the block of a filled slot, whether its size comes from the next entry or the file size, and "slot not found" exactly on an empty or absent slot |
| Immutable.ReadFindsSlot | src/storage/immutable.rs:209-213 | The same for absolute slots over the chunks of a database |
| Immutable.LoadedOffset | src/storage/immutable.rs:236-265 | Offset i of the loaded primary index is where the entries of the first i slots end |
| Immutable.SizeOfFilled | src/storage/immutable.rs:105-122 | The size found for a filled slot is its block's |
| Immutable.ParseWritten | src/storage/immutable.rs:354-395 | A 56-byte entry parses back to the block's offset, checksum and header hash |
| Immutable.Load | src/storage/immutable.rs:236-265 | The load loop reads version and offsets, or reports a missing or short file |
| Immutable.Parse | src/storage/immutable.rs:354-395 | The moving cursor reads each field at its place |
| Immutable.ReadBlock | src/storage/immutable.rs:75-147 | The whole operation with all its error cases, wrap-around of the size included |
| ChunkDamage.EntrySpelled | src/storage/immutable.rs:354-395 | A concrete secondary entry: each field at its place, most significant byte first |
| ChunkDamage.VersionLoads | src/storage/immutable.rs:235-265 | The version of a written primary index is read back |
| ChunkDamage.LostFiles | src/storage/immutable.rs:75-147 | For every filled slot: the error when one of the three files is missing, and a checksum mismatch exactly when the block has another checksum than is recorded |
| ChunkDamage.SecondaryCut | src/storage/immutable.rs:75-147 | A secondary index that ends before the entry of a filled slot does is out of bounds for it |
| ChunkDamage.ChunkCut | src/storage/immutable.rs:75-147 | A chunk file that ends within a block with another one behind it is a short read |
| ChunkDamage.PrimaryCut | src/storage/immutable.rs:235-265 | A primary index cut short: too small, a panic without any offset, or no such slot |
| ChunkDamage.AnyOffsets | src/storage/immutable.rs:75-147 | Two entries with any offsets and any chunk file: the size is the distance to the next offset or to the end of the file in 32 bits, negative or too large as it may be, a piece of no bytes is always there, and one beyond the end is a short read |
| Rewards.RunConserves | src/rewards_calculation.rs:135-175 | Over any number of epochs nothing overflows or underflows while the lovelace fits in u64, treasury plus reserves is the initial total plus all fees, and the treasury never falls |
| Rewards.UpdateConserves | src/rewards_calculation.rs:135-175 | One update succeeds exactly when its two sums fit; the expansion is the floor of reserves times rho times performance capped at one, the treasury gains the floor of tau times expansion plus fees, lovelace is conserved, and the rest goes to the pools |
| Rewards.ExpansionFloors | src/rewards_calculation.rs:77-95 | The expansion is the floor of reserves times rho times performance, and of reserves times rho for a performance above one |
| Rewards.CutFloors | src/rewards_calculation.rs:109-118 | The treasury cut is the floor of pot times tau |
| Rewards.ExpansionWithinReserves | src/rewards_calculation.rs:77-95 | The expansion never exceeds the reserves |
| Rewards.CutWithinPot | src/rewards_calculation.rs:109-118 | The treasury cut never exceeds the pot |
| Rewards.PoolFactorBounds | src/rewards_calculation.rs:210-280 | No factor exceeds the pool's stake share, and none is negative when the pledge is met |
| Rewards.OptimalRewardsFitPot | src/rewards_calculation.rs:288-297 | The floored optimal rewards of any list of pools meeting their pledges sum to at most the pot |
| Rewards.RewardFitsPotExactWhen | src/rewards_calculation.rs:267-297 | For any pool, its reward stays within the pot if and only if the shortfall of its pledge costs less than one lovelace |
| Rewards.MissedPledgeWraps | src/rewards_calculation.rs:267-297 | A concrete pool below its pledge whose reward wraps around |
| Rewards.RewardGrowsWithStake | src/rewards_calculation.rs:210-297 | With pledge, pot and active stake fixed the reward never falls as stake grows, and is constant once saturated |
| Rewards.FactorMonotone | src/rewards_calculation.rs:267-279 | The factor does not fall as effective stake grows above the pledge |
| Rewards.GrossIsQuotient | src/rewards_calculation.rs:304-335 | The gross reward is the whole part of optimal times blocks made over blocks expected, in 64 bits |
| Rewards.OptimalIs | src/rewards_calculation.rs:210-297 | What a pool is paid is what the design's formula in its capped shares of stake and pledge is due, rounded toward zero, a negative amount taken from 2^64 |
| Rewards.SaturatedIsDue | src/rewards_calculation.rs:267-297 | A pool with a k-th of the stake or more is due a k-th of the pot times the influence, whatever its pledge |
| Rewards.ExpectedIs | src/rewards_calculation.rs:304-320 | A pool is expected to make its share of the blocks of the epoch, rounded down, and at least one |
| Rewards.ReportIs | src/rewards_calculation.rs:340-377 | The other reported numbers, in whole numbers of stake, pledge and blocks: shares capped by comparing amount times k with the active stake, performance, and gross reward |
| Rewards.GrossStaysWithinExactWhen | src/rewards_calculation.rs:326-377 | Exactly when the gross reward stays within the optimal one, within the whole pot, and when it reaches the optimal one, the loss in the cast to 64 bits included |
| Rewards.GrossExceedsPot | src/rewards_calculation.rs:304-377 | A concrete pool whose gross reward is nineteen times its optimal one and exceeds the pot |
| Rewards.ReservesLoseExpansionExactWhen | src/rewards_calculation.rs:130-172 | The reserves lose the whole expansion, as the comment has it, exactly when the treasury rate is one or there is neither expansion nor fee |
| Rewards.ReservesLoseLess | src/rewards_calculation.rs:130-172 | A concrete epoch in which they lose half of it |
| Coins.ChoosesShortestPrefix | src/wallet/unified_tx/builder.rs:626-678 | The greedy rule succeeds exactly when all UTxOs of its order cover the requirement, then takes the shortest non-empty sufficient prefix; otherwise it names what is short |
| Coins.ChooseConserves | src/wallet/transaction.rs:172-183 | Inputs are requirement plus change in lovelace and in every asset, exactly as long as the totals fit, and no change entry is empty |
| Coins.NeverPicksScriptInput | src/wallet/unified_tx/builder.rs:606-615 | Every selected coin was available and is no script input |
| Coins.WantedKindFirst | src/wallet/unified_tx/builder.rs:603-624 | A token-bearing coin when no asset is required (a pure-ADA coin when one is) is taken only if the other kind falls short or is absent |
| Coins.SelectCoinsFailsWhen | src/wallet/unified_tx/builder.rs:591-691 | The unified selector fails exactly when no UTxOs were given or the free ones fall short, with the error that says which, lovelace before assets |
| Coins.SelectUtxosFailsWhen | src/wallet/transaction.rs:118-184 | The plain selector fails exactly when there are no UTxOs or they fall short, with the error that says which |
| Selecting.OrderIsListed | src/wallet/unified_tx/builder.rs:603-624 | The unified selector looks at the free coins of the wanted kind as they are listed and then at those of the other kind as they are listed, by positions in the list; free is what no script input of the same transaction and index is |
| Selecting.PlainTotalsWrap | src/wallet/transaction.rs:118-160 | Two coins of half the range each add up to nothing in the plain selector |
| Selecting.UnifiedTotalsSaturate | src/wallet/unified_tx/builder.rs:626-691 | In the unified selector they cover the top of the range |
| Selecting.TotalsAdd | src/wallet/unified_tx/builder.rs:629-642 | Lovelace, asset lists and amounts of two lists of coins together are the sums of both |
| Selecting.OutputTotalsAdd | src/wallet/transaction.rs:95-109 | So are lovelace and assets of two lists of outputs |
| Selecting.TotalsOfOne | src/wallet/unified_tx/builder.rs:629-642 | And of one coin they are its lovelace, its assets and its amount of each |
| Selecting.OutputTotalsOfOne | src/wallet/transaction.rs:95-109 | The same of one output |
| Selecting.ShownIs | src/wallet/unified_tx/builder.rs:629-642 | A total that does not fit stops at the top of u64 in the unified builder and wraps around in the plain one |
| Coins.PlainBuilderBalances | src/wallet/transaction.rs:95-115 | The plain builder's selection pays outputs, fee and change exactly, in lovelace and in every asset |
| Coins.KeyParsesBack | src/wallet/transaction.rs:249-262 | Splitting an asset's key and decoding both halves gives back policy and name, so turning change keys back into assets loses nothing |
| Hexadecimal.HexReadsBack | src/wallet/transaction.rs:102-105 | Decoding an encoded byte string returns it |
| WireFormats.HexSpelled | src/wallet/transaction.rs:102-105 | Hex digits are lower case with the high one first; decoding takes both cases and refuses odd lengths and other characters |
| TxBodyOps.BytesBalance | src/wallet/transaction.rs:95-318 | The bytes built, read back, spend exactly the selected inputs, and those hold the lovelace of all outputs plus the fee; an asset balances too if and only if no output lists some of it and then lists it again |
| TxBodyOps.KeepsAmountExactWhen | src/wallet/transaction.rs:287-302 | The encoder keeps the whole amount listed of an asset exactly when every listing before a later one is of nothing |
| TxBodyOps.ListedTwice | src/wallet/transaction.rs:298-302 | A concrete list of five and three of an asset that asks for eight and is encoded as three |
| TxBodyOps.BuildTransaction | src/wallet/transaction.rs:95-115 | The plain builder as a whole: the bytes of exactly that body, or the error of the first step that fails |
| TxBodyOps.EncodeBody | src/wallet/transaction.rs:187-284 | Inputs, outputs, change, fee and time to live, with both error cases |
| TxBodyOps.EncodeInputs | src/wallet/transaction.rs:206-216 | Each input in order, an error at the first hash that is not 32 bytes long |
| TxBodyOps.EncodeOutputs | src/wallet/transaction.rs:228-241 | Each output in order, an error at the first policy id that is not 28 bytes long |
| TxBodyOps.LengthsChecked | src/wallet/transaction.rs:206-302 | The checks of those two errors: 32 bytes for every input hash, 28 for every policy id of outputs and change |
| TxBodyOps.EncodeOutput | src/wallet/transaction.rs:229-241 | One output: address and coin, with the multi-asset map only when there are assets |
| TxBodyOps.EncodeMultiasset | src/wallet/transaction.rs:287-318 | Nested sorted maps of exactly the last amount listed for each asset |
| TxBodyOps.ListAssets | src/wallet/transaction.rs:248-262 | The change as a list of its assets |
| TxBodyOps.UserOutputsWorth | src/wallet/transaction.rs:287-318 | The encoded outputs are worth what was listed, exactly when no listing of something is followed by another of the same asset |
| TxBody.BodyReadsBack | src/wallet/transaction.rs:187-284 | A written body reads back as its inputs and outputs in order with every amount, fee and time to live |
| WireFormats.BodyLayout | src/wallet/transaction.rs:187-284 | The fields of a body under their keys, each list under its length |
| WireFormats.BodyBytes | src/wallet/transaction.rs:187-318 | A body of one input, a coin, tokens under two policies listed against their order, fee and time to live, byte for byte |
| TxBody.ReadMultiassetBack | src/wallet/transaction.rs:287-318 | A written multi-asset map reads back as exactly the assets written |
| Coins.AssetKeyInjective | src/wallet/unified_tx/builder.rs:633-637 | Distinct assets have distinct keys |
| Coins.EnoughIsCovers | src/wallet/unified_tx/builder.rs:629-657 | Saturated totals never misjudge a comparison |
| Coins.TakeUntilEnough | src/wallet/transaction.rs:127-154 | The greedy loop stops at that prefix with its exact running totals |
| Coins.AddAssets | src/wallet/unified_tx/builder.rs:631-642 | The running totals per asset after more assets |
| Coins.Conclude | src/wallet/transaction.rs:156-183 | The final checks and the change of a selection |
| Coins.SelectUtxosGreedily | src/wallet/transaction.rs:118-184 | The plain selector as a whole |
| Coins.SelectCoinsGreedily | src/wallet/unified_tx/builder.rs:591-691 | The unified selector as a whole |
| Coins.SelectForOutputs | src/wallet/transaction.rs:95-109 | Fee and outputs summed, then selected for |
| Fees.BuiltPaysForItself | src/wallet/unified_tx/builder.rs:819-856 | A build that succeeds is the transaction of its own selection and fee, and by the loop's exit test the fee covers its own size |
| Pricing.FeeIsLinear | src/protocol_params.rs:133-137 | The fee is size times the coefficient plus the constant, or the top of u64 if that is larger; a fixed fee is what was fixed |
| Pricing.MinUtxoIsLeast | src/protocol_params.rs:151-158 | The minimum of an output is the least amount that is at least one ADA, the cost of sixty bytes and the configured minimum |
| Pricing.MinChangePerToken | src/wallet/unified_tx/builder.rs:978-990 | Change with one token needs 1.65 ADA and 0.15 for each further token; change without tokens the minimum of an output |
| Pricing.ChangeIsDecided | src/wallet/unified_tx/builder.rs:945-1026 | Change becomes no output exactly when it carries no tokens and is below the minimum; otherwise one with all its tokens that holds the larger of change and minimum |
| Pricing.SizePerOutput | src/wallet/unified_tx/builder.rs:766-784 | The first size estimate is 540 for nothing to send, and each output adds 60, 160 or 360 bytes |
| Pricing.SizePerTenAda | src/wallet/unified_tx/builder.rs:766-784 | And 180 more for every ten ADA, up to ten inputs |
| Pricing.SentAdds | src/wallet/unified_tx/builder.rs:713-733 | Lovelace and tokens sent by two lists of outputs together are the sums of both |
| Pricing.MintedAdds | src/wallet/unified_tx/builder.rs:735-747 | So are the tokens made by two lists of mints |
| Pricing.SentOfOne | src/wallet/unified_tx/builder.rs:713-747 | One output asks for its lovelace and tokens; a mint makes its amount, a burn nothing |
| Pricing.RequiredIsUnminted | src/wallet/unified_tx/builder.rs:713-763 | Of each token the amount sent and not minted has to come from coins, and no entry asks for nothing |
| Pricing.RoundEnds | src/wallet/unified_tx/builder.rs:786-880 | How a round ends: another one for the higher fee, a transaction, or the reason why not |
| Pricing.GivesUpExactWhen | src/wallet/unified_tx/builder.rs:786-880 | The build gives up for want of convergence if and only if each of three rounds asks for another one |
| Fees.RetryKeepsInputsExactWhen | src/wallet/unified_tx/builder.rs:858-869 | Each retry raises the fee; it re-selects exactly the same inputs, takes the raise out of the change and leaves the minimum UTxO there if and only if deficit plus minimum UTxO does not wrap around |
| Fees.WrappedRetryRunsDry | src/wallet/unified_tx/builder.rs:866 | A concrete request whose retry passes the wrapped test and then runs out of funds |
| Fees.BuildKeepsFirstSelection | src/wallet/unified_tx/builder.rs:786-880 | Over the whole loop: inputs of the first round, change less exactly the total raise, at least the minimum UTxO after any raise |
| Fees.RaiseKeepsInputs | src/wallet/unified_tx/builder.rs:595-691 | Raising a requirement by no more than the change selects the same coins |
| Fees.BuildBalancesExactWhen | src/wallet/unified_tx/builder.rs:786-1026 | Decided by the first selection, however often the fee is raised, script inputs counted: without tokens in its change a build balances if and only if script inputs are worth nothing and that change is nothing or at least the minimum UTxO; with tokens, if and only if script inputs are worth nothing and what the raises leave of it is at least the minimum of its output, or they are worth exactly what is missing |
| Fees.TokenChangeBalancesWhen | src/wallet/unified_tx/builder.rs:786-1026 | With tokens, before the build: the same exactly when the fee is fixed or all transactions have one size; for sizes between bounds, when the first change covers the minimum and the largest raise, and never when change and script inputs miss the minimum and the smallest raise |
| Fees.FeeBetween | src/wallet/unified_tx/builder.rs:819-866 | The fee of a build lies between the costs of a smallest and a largest transaction, or stays at the first estimate |
| Fees.DroppedChange | src/wallet/unified_tx/builder.rs:1017-1026 | A concrete request whose half ADA of change is dropped, so that the result does not balance |
| Fees.ToppedUpChange | src/wallet/unified_tx/builder.rs:978-1003 | A concrete request whose token-bearing change is topped up, so that the result does not balance |
| Fees.UncountedScriptInput | src/wallet/unified_tx/builder.rs:908-917 | A concrete request whose script input of 5 ADA nothing takes up, so that the result does not balance |
| Fees.ScriptInputPaysTopUp | src/wallet/unified_tx/builder.rs:978-1003 | A concrete request whose script input is worth just the top-up, so that the result balances |
| Fees.BalancesExactWhen | src/wallet/unified_tx/builder.rs:902-1026 | For a transaction of any given selection and fee: it balances if and only if script inputs are worth nothing and the change was neither topped up nor dropped, or they are worth exactly the top-up |
| Fees.SignedIsBuiltExactWhen | src/wallet/unified_tx/builder.rs:1143-1251 | The transaction that is signed has the change of the one that was built, and then is that transaction, if and only if the first selection leaves no tokens over |
| Fees.SignedChangeLosesToken | src/wallet/unified_tx/builder.rs:1244-1251 | A concrete request whose change is built with a token and signed without it |
| Fees.SumOutputs | src/wallet/unified_tx/builder.rs:713-733 | Saturating totals of the outputs and the size of their script parts |
| Fees.SumMints | src/wallet/unified_tx/builder.rs:735-747 | Totals of the positive mints |
| Fees.Build | src/wallet/unified_tx/builder.rs:704-880 | The build loop: at most three rounds, with each error case |
| Snapshots.NamesOrderAsSlots | src/snapshot_manager.rs:96-98 | Snapshot names order lexicographically exactly as slots order numerically, for all u64 |
| Snapshots.NameParsesBack | src/snapshot_manager.rs:104-107 | The name of any u64 slot parses back to it |
| Snapshots.OrdersAsSlotExactWhen | src/snapshot_manager.rs:87-107 | An accepted name orders against all written names as its slot does if and only if it is itself a written name, digit for digit |
| Snapshots.LooseNameBreaksOrder | src/snapshot_manager.rs:104-107 | Two accepted names the writer never makes whose order is wrong |
| Snapshots.NewestIsHighestSlot | src/snapshot_manager.rs:113-141 | The latest snapshot by name has the highest slot |
| Snapshots.CleanupKeepsHighestSlots | src/snapshot_manager.rs:148-188 | Cleanup keeps the N highest slots, or all if there are no more |
| Snapshots.RestoreTakesHighestGood | src/indexer/mod.rs:148-266 | Restore opens the good snapshot of the highest slot and tries to delete exactly the ones of higher slots, all bad; it starts empty only if none is good |
| Snapshots.SnapshotDirectory.FindLatest | src/snapshot_manager.rs:113-141 | The collected names, sorted, last |
| Snapshots.SnapshotDirectory.CleanupOldSnapshots | src/snapshot_manager.rs:148-188 | Removes the doomed snapshots whose deletion succeeds and nothing else |
| Snapshots.SnapshotDirectory.OpenTree | src/indexer/mod.rs:148-266 | The fallback loop: which snapshot is opened and which directories remain |

## Left out

- Transaction-history and token indexes, `BlockStats` counters, certificates and withdrawals: append-only or unused by rollback.
- Snapshots taken during block processing, crash and restart, and the trees' own log-structured storage: trees are maps.
- `TakeStorage` and storage that is unavailable or fails: every storage call succeeds.
- The API's rewind to a slot: it moves only tips and leaves the indexed structures as they are.
- Address-filtered event reads, `search_utxos` and the immutable database's tip: the code does not promise an exact answer.
- Address, block and header decoding, key derivation, Ed25519 signing, hashing and CRC-32: parameters, or values already decoded.
- The scan order of the address index is left open.
- The CBOR decoding library, which is not part of this model: skipping is taken to skip one item of RFC 8949, section 3, except that text is not checked to be UTF-8 and an indefinite-length map not to have a value for each key.
- A vkey witness set under tag 258 is an error in the embedder and is modelled as one; no property covers it.
- The datum decoder ignores the wrapper's first four bytes and anything after the datum, so only encoded datums round-trip.
- BIP-173's length limit and mixed-case rule: the encoder does not enforce them; prefixes are ASCII.
- Machine overflow of `Ratio<i64>`: rewards are over exact rationals.
- Member rewards (fixed cost, margin), per-epoch withdrawals and stake totals.
- ReadIsExact: covers blocks below 4 GiB; the code truncates larger sizes to u32 (`ChunkDamage.AnyOffsets`).
- TokenChangeBalancesWhen: is exact for a fixed fee or transactions of one size; for sizes between bounds it leaves open what lies between the smallest and the largest raise.
- SignedIsBuiltExactWhen: is claimed for builds none of whose retries wraps around.
- EmbedAllKeepsExactWhen: is claimed for witness sets that can be read to their end.
- ChoosesShortestPrefix: for the plain selector, whose additions wrap around as in a release build, is claimed when the totals fit in u64.
- BytesBalance: is claimed for totals that fit in u64.
- BuildKeepsFirstSelection: is claimed when no retry the build makes wraps around; `Fees.RetryKeepsInputsExactWhen` shows that to be exact for each retry.
- BuildBalancesExactWhen: is claimed for builds without such a retry whose selected lovelace is below the top of u64.
- NetworkStorage.constructor: says nothing of reopening trees that hold data; which snapshot each tree reopens from is `Snapshots.RestoreTakesHighestGood`, and runs start from an empty store.
- Which of several short assets an error message names.
- Minting scripts, collateral, redeemers and the bytes of the unified builder's transactions: the assembler is a parameter of the fee loop.
- Tokens that script inputs carry, and tokens minted or burned: the balance of the unified builder is claimed in lovelace only.
- The wall clock that decides when to take a snapshot.

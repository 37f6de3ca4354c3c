# Ciphera, verified models

A Dafny model of the parts of the Ciphera node where correctness is hardest to see: the Doomslug
block-approval protocol, the block store with its byte-ordered keys and pagination, the note ledger and
its recovery, the mempool, the block cache, fast sync, the command-line wallet and the batching queue.

Objects that the source updates in place are classes here. Each method is proved equal to a step function
on the object's value, and the laws are proved about those step functions, over every sequence of calls.
Code that only computes is modelled by functions.

`dafny verify dfyconfig.toml` checks the whole project.

| file | what it models |
|---|---|
| `Approval`, `Doomslug`, `DoomslugRestarts`, `ApprovalTrackers`, `DoomslugNode`, `DoomslugSafety` | approvals, the approval timer, restarts, the leader's trackers, one instance, and a network of validators of which some deviate |
| `Keys`, `OrderedDb`, `Lists`, `Pagination`, `BlockStore`, `StoreListing`, `Migration` | key bytes, the ordered database, range listing, pages and cursors, the store and its indexes, and the index rebuild |
| `Smirk`, `Ledger`, `Chain`, `ChainRuns`, `ChainCollision`, `ChainRecovery`, `FastSync` | the note tree as a set with one element per path, block validation, committing, commits that do not reach the tree, start-up after a crash, and snapshots |
| `Mempool`, `MempoolRuns`, `MempoolOrder`, `BlockCache` | pending transactions with leases; blocks received but not yet committed |
| `Notes`, `NoteSelection`, `WalletSteps`, `WalletObject`, `WalletSync`, `WalletBalance`, `WalletNotes` | the wallet: choosing notes, moving notes, the balance, and whom notes belong to |
| `BatchQueue` | callers and a worker sharing a queue, over every interleaving |

## Where the code and a promised property part

Each of these is stated exactly, with a condition that can be checked before the call, and a concrete case
where it is not obvious that one exists.

- A Doomslug instance that is restarted with a remembered target, and whose timer fires before any block
  arrives, endorses the default hash at height 1, at or below what it sent before the restart
  (`RestartSafeExactly`, `RestartHazard`). Over any number of restarts that is the only way
  (`RestartsSafeExactly`). So restarts never endanger safety at any height but 1, and there only by such a
  timeout (`NoConflictingQuorums`, `RestartsConflictAtOne`).
- `can_approved_block_be_produced` waives a threshold that rounds down to zero, the tracker only a next epoch
  without stake; so they differ, exactly when nothing is approved and the total stake is below 2 this
  epoch or equal to 1 in the next (`ReadyRefinesCheck`, `ChecksDiffer`).
- Two transactions of one block may use the same mint hash (`MintTwiceInOneBlock`, `MintTwiceSample`); a chain
  has no repeated mint hash exactly when no single block has one (`MintsUniqueExactly`).
- A valid block whose new note meets an occupied tree path is stored but not applied (`CommitExactly`). Over
  every run of validated blocks the tree is outputs minus inputs if and only if no block did that, and one
  that did breaks the law for good (`LedgerLawExactly`). A note is spent twice only if its first spend was
  in such a block (`SecondSpendNeedsMisfit`), and that happens (`CollisionLetsNoteBeSpentTwice`).
- Such a node may or may not start again (`StartOutcome`). If a later block fitted, it starts and keeps the
  broken state (`RestartKeepsStateExactly`, `LawBreakerStarts`). If the refused block is the last and the
  tree has the root of the block before, start-up fails (`RefusedCommitOutcome`). If it has neither root,
  as after two refused blocks in a row, start-up discards the whole store and begins from genesis
  (`TwoRefusalsDiscardChain`).
- A crash between the two halves of a commit is repaired at start-up exactly as `CrashRecoveryExactly` says:
  always on a chain without refused blocks, unless it is the first block, or the block changes the tree but
  not its root (`AcceptedCrashRecovery`). In the very first commit start-up panics if the block changed the
  root (`FirstCommitPanics`).
- A fast snapshot whose block has any padding commitment never applies (`PaddedBlockNeverApplies`), and one
  for an honest chain applies exactly when no tree path was reused in between, the block has no padding
  and it spends only notes the receiver already has; a reused path makes the receiver panic
  (`HonestSnapshotExactly`, `ReusedPathPanics`). A helper in the repository's own sync tests skips zeros; the code does not,
  and the model follows the code.
- The root a fast snapshot compares is that of the sent elements only if no two of them share a path
  (`SnapshotThenBlockExactly`, `SharedPathHidesElement`).
- As an interface, the mempool lets a leased key that was never submitted make a later `lease_batch` fail its
  `expect`, unless the key is gone from its lease when that is given up (`UnknownKeyBreaksBatches`,
  `FreeKeepsQueueExactly`). A node does not get there: it leases named keys only outside validator mode and
  takes batches only in it.
- A second block at a cached height takes over the entry but not the room of the first, so the cache of a
  follower can come to refuse the next block (`ReplacedBlocksFillCache`). As an interface, inserting and
  confirming the next block is safe exactly when there is room or something to evict (`OwnBlockExactly`).
  A validator receives no blocks, and with room for two its own are never lost (`OwnRunExactly`).

## Model

| member | source | states |
|---|---|---|
| DoomslugTimer.TimerMeaning | ciphera/pkg/doomslug/src/doomslug.rs:456-530 | a timer call advances the timer by as many heights as whole skip delays have passed, at most the iteration limit; it sends the due endorsement once and then exactly one skip per height passed, and remembers the largest target sent |
| DoomslugTimer.DelayBacksOff | ciphera/pkg/doomslug/src/doomslug.rs:130-136 | the delay is the least up to the second height, grows by one step per height from there, is capped by the greatest, and stops growing when heights leave 32 bits |
| DoomslugTimer.FirstCallAfterBlock | ciphera/pkg/doomslug/src/doomslug.rs:608-628 | the first timer call after a block: the block's endorsement if due, and from the delay for the next height on also a skip for two heights above the block |
| DoomslugTimer.FreshInstance | ciphera/pkg/doomslug/src/doomslug.rs:355-387 | a new instance: when it first sends and what, how its timeouts are spaced, and when its first block is endorsed |
| DoomslugTimer.RunTimerKeepsInv | ciphera/pkg/doomslug/src/doomslug.rs:456-538 | endorsement targets stay strictly rising, and bounded by the largest sent target, which never falls |
| DoomslugTimer.EndorsementsClimb | ciphera/pkg/doomslug/src/doomslug.rs:456-538 | over every sequence of blocks and timer calls no two endorsements have the same target, and targets strictly rise |
| DoomslugTimer.RestartSafeExactly | ciphera/pkg/doomslug/src/doomslug.rs:456-530 | a timer call endorses only above the largest sent target, if and only if it is not a due skip on a fresh tip with a remembered target of at least 1 |
| DoomslugTimer.RestartHazard | ciphera/pkg/doomslug/src/doomslug.rs:456-530 | a concrete fresh instance that endorses the default hash at height 1 although it sent up to height 7 |
| DoomslugRestarts.RestartsSafeExactly | ciphera/pkg/doomslug/src/doomslug.rs:355-538 | over any sequence of instances, each started with the largest target of the last, endorsements climb above everything sent before if and only if none times out before it has seen a block after something was sent |
| DoomslugTimer.SkipDelayLongEnoughExactly | ciphera/pkg/doomslug/src/doomslug.rs:130-136 | every skip delay is at least twice the endorsement delay, if and only if the least and the greatest delay are |
| DoomslugTimer.TimerAssertions | ciphera/pkg/doomslug/src/doomslug.rs:459-527 | both assertions inside the timer hold at every iteration, and the clock invariant is kept |
| DoomslugTimer.AssertionsNeverFail | ciphera/pkg/doomslug/src/doomslug.rs:459-527 | with a clock that never goes back and long enough delays, no assertion fails at any call of any run |
| ApprovalTrackers.AddWitnessKeepsInv | ciphera/pkg/doomslug/src/doomslug.rs:175-200 | counting an approval keeps the approved stake equal to the stake of the witnesses |
| ApprovalTrackers.WithdrawNeverUnderflows | ciphera/pkg/doomslug/src/doomslug.rs:205-217 | withdrawing keeps that equality and never takes a counter below zero |
| ApprovalTrackers.TotalIsWeight | ciphera/pkg/doomslug/src/doomslug.rs:140-163 | the stake total over the list equals the stake of all its accounts together |
| ApprovalTrackers.ProcessKeepsInv | ciphera/pkg/doomslug/src/doomslug.rs:274-322 | after an approval its sender counts for exactly its content, if it has stake, and everyone else for what they did; no tracker is empty, and approved stakes equal the witnesses' |
| ApprovalTrackers.ReadinessExactly | ciphera/pkg/doomslug/src/doomslug.rs:175-241 | the answer to an approval: ready if and only if it counts and its tracker is ready, since the first time the tracker was found so, and when that time is forgotten |
| ApprovalTrackers.TrackersConsistent | ciphera/pkg/doomslug/src/doomslug.rs:274-322 | that invariant holds after any sequence of approvals at one height |
| ApprovalTrackers.AtMostOneReady | ciphera/pkg/doomslug/src/doomslug.rs:228-241 | under one stake map two ready trackers are the same tracker |
| ApprovalTrackers.OneReadyPerHeight | ciphera/pkg/doomslug/src/doomslug.rs:228-322 | so at most one tracker is ready after any sequence of approvals with one stake list |
| ApprovalTrackers.ApprovedIsWeight | ciphera/pkg/doomslug/src/doomslug.rs:549-577 | the one-shot sum over the approval vector is the stake of the accounts that approved |
| ApprovalTrackers.ReadyRefinesCheck | ciphera/pkg/doomslug/src/doomslug.rs:549-577 | a ready tracker implies the one-shot check; the exact condition for the converse |
| ApprovalTrackers.ChecksDiffer | ciphera/pkg/doomslug/src/doomslug.rs:549-577 | a concrete tracker that is not ready while the one-shot check passes |
| DoomslugNode.MemoryIsBounded | ciphera/pkg/doomslug/src/doomslug.rs:608-675 | whatever arrives, trackers exist only near the tip, for at most 10,020 heights |
| DoomslugNode.TrackersAreDeliveries | ciphera/pkg/doomslug/src/doomslug.rs:608-675 | at every height the trackers are exactly those of the approvals that arrived in reach of the tip since the height last left the window |
| DoomslugNode.LargestHeightsExactly | ciphera/pkg/doomslug/src/doomslug.rs:651-675 | over every run, one recorded height is the largest target of an approval within reach, the other the largest whose content was ready when its approval landed |
| DoomslugNode.TipIsLastBlock | ciphera/pkg/doomslug/src/doomslug.rs:608-628 | the tip is the last block that came, and the timer restarted then |
| DoomslugNode.Doomslug.constructor | ciphera/pkg/doomslug/src/doomslug.rs:355-387 | a new instance is the initial state |
| DoomslugNode.Doomslug.TimerIteration | ciphera/pkg/doomslug/src/doomslug.rs:459-527 | one iteration does what its specification says to every field, and says whether to go on |
| DoomslugNode.Doomslug.ProcessTimer | ciphera/pkg/doomslug/src/doomslug.rs:456-530 | the loop equals the timer specification; trackers are untouched |
| DoomslugNode.Doomslug.OnBlock | ciphera/pkg/doomslug/src/doomslug.rs:608-628 | the new tip, timer and retained trackers |
| DoomslugNode.Doomslug.OnApproval | ciphera/pkg/doomslug/src/doomslug.rs:631-675 | approvals out of reach change nothing; others reach the trackers of their target height |
| DoomslugSafety.StepKeepsInv | ciphera/pkg/doomslug/src/doomslug.rs:274-322 | every network step, restarts included, keeps: counted approvals of conforming validators were sent by them, their endorsements climb (for height 1 only if nobody is early), and nothing sent is taken back |
| DoomslugSafety.RunInv | ciphera/pkg/doomslug/src/doomslug.rs:274-538 | the network invariant holds at every point of every run |
| DoomslugSafety.QuorumMeaning | ciphera/pkg/doomslug/src/doomslug.rs:228-241 | a ready tracker has more than two thirds of the stake behind it, and its conforming witnesses sent that endorsement |
| DoomslugSafety.QuorumsMeetOutside | ciphera/pkg/doomslug/src/doomslug.rs:228-241 | two quorums share a validator outside any third of the stake |
| DoomslugSafety.NoConflictingQuorums | ciphera/pkg/doomslug/src/doomslug.rs:228-530 | if deviating validators hold at most a third, no two hashes are ever ready for one height, at any leaders and any times and with any restarts; for height 1, if nobody times out early after a restart |
| DoomslugSafety.UnrestartedIsPunctual | ciphera/pkg/doomslug/src/doomslug.rs:355-387 | without restarts nobody is early, so safety then holds for every height |
| DoomslugSafety.RestartsConflictAtOne | ciphera/pkg/doomslug/src/doomslug.rs:355-530 | a concrete run with one restart, nobody deviating, and two ready hashes for height 1 |
| DoomslugSafety.QuorumsHappen | ciphera/pkg/doomslug/src/doomslug.rs:228-241 | a concrete run that reaches a quorum |
| Keys.ZeroByteIsSuccessor | ciphera/pkg/block-store/src/keys.rs:256-260 | a zero byte appended gives the immediate successor in byte order |
| Keys.ToBeOrdered | ciphera/pkg/block-store/src/keys.rs:179-211 | big-endian encoding is injective and keeps order |
| Keys.FromToBe | ciphera/pkg/block-store/src/keys.rs:179-254 | decoding a big-endian number gives it back |
| Keys.ToFromBe | ciphera/pkg/block-store/src/keys.rs:179-254 | encoding what was decoded gives the bytes back |
| Keys.KeyRoundTrip | ciphera/pkg/block-store/src/keys.rs:179-254 | every key decodes from its bytes |
| Keys.DeserializeExactly | ciphera/pkg/block-store/src/keys.rs:213-254 | any bytes decode to a key if and only if they begin with that key's bytes; only an empty input and an unknown kind are errors, and a known kind with too little behind it panics |
| Keys.SerializeInjective | ciphera/pkg/block-store/src/keys.rs:179-211 | different keys have different bytes |
| OrderedDb.WriteGet | ciphera/pkg/block-store/src/lib.rs:110-178 | after a batch each key holds its last written value, or what it held before |
| OrderedDb.WriteValid | ciphera/pkg/block-store/src/lib.rs:110-178 | keys stay sorted without repeats |
| Lists.BoundsAreExact | ciphera/pkg/block-store/src/keys.rs:50-83 | the byte bounds of a range contain a key if and only if it is a height key of the family with its height in the range |
| Lists.ScanIsExact | ciphera/pkg/block-store/src/list.rs:41-73 | the scan between the bounds gives exactly the stored heights in the range, rising |
| Lists.ListIsExact | ciphera/pkg/block-store/src/list.rs:41-73 | listing gives exactly the stored heights in the range, in the asked order, each decodable |
| Pagination.PageIsExact | ciphera/pkg/block-store/src/keys.rs:85-120 | for every cursor, order and limit a page is the first `limit` items after the cursor, or the last `limit` before it, in display order |
| Pagination.ListPaginated | ciphera/pkg/block-store/src/keys.rs:85-120 | the loop returns the page's keys with their values |
| Pagination.Paginator.Next | ciphera/pkg/primitives/src/pagination.rs:279-293 | one item out, and both cursors after it |
| Pagination.Paginator.Collect | ciphera/pkg/primitives/src/pagination.rs:257-267 | the cursors are the positions of the first and the last item that have one |
| Pagination.Request | ciphera/pkg/block-store/src/keys.rs:85-120 | one request returns the page and, through the paginator, the cursor that following uses |
| Pagination.FollowFrom | ciphera/pkg/primitives/src/pagination.rs:235-294 | following the cursor from any place shows the next items, page by page |
| Pagination.FollowVisitsAll | ciphera/pkg/primitives/src/pagination.rs:235-294 | following the `after` cursor with any positive limit shows every block once, in order, and ends |
| BlockStore.Store.SetBlock | ciphera/pkg/block-store/src/lib.rs:110-178 | the one batch that storing a block writes |
| BlockStore.SetLookup | ciphera/pkg/block-store/src/lib.rs:110-178 | what every key holds after a block is stored |
| BlockStore.LookupsAreScans | ciphera/pkg/block-store/src/lib.rs:187-287 | after any run every lookup equals a scan of the stored blocks, last writer first |
| BlockStore.MaxIsHighest | ciphera/pkg/block-store/src/lib.rs:196-204 | the recorded maximum is the highest stored height |
| BlockStore.HighestIsMax | ciphera/pkg/block-store/src/lib.rs:196-204 | that height is stored, and none is above it |
| BlockStore.LastBlockFinds | ciphera/pkg/block-store/src/lib.rs:206-287 | the reference scan finds a block if and only if there is one |
| StoreListing.StoreIsWellKeyed | ciphera/pkg/block-store/src/lib.rs:110-178 | everything a run stores is under a decodable key and readable |
| StoreListing.StoredBlock | ciphera/pkg/block-store/src/lib.rs:110-194 | a height is stored if and only if the run stored a block there, and likewise for non-empty blocks |
| StoreListing.ListingAfterRun | ciphera/pkg/block-store/src/list.rs:131-205 | after any run, listings give exactly the heights of the stored (non-empty) blocks in the range, in order |
| Migration.MigratedStore.MigrateToV1 | ciphera/pkg/block-store/src/migration.rs:31-59 | goes through every stored block in rising height order and writes its index entries |
| Migration.MigratedStore.Migrate | ciphera/pkg/block-store/src/migration.rs:16-29 | ends; current versions are untouched, newer ones refused, version 0 is rebuilt once |
| Migration.MigrationRebuilds | ciphera/pkg/block-store/src/migration.rs:31-59 | on any store, the transaction and non-empty entries become those that storing the blocks in that order would give, where it gives any; nothing else changes |
| Migration.MigratedLookup | ciphera/pkg/block-store/src/migration.rs:16-59 | what every key holds after a whole migration |
| Migration.VersionMeaning | ciphera/pkg/block-store/src/lib.rs:237-249 | a store without a version entry is at version 0, one filled by storing blocks at version 1 |
| Migration.RepeatedMigration | ciphera/pkg/block-store/src/migration.rs:16-59 | migrating again after an interruption gives what one migration gives |
| Smirk.InsertAllExactly | ciphera/pkg/smirk/src/batch/mod.rs:88-111 | inserting into a batch succeeds if and only if all paths are new and different |
| Smirk.InsertBatchExactly | ciphera/pkg/smirk/src/storage/batch.rs:38-105 | for any batch and tree, exactly when it goes in, when it is a collision (the rest panics), and the set it leaves |
| Smirk.RemoveAllExactly | ciphera/pkg/smirk/src/batch/mod.rs:114-136 | the same for removals |
| Smirk.RootWithIsRoot | ciphera/pkg/smirk/src/tree/mod.rs:233-240 | the previewed root is the root of the changed set, when no path is shared |
| Ledger.ValidTxnMeaning | ciphera/pkg/node/src/utxo.rs:14-98 | exactly which transactions are accepted |
| Ledger.ErrorIsTheFirstTrue | ciphera/pkg/node/src/utxo.rs:14-98 | the error of a rejected transaction is true of it, and the first in order of all that are |
| Ledger.AddLeaves | ciphera/pkg/node/src/block.rs:136-219 | a pair of commitments conflicts exactly when one occurs twice |
| Ledger.Validate | ciphera/pkg/node/src/block.rs:136-219 | the loops accept a block if and only if each transaction is valid, no non-zero commitment occurs twice and the root is that of the changed tree; each error is the true one |
| Chain.Node.CommitProposal | ciphera/pkg/node/src/node/proposal.rs:17-99 | store first, then tree; the three possible outcomes and their states |
| Chain.CommitWrites | ciphera/pkg/node/src/node/proposal.rs:50-85 | a block that spends a note not in the tree panics and writes nothing; any other is stored, and only a success changes the tree |
| Chain.CommitExactly | ciphera/pkg/node/src/node/proposal.rs:17-99 | a valid block is committed exactly when its outputs meet no occupied path; otherwise it is stored and the tree stays |
| Chain.HistoryIsOutputs | ciphera/pkg/block-store/src/lib.rs:251-276 | the output history of a stored chain knows exactly its outputs |
| Chain.AcceptedInv | ciphera/pkg/node/src/block.rs:136-219 | the chain invariant after every accepted chain |
| ChainRuns.LedgerLawExactly | ciphera/pkg/node/src/node/proposal.rs:17-99 | over every run of validated blocks, whatever their commits did, the tree is outputs minus inputs if and only if no block's outputs met an occupied path |
| ChainRuns.AcceptedExactly | ciphera/pkg/node/src/node/proposal.rs:17-99 | the accepted chains are exactly the validated runs whose blocks all fit |
| ChainRuns.NotesSpentOnce | ciphera/pkg/node/src/block.rs:136-219 | over every such run each note is created once, spent at most once and only in a later block; the tree is outputs minus inputs, with the last block's root |
| ChainRuns.SecondSpendNeedsMisfit | ciphera/pkg/node/src/utxo.rs:25-78 | in any validated run a spent note was created in a strictly earlier block, and is spent twice only if the first spend did not fit |
| Chain.SpentLater | ciphera/pkg/node/src/utxo.rs:25-78 | whatever a block spends was created in a strictly earlier block |
| ChainRuns.MintOncePerRun | ciphera/pkg/node/src/utxo.rs:80-95 | in any validated run, whatever its commits did, a mint hash of one block is in no later block |
| ChainRuns.MintsUniqueExactly | ciphera/pkg/node/src/utxo.rs:80-95 | no mint hash repeats in a validated run if and only if none repeats inside a block |
| Chain.MintTwiceInOneBlock | ciphera/pkg/node/src/block.rs:136-219 | two fresh transactions with one mint hash make a valid block |
| Chain.MintTwiceSample | ciphera/pkg/node/src/block.rs:136-219 | a concrete such block |
| ChainCollision.CollisionLetsNoteBeSpentTwice | ciphera/pkg/node/src/node/proposal.rs:17-99 | a validated run of three concrete blocks: the second is stored but not applied, the third spends its note again |
| ChainRecovery.LoadByRoots | ciphera/pkg/node/src/node/load.rs:24-121 | start-up on stored blocks and any tree at all |
| ChainRecovery.StartedTreeFits | ciphera/pkg/node/src/node/load.rs:24-121 | for any database and any tree, a node that starts has nothing, or its database with a tree of the last block's root; the only error is a path collision met when the last block is applied again |
| ChainRecovery.LoadPanicsExactly | ciphera/pkg/node/src/node/load.rs:55-91 | for any database and any tree, exactly when start-up panics |
| ChainRecovery.StartOutcome | ciphera/pkg/node/src/node/load.rs:24-121 | after every validated run, whatever its commits did: whether start-up goes on, fails, or begins from genesis; and that it goes on if the last block fitted |
| ChainRecovery.RestartKeepsStateExactly | ciphera/pkg/node/src/node/load.rs:24-121 | a stopped node starts where it was if and only if its tree has the last block's root |
| ChainRecovery.RefusedCommitOutcome | ciphera/pkg/node/src/node/load.rs:24-121 | after a first refused commit the node does not start, unless the block claims the root the tree already has |
| ChainRecovery.CrashOutcome | ciphera/pkg/node/src/node/load.rs:24-121 | what start-up makes of a block stored but not applied, at the end of every validated run |
| ChainRecovery.CrashRecoveryExactly | ciphera/pkg/node/src/node/load.rs:24-121 | exactly when such a crash is repaired |
| ChainRecovery.AcceptedCrashRecovery | ciphera/pkg/node/src/node/load.rs:24-121 | on a chain without refused blocks: if and only if the block did not change the tree, or changed its root after an earlier block |
| ChainRecovery.FirstCommitPanics | ciphera/pkg/node/src/node/load.rs:24-121 | a concrete one-block chain whose crash makes start-up panic |
| ChainRecovery.LawBreakerStarts | ciphera/pkg/node/src/node/load.rs:24-121 | the concrete run that spent a note twice starts again unchanged |
| ChainRecovery.TwoRefusalsDiscardChain | ciphera/pkg/node/src/node/load.rs:24-121 | a concrete run with two refused blocks that start-up throws away |
| FastSync.MarksMeaning | ciphera/pkg/node/src/sync.rs:397-487 | the block's marks are its commitments, outputs and inputs told apart |
| FastSync.NotesTree.ApplyFastSnapshot | ciphera/pkg/node/src/sync.rs:397-487 | the tree changes only when the snapshot applies, and then by exactly the differences that are not the block's own |
| FastSync.CollectSide | ciphera/pkg/node/src/sync.rs:397-487 | one side of the difference, split into what goes into the batch and what is left to the block |
| FastSync.SnapshotThenBlockExactly | ciphera/pkg/node/src/sync.rs:397-487 | whatever was sent, if it applies: the block's own changes then give exactly the sent set, if and only if zero is in both sets or in neither and no input is recorded as an output; and which set has the block's root |
| FastSync.SharedPathHidesElement | ciphera/pkg/node/src/sync.rs:397-487 | a concrete snapshot that applies although the sent set has another root |
| FastSync.AppliesExactly | ciphera/pkg/node/src/sync.rs:397-487 | for any two sets, exactly when it applies |
| FastSync.RefusalsExactly | ciphera/pkg/node/src/sync.rs:397-487 | for any two sets, exactly when each of the four refusals is given, and which comes first |
| FastSync.SharedPathPanics | ciphera/pkg/smirk/src/tree/mod.rs:233-240 | two states that share a path between them make the preview panic |
| FastSync.PaddedBlockNeverApplies | ciphera/pkg/node/src/sync.rs:397-487 | with any padding commitment in the block it never applies |
| FastSync.HonestSnapshotExactly | ciphera/pkg/node/src/sync.rs:397-487 | for an honest sender of an accepted chain: exactly when it applies, when it panics, and that the receiver then holds the tree just before the last block |
| FastSync.ReusedPathPanics | ciphera/pkg/node/src/sync.rs:397-487 | a concrete accepted chain that uses a path again and makes a receiver panic |
| Mempool.Mempool.Add | ciphera/pkg/node/src/mempool.rs:86-118 | the new pool, or the first conflicting change, or a duplicate key |
| Mempool.Mempool.Remove | ciphera/pkg/node/src/mempool.rs:123-144 | the first half of a commit, under one lock: committed keys leave transactions, lease and queue |
| Mempool.Mempool.Commit | ciphera/pkg/node/src/mempool.rs:123-148 | both halves, when nothing comes between them |
| Mempool.Mempool.Free | ciphera/pkg/node/src/mempool.rs:152-165 | the second half, under its own lock: the lease's keys go to the front of the queue, each once |
| Mempool.Mempool.LeaseTxns | ciphera/pkg/node/src/mempool.rs:168-185 | the named keys move from the queue to the lease |
| Mempool.Mempool.TakeBatch | ciphera/pkg/node/src/mempool.rs:189-231 | the loop equals its specification, including when the `expect` fails |
| MempoolRuns.AddExactly | ciphera/pkg/node/src/mempool.rs:86-118 | adding succeeds if and only if the key is new and nobody makes the same change; otherwise nothing happens |
| MempoolRuns.LeaseKeepsPartitionExactly | ciphera/pkg/node/src/mempool.rs:168-185 | leasing keeps queue and leases a partition of the pending keys if and only if the keys are pending and not leased elsewhere |
| MempoolRuns.RemoveKeepsPartitionExactly | ciphera/pkg/node/src/mempool.rs:123-144 | the first half of a commit keeps it if and only if no committed key is leased elsewhere |
| MempoolRuns.FreeKeepsPartition | ciphera/pkg/node/src/mempool.rs:152-165 | the second half always keeps it |
| MempoolRuns.CommitKeepsPartitionExactly | ciphera/pkg/node/src/mempool.rs:123-165 | so a whole commit keeps it if and only if no committed key is leased elsewhere |
| MempoolRuns.LeaseBatchExactly | ciphera/pkg/node/src/mempool.rs:189-231 | a batch fails if and only if one of the first `max(1, max)` queued keys has no transaction; otherwise it is exactly those keys, in order |
| MempoolRuns.BatchesAreSound | ciphera/pkg/node/src/mempool.rs:189-231 | in any pool a batch has no two transactions making one change, is within its limit, and loses or invents no key |
| MempoolRuns.RunKeepsInv | ciphera/pkg/node/src/mempool.rs:86-231 | every disciplined run, with anything between the halves of a commit, keeps the partition and disjoint changes, and never panics |
| MempoolRuns.BatchesAreFifo | ciphera/pkg/node/src/mempool.rs:189-231 | after it a batch is the front of the queue, with nothing passed over |
| MempoolOrder.RemoveFirstExactly | ciphera/pkg/node/src/mempool.rs:137-140 | removal takes out exactly the first occurrence and moves nothing |
| MempoolOrder.CommittedQueue | ciphera/pkg/node/src/mempool.rs:123-144 | a commit leaves the queue without the committed keys, in its order |
| MempoolOrder.LeasedQueueExactly | ciphera/pkg/node/src/mempool.rs:168-185 | leasing leaves the queue without the leased keys, in its order |
| MempoolOrder.SiftKeepsOrder | ciphera/pkg/node/src/mempool.rs:137-140 | in that order: one key comes before another exactly if it did before and both are left |
| MempoolOrder.QueueIsLine | ciphera/pkg/node/src/mempool.rs:86-231 | over every run the queue is what leases gave back, followed by the keys still in line |
| MempoolOrder.LineIsInOrder | ciphera/pkg/node/src/mempool.rs:86-118 | the keys in line stand in the order in which they were added |
| MempoolOrder.FirstComeFirstServed | ciphera/pkg/node/src/mempool.rs:189-231 | so over every run a batch takes the keys in line in the order in which they were added, whatever was committed, leased and given back in between |
| MempoolOrder.BatchesWalkTheQueue | ciphera/pkg/node/src/mempool.rs:189-231 | in any pool a batch walks the queue from its front; what it does not take of that stretch clashes with what it takes and goes to the end, in order |
| MempoolRuns.FreeKeepsQueueExactly | ciphera/pkg/node/src/mempool.rs:152-165 | whatever leases hold, giving one up keeps queued keys different and pending if and only if its keys are pending and not queued |
| MempoolRuns.CommitKeepsQueueExactly | ciphera/pkg/node/src/mempool.rs:123-165 | so a whole commit does if and only if it names every other key of its lease |
| MempoolRuns.ReturningRunsNeverPanic | ciphera/pkg/node/src/node/proposal.rs:102-130 | over every run that gives leases up only so, with any keys leased and submitted at any time and anything between the halves of a commit, nothing panics and batches are first in first out |
| MempoolRuns.UnknownKeyBreaksBatches | ciphera/pkg/node/src/mempool.rs:168-231 | concrete calls on a pool, not made by any one node, whose next batch panics |
| BlockCache.BlockCache.constructor | ciphera/pkg/node/src/cache.rs:19-33 | a new cache is the start block inserted into an empty one |
| BlockCache.BlockCache.Add | ciphera/pkg/node/src/cache.rs:47-82 | the cache after a block is offered |
| BlockCache.BlockCache.Settle | ciphera/pkg/node/src/cache.rs:86-103 | everything below the confirmed height goes, the rest stays |
| BlockCache.BlockCache.GetRange | ciphera/pkg/node/src/cache.rs:105-110 | the blocks found in the range; a reversed range panics |
| BlockCache.BlockCache.IsOutOfSync | ciphera/pkg/node/src/cache.rs:125-152 | when its `unwrap` fails; under the invariant the answer is yes if and only if a height up to the maximum is missing |
| BlockCache.BlockCache.CatchUp | ciphera/pkg/node/src/node/tick_worker.rs:22-41 | the catch-up loop equals its specification, including invalid blocks and failed commits |
| BlockCache.InsertExactly | ciphera/pkg/node/src/cache.rs:47-82 | what is found at every height after an insertion, including what is evicted |
| BlockCache.InsertKeepsInv | ciphera/pkg/node/src/cache.rs:47-82 | inserting any block keeps the invariant |
| BlockCache.ConfirmKeepsInvExactly | ciphera/pkg/node/src/cache.rs:86-103 | confirming keeps it if and only if the height is cached |
| BlockCache.RemoveKeepsInvExactly | ciphera/pkg/node/src/cache.rs:118-122 | removing keeps it if and only if the block is not at the confirmed height |
| BlockCache.InRangeExactly | ciphera/pkg/node/src/cache.rs:105-116 | a range holds exactly the cached blocks with heights in it, rising |
| BlockCache.RunKeepsInv | ciphera/pkg/node/src/cache.rs:19-122 | after every allowed run entries point to stored blocks of their height, the confirmed height is cached, the size is within capacity, and the maximum is the highest height offered |
| BlockCache.AdvanceExactly | ciphera/pkg/node/src/node/tick_worker.rs:22-41 | catching up takes exactly the unbroken line of valid cached blocks, no further than a failed commit |
| BlockCache.CatchesUpExactly | ciphera/pkg/node/src/cache.rs:125-166 | it reaches the maximum if and only if no block is missing, all are valid and all before the last commit |
| BlockCache.OwnBlockExactly | ciphera/pkg/node/src/cache.rs:47-103 | on any cache, inserting and confirming the next block keeps the invariant if and only if there is room, or something at or above it to evict |
| BlockCache.ReplacedBlocksFillCache | ciphera/pkg/node/src/cache.rs:80-81 | a concrete cache where it does not |
| BlockCache.OwnRunExactly | ciphera/pkg/node/src/node/proposal.rs:278-280 | over every run of a validator's own blocks the cache is exactly the last one, given room for two; with room for one every other block is lost |
| NoteSelection.Choose | ciphera/pkg/cli/src/wallet.rs:259-292 | the nested loops find the best choice: least total, then fewer notes, then first found; none if and only if nothing covers the amount |
| NoteSelection.BestIsUnique | ciphera/pkg/cli/src/wallet.rs:259-292 | there is only one best choice |
| NoteSelection.ChosenAreFound | ciphera/pkg/cli/src/wallet.rs:200-219 | looking the chosen notes up by value finds exactly the chosen positions, even among equal notes |
| WalletObject.RemoveMatching | ciphera/pkg/cli/src/wallet.rs:536-549 | removal by descending index leaves exactly the other notes, in order |
| WalletObject.Wallet.PushToAvail | ciphera/pkg/cli/src/wallet.rs:184-198 | the note at the end of its list, and the balance raised |
| WalletObject.Wallet.PullFromAvail | ciphera/pkg/cli/src/wallet.rs:200-219 | the first equal note gone and the balance lowered, or nothing |
| WalletObject.Wallet.SelectInputNotes | ciphera/pkg/cli/src/wallet.rs:237-320 | takes the best choice, both pulls succeed, the change is kept |
| WalletObject.Wallet.Import | ciphera/pkg/cli/src/wallet.rs:463-486 | moves a pending entry with the note's address, or finds none under any ticker |
| WalletObject.Wallet.SyncTxns | ciphera/pkg/cli/src/wallet.rs:527-560 | the loops equal the specification, including the unsupported contract |
| WalletObject.Wallet.Perform | ciphera/pkg/cli/src/wallet.rs:353-560 | every operation equals its specification |
| WalletObject.Wallet.Prepare | ciphera/pkg/cli/src/wallet.rs:169-176 | a staged operation works on a copy, handed out only on success; the wallet itself is unchanged |
| WalletSync.SyncMovesExactly | ciphera/pkg/cli/src/wallet.rs:527-560 | exactly the pending notes with a confirmed non-zero commitment leave, the rest keep their order, and what arrives is filed at the end of its own ticker's list |
| WalletSync.SyncConserves | ciphera/pkg/cli/src/wallet.rs:527-560 | pending and available notes together are conserved |
| WalletSync.SyncGains | ciphera/pkg/cli/src/wallet.rs:527-560 | what becomes available is exactly what was pending and confirmed |
| WalletSync.SyncFailsExactly | ciphera/pkg/cli/src/wallet.rs:551-553 | a sync fails if and only if it would move a note of an unsupported contract |
| WalletSync.SyncTwice | ciphera/pkg/cli/src/wallet.rs:527-560 | a second sync with the same transactions changes nothing |
| WalletSteps.OutputsExactly | ciphera/pkg/cli/src/wallet.rs:527-533 | a sync goes through both outputs of every transaction, in order |
| WalletBalance.SpendExactly | ciphera/pkg/cli/src/wallet.rs:353-368 | when spending fails; the choice is best, inputs equal outputs, the total falls by the amount, and every note's count changes by minus inputs plus change |
| WalletNotes.TickersRoundTrip | ciphera/pkg/cli/src/address.rs:41-75 | contracts and tickers translate into each other and back |
| WalletNotes.MintExactly | ciphera/pkg/cli/src/wallet.rs:392-402 | the note appended: amount, contract, address and entropy of the drawn key; the receipt carries it |
| WalletNotes.ReceiveExactly | ciphera/pkg/cli/src/wallet.rs:374-386 | the same for a received note, and what the receipt spends |
| WalletNotes.SpendChange | ciphera/pkg/cli/src/wallet.rs:221-235 | the receipt of a spend, and the change note: excess, origin's kind and contract, address and entropy of the drawn key |
| WalletNotes.BurnExactly | ciphera/pkg/cli/src/wallet.rs:408-430 | exactly the first equal note goes, or it fails because there is none |
| WalletNotes.ImportExactly | ciphera/pkg/cli/src/wallet.rs:463-486 | exactly one pending entry with the address goes, and the note is filed with that entry's key |
| WalletNotes.GetAddressExactly | ciphera/pkg/cli/src/wallet.rs:504-521 | the pending note asked for, in place of what was pending |
| WalletNotes.AddExactly | ciphera/pkg/cli/src/wallet.rs:495-498 | the given note, filed under its contract's ticker |
| WalletNotes.EveryNoteIsTraced | ciphera/pkg/cli/src/wallet.rs:353-560 | over every run each note held was made for a drawn key, imported to a drawn address, asked for, or handed over |
| WalletNotes.EveryNoteIsSpendable | ciphera/pkg/cli/src/wallet.rs:353-560 | so the wallet holds the key of every note it holds, unless it was handed one with the wrong key |
| WalletBalance.SelectList | ciphera/pkg/cli/src/wallet.rs:300-311 | the list without the chosen positions, in order, then the change |
| WalletBalance.PullNeverUnderflows | ciphera/pkg/cli/src/wallet.rs:200-219 | while the total fits in 64 bits a pull never underflows the balance |
| WalletBalance.TotalMoves | ciphera/pkg/cli/src/wallet.rs:353-560 | every operation moves the total by exactly its amount, or fails and changes nothing |
| WalletBalance.RunBalanced | ciphera/pkg/cli/src/wallet.rs:169-560 | after every run the balance is the total, as a 64-bit word |
| WalletBalance.BalanceIsTotal | ciphera/pkg/cli/src/wallet.rs:169-560 | so whenever the total fits, the balance is the total and the next operation moves it by exactly its amount |
| BatchQueue.Queue.Join | ciphera/pkg/primitives/src/batch.rs:208-232 | the queue after a call, and whether it starts a worker |
| BatchQueue.Queue.TakeAll | ciphera/pkg/primitives/src/batch.rs:273-278 | the worker takes everything queued |
| BatchQueue.Queue.Complete | ciphera/pkg/primitives/src/batch.rs:303-339 | whether the worker goes on |
| BatchQueue.SendReplies | ciphera/pkg/primitives/src/batch.rs:285-299 | each caller hears its own place's result, that it was dropped if there is none, or the batch error |
| BatchQueue.NextKeepsInv | ciphera/pkg/primitives/src/batch.rs:208-346 | every atomic step keeps the invariant |
| BatchQueue.RunKeepsInv | ciphera/pkg/primitives/src/batch.rs:208-346 | over every interleaving: at most one worker, one whenever the queue is not empty, and every call replied to, in flight or queued, in order |
| BatchQueue.RepliesAreOwn | ciphera/pkg/primitives/src/batch.rs:285-299 | reply number n goes to call number n and is its own result or its batch's error, never a dropped sender if the processor gives one result per item |
| BatchQueue.EachInOneBatch | ciphera/pkg/primitives/src/batch.rs:273-299 | the batches end to end are the calls in order, so each item is processed in at most one batch |
| BatchQueue.EveryCallIsReplied | ciphera/pkg/primitives/src/batch.rs:254-346 | once no more calls come, the worker stops after replying to every call |
| BatchQueue.WorkShortensWait | ciphera/pkg/primitives/src/batch.rs:254-346 | each worker step brings a waiting call's reply nearer by exactly one |
| BatchQueue.RepliedExactly | ciphera/pkg/primitives/src/batch.rs:208-346 | in every interleaving a call is replied to exactly when the worker has taken a number of steps that is fixed when it is waiting, whatever calls arrive meanwhile: at most five more than the calls up to it that wait |
| BatchQueue.IdleCallWaits | ciphera/pkg/primitives/src/batch.rs:208-346 | a call to an idle queue is replied to after exactly four worker steps |

## Left out

- Machine width of heights, stakes and times in Doomslug, the store and the cache: they are unbounded naturals; 64-bit keys and 64-bit wallet amounts are modelled as such.
- Doomslug history for debugging, wall-clock arrival times, and the adversarial test switches: they decide nothing.
- Signatures, zero-knowledge proofs and hashing: a valid signature means its validator sent the approval, a proof check is an unknown predicate, block and transaction hashes are injective, and the tree's root is an unknown function of its element set, not assumed injective.
- The tree's internal nodes, its on-disk log and its hash cache; it is a set in which no two elements share a path.
- RocksDB: an ordered map from byte strings. Encodings of values, block metadata and store errors are not modelled; keys are, to the byte.
- The exempted bad blocks and the leader's signature in `validate_block`, and the parent hash of a block.
- DoomslugSafety.NoConflictingQuorums: one stake list per height, the same for every leader, and endorsements only, since hashing a skip is not implemented in the source.
- Fast-synced blocks in the ledger laws: they never enter the history index.
- Mempool listeners: the channels that report a commit to whoever submitted the transaction.
- BlockCache.BlockCache.CatchUp: the invariant holds on entry.
- Confirming an uncached height after a fast snapshot, which breaks the cache invariant as `ConfirmKeepsInvExactly` says.
- Retention of pending notes when a new address is asked for, which replaces the ticker's list; the model keeps that behaviour and claims nothing about it.
- WalletBalance.RunBalanced: arithmetic wraps, as in a release build; a debug build stops instead, at the first total that does not fit.
- Wallet files, random keys (they are inputs), `find_note`, and the payment address codec.
- The moments at which batches start: the delays and the throttle. A processor that panics is not modelled.
- RPC, networking, contracts, provers, the desktop application and deployment.

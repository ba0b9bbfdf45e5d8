# A model of the Morgan node's ledger, replay, propagation and exchange bench

Morgan is a proof-of-history blockchain node written in Rust. This project models the parts of it
that keep state or do arithmetic that many other parts rely on, and proves what they are for. It
verifies with `dafny verify dfyconfig.toml`.

- **The ledger store** (`Staging`, `Chaining`, `Ledger`, `Notifications`, `Delivery`, `Blocktree`, `Feeding`).
  Blobs arrive in batches and in any order. The store keeps per-slot metadata, links slots to
  their parents, marks the slots that are connected to slot 0 and keeps track of orphans. `Batch`
  is a batch in progress, with its working set, the cells loaded for chaining and the puts that
  have not been written; `Blocktree` is the store. `HandleChaining` takes the working set in an
  arbitrary order. The main results are the invariant of every reachable ledger, the exactness of
  the two notifications, and that the order of delivery does not matter. `Feeding` states them of
  the store itself, fed with one batch after the other.
- **Writing and reading entries** (`EntryLayout`, `Ancestry`). A stream of entries laid out over
  slots reads back as the same stream. Roots form one chain.
- **Replay** (`Transactions`, `Grouping`, `Replay`, `ForkReplay`). Groups of entries are locked and
  executed in parallel, with loads and stores of different transactions interleaved in any way; a
  schedule says how. The bank does not lock the credit-only keys of a transaction, so this need not
  have the effect of running every transaction in ledger order. For a given program it has if no
  transaction can change what another one of its group uses; a ledger is orderly if this is so in
  every slot. For all programs it has exactly if no two transactions of a group use the same
  account. The worklist over the forks visits slots in increasing order, prunes at every root,
  reports exactly the ends of the forks, fails only if a slot that it comes to can fail, and in an
  orderly ledger exactly if one cannot be replayed.
- **Entries** (`Chunking`, `ProofOfHistory`). Greedy chunking is optimal, new entries verify, and
  a final hash fixes the whole history of hash steps. Hashing is a datatype constructor, so
  that it is free of collisions by construction.
- **The avalanche data plane** (`DataPlane`, `ClusterPeers`). The layers of the plane, the parent
  of every position, and that a message reaches everyone although each node leaves itself out of
  its own list of peers.
- **Repair** (`Repair`). How the blobs of a slot are divided among repairmen.
- **Gossip** (`Crds`). The table is a last-writer-wins replicated data type.
- **The exchange bench** (`OrderBook`, `Funding`). The order book is greedy and optimal; the
  funding loop ends with everyone holding exactly their share.

`Common` and `Arithmetic` hold shared records and a few facts about products and remainders.

## What callers are held to

- A blob of a slot above 0 names a parent below the slot, and a blob of slot 0 names slot 0.
- `set_root` is called with the new root itself or a previous root that it descends from. Otherwise
  the source unwraps missing metadata or never leaves slot 0: `WalkMeets` shows that its walk ends in
  these cases only. `process_blocktree` unwraps the metadata of slot 0.
- `write_entries` asserts that the ticks in the first slot are fewer than a slot holds. Slots and
  indexes stay below the largest 64 bit number, which the source uses as "not set".
- The fanout, the number of blobs and the redundancy are at least 1: with a fanout of 0 the loop
  that describes the plane does not end, and the repair arithmetic divides by 0.
- The number of tokens for a price of 0 is not defined on the offering side: the source divides by it.

## Where code and documentation differ

- The comment above `calculate_my_repairman_index_for_slot` promises that each blob is the
  responsibility of `repair_redundancy` or one more repairmen. The code meets this for a
  redundancy of one, which is the one in use. In general it does not: `CeilingCanFail`,
  `RepetitionCanHappen` and `TooFewRepairmen` give inputs that fail in the three possible ways, and
  `PromiseCondition` is the exact condition.
- The comment above `lock_accounts` says that it prevents two threads from modifying the same
  account at once. Credit-only keys are loaded and stored but not locked: `CreditOnlyCanRace` shows
  a race, `RaceFreeIff` and `LedgerOrderIff` that sharing an account is exactly what makes one
  possible, and `LocksMakeIndependent` when the locks are enough for one program.
- `split_serializable_chunks` does not end when a single item is too large. `StuckIffOversized`
  shows that this is the only case in which it does not.
- The swap loop of the bench checks the batch size after it has taken a swap, so that a batch
  size of 0 takes one; `TakeSwaps` does the same.

## Model

| member | source | states |
|---|---|---|
| `Blocktree.Blocktree.InsertDataBlobs` | core/src/blockBufferPool.rs:291-426 | one batch, whatever order the working set is visited in, is a step of the ledger that keeps the whole invariant; the new-blobs signal is raised iff some connected slot has more consecutive blobs than could be read of it before, that is iff the set of blobs readable in connected slots strictly grew; with listeners, the completed list has no duplicates and holds exactly the slots that were not full before and are full now |
| `Blocktree.Blocktree.constructor` | core/src/blockBufferPool.rs:111-155 | an empty store satisfies the invariant |
| `Blocktree.Blocktree.StageBlobs` | core/src/blockBufferPool.rs:300-362 | after both passes over the batch the columns in view are those of storing the blobs one by one, and the working set holds exactly the slots named |
| `Blocktree.Blocktree.WriteBatch` | core/src/blockBufferPool.rs:366-398 | writing the puts makes the database equal to the columns in view; the signal and the completed list are read off the working copies and their backups |
| `Blocktree.Batch.InsertDataBlobBatch` | core/src/blockBufferPool.rs:882-911 | the columns in view after the batch are those of storing the blobs one by one, none overwritten, and the metadata keeps its meaning |
| `Blocktree.Batch.CheckInsertDataBlob` | core/src/blockBufferPool.rs:974-1020 | a blob is stored iff it passes the three checks, which is iff its index is new and lies before the flagged end of the slot, and it flags no end before a stored blob; otherwise nothing but the working copy of its slot changes |
| `Blocktree.Batch.LoadWorking` | core/src/blockBufferPool.rs:981-1008 | the working copy is the one of an earlier blob, the stored metadata with an unknown parent filled in, or new metadata |
| `Blocktree.Batch.InsertDataBlob` | core/src/blockBufferPool.rs:914-970 | stores the blob and moves `consumed` to the first gap, `received` past the index and `lastIndex` to a flagged index |
| `Blocktree.Batch.CountConsecutive` | core/src/blockBufferPool.rs:1138-1166 | the end of the unbroken run of stored indexes, over batch and database together |
| `Blocktree.Batch.FindSlotMetaElseCreate` | core/src/blockBufferPool.rs:1085-1134 | finds the one cell of a slot in the working set, among the slots loaded for chaining or in the database, and otherwise creates an orphan |
| `Blocktree.Batch.SetMeta` | core/src/blockBufferPool.rs:1243-1252 | writing through a shared cell changes that slot in view and no other |
| `Blocktree.Batch.ChainToParent` | core/src/blockBufferPool.rs:1207-1227 | links a slot below its parent, decides whether it is connected, and puts an unknown parent into the orphan column |
| `Blocktree.Batch.VisitSlot` | core/src/blockBufferPool.rs:1279-1294 | one step of the traversal: marks the top of the stack and pushes its children iff it is full |
| `Blocktree.Batch.TraverseChildren` | core/src/blockBufferPool.rs:1267-1297 | the traversal ends, and after it nothing below the slot waits to be marked any more |
| `Blocktree.Batch.LinkWorkingSlot` | core/src/blockBufferPool.rs:1199-1233 | the slot is linked and its orphan entry is gone, with all other slots still chained |
| `Blocktree.Batch.HandleChainingForSlot` | core/src/blockBufferPool.rs:1188-1265 | takes one slot off the list of working slots still to be chained, whichever it is |
| `Blocktree.Batch.HandleChaining` | core/src/blockBufferPool.rs:1169-1186 | for every order of the working set, all metadata ends up chained and the orphan column exact |
| `Blocktree.PlaceEntry` | core/src/blockBufferPool.rs:258-285 | one round of the loop: an entry goes to the slot, parent and index of the cursor or, if the slot has all its ticks, to index 0 of the next slot below this one; its blob is flagged iff it holds the last tick missing |
| `Blocktree.LayOut` | core/src/blockBufferPool.rs:237-286 | the blobs made for a stream: entry i goes to the slot counted by the ticks before it, alone in its blob, below the slot before; it is flagged iff it is the last tick of its slot, and indexes go up within a slot from the given one in the first slot and from 0 in the others |
| `Blocktree.Blocktree.WriteEntries` | core/src/blockBufferPool.rs:237-289 | writing a stream from the start of unused slots and reading the slots back gives the stream again, and every slot but the last is full, has its ticks and ends in one; every slot written whose parent was not known has the slot before it as its parent and is listed among its children |
| `Blocktree.Blocktree.GetSlotConsecutiveBlobs` | core/src/blockBufferPool.rs:1138-1166 | exactly the blobs from `start` up to the first gap, or the first `max` of them |
| `Blocktree.Blocktree.GetSlotEntriesWithBlobCount` | core/src/blockBufferPool.rs:774-790 | the entries of those blobs in order, and how many blobs there were |
| `Blocktree.Blocktree.SetRoot` | core/src/blockBufferPool.rs:822-839 | marks exactly the ancestors of the new root that are not ancestors of the previous one, so the roots stay one chain from slot 0 |
| `Ancestry.WalkMeets` | core/src/blockBufferPool.rs:830-833 | the walk over the parents comes to the previous root iff it begins there or the slot descends from it |
| `Staging.NextMissing` | core/src/blockBufferPool.rs:1148-1163 | the least index from a start on at which nothing is stored |
| `Staging.FullSlotIsComplete` | core/src/blockBufferPool/meta.rs:31-56 | a slot counts as full iff it stores exactly the indexes up to its last one |
| `Staging.StoredSlotOk` | core/src/blockBufferPool.rs:914-970 | storing an accepted blob keeps `consumed` the least gap, `received` one past the greatest index and `lastIndex` the flagged, greatest index |
| `Staging.StageBlobAt` | core/src/blockBufferPool.rs:974-1020 | a blob touches its own slot only, overwrites nothing and takes nothing back |
| `Staging.ShouldInsertIff` | core/src/blockBufferPool.rs:1022-1083 | the checks against the metadata accept a blob iff its index is new and lies before the flagged end of the slot, and it flags no end before a stored blob |
| `Staging.StoredIff` | core/src/blockBufferPool.rs:974-1020 | what a slot stores changes by exactly the blobs so accepted |
| `Staging.FirstBlobTellsParent` | core/src/blockBufferPool.rs:981-1008 | of a slot whose parent is not known, the first blob of a batch tells the parent |
| `Staging.StageAllOk` | core/src/blockBufferPool.rs:882-911 | so does any sequence of blobs |
| `Staging.NewlyFullConsumesMore` | core/src/blockBufferPool.rs:1316-1320 | comparing `consumed` is enough: a full slot that consumed nothing new was full before |
| `Chaining.LinkChained` | core/src/blockBufferPool.rs:1307-1314 | linking one waiting slot keeps the chaining invariant for all slots, with that slot no longer waiting |
| `Chaining.ChildrenAreNew` | core/src/blockBufferPool.rs:1282-1292 | the children pushed by the traversal were neither visited nor on the stack, so the traversal ends |
| `Chaining.TraverseStep` | core/src/blockBufferPool.rs:1279-1294 | one step of the traversal keeps its invariant: what is missing a mark lies below the stack |
| `Chaining.TraverseEnd` | core/src/blockBufferPool.rs:1267-1297 | with an empty stack no mark is missing |
| `Chaining.NothingToPassOn` | core/src/blockBufferPool.rs:1239-1243 | not propagating from a slot that is not connected is right |
| `Ledger.EmptyInv` | core/src/blockBufferPool.rs:111-155 | the empty ledger satisfies the invariant |
| `Ledger.StepInv` | core/src/blockBufferPool.rs:291-398 | a step of the ledger keeps the invariant: chaining does not touch what the data columns mean |
| `Ledger.SlotMeaning` | core/src/blockBufferPool/meta.rs:8-62 | consumed is the first index not stored, received one past the last, the last index the one flagged; a slot with a known parent is listed among the children of that parent |
| `Ledger.StepParents` | core/src/blockBufferPool.rs:981-1008 | a batch keeps known parents, and takes an unknown one from the first blob of the slot |
| `Ledger.StagedChained` | core/src/blockBufferPool.rs:1195-1213 | after staging only the slots whose parent was unknown are unlinked, and only the newly full ones may have to pass on their mark |
| `Notifications.StepIsMonotone` | core/src/blockBufferPool.rs:291-398 | a batch never overwrites a blob and never takes back a mark, an index or a parent |
| `Notifications.CompletedIsExact` | core/src/blockBufferPool.rs:1316-1320 | the test for newly completed slots is exact: it holds of a touched slot iff the batch made it full, and no other slot becomes full |
| `Notifications.NewlyConnectedHasUpdate` | core/src/blockBufferPool.rs:1515-1528 | a slot that becomes connected without new blobs has an ancestor in the batch that has an update |
| `Notifications.SignalIsExact` | core/src/blockBufferPool.rs:1515-1528 | some touched slot has updates iff strictly more blobs became readable in connected slots |
| `Notifications.VisibleGrew` | core/src/blockBufferPool.rs:1515-1528 | more can be read iff some connected slot has more consecutive blobs than could be read of it before |
| `Delivery.RunInv` | core/src/blockBufferPool.rs:291-426 | by induction over the batches, the invariant holds after every batch of every run |
| `Delivery.ConnectedMeansChain` | core/src/blockBufferPool.rs:1188-1314 | in every reachable ledger a slot is marked connected iff an unbroken chain of full slots leads back to slot 0 |
| `Delivery.TreeOfSlots` | core/src/blockBufferPool.rs:1085-1134 | in every reachable ledger a slot is listed below another exactly once if that is its parent and not at all otherwise, every named parent has metadata, children come after parents, and the orphan column is exactly the slots without a parent |
| `Delivery.CompletedOnce` | core/src/blockBufferPool.rs:368-385 | over a whole run a slot is reported as completed at most once, and once iff it ends up full |
| `Delivery.FullStaysFull` | core/src/blockBufferPool.rs:914-970 | a full slot stays full |
| `Delivery.AcceptedUnlessStored` | core/src/blockBufferPool.rs:1022-1079 | of well-formed blobs none is ever turned away but one that is there already |
| `Delivery.StageAllHolds` | core/src/blockBufferPool.rs:882-911 | after any well-formed batches exactly the delivered blobs are stored |
| `Delivery.RunRepresents` | core/src/blockBufferPool.rs:291-426 | a run leaves behind a ledger that is fixed by the set of blobs delivered |
| `Delivery.RepresentationIsUnique` | core/src/blockBufferPool.rs:291-426 | two ledgers that represent the same blobs agree in data, orphans and all metadata, up to the order of the children of a slot |
| `Delivery.DeliveryOrderIsImmaterial` | core/src/blockBufferPool.rs:291-426 | any two runs fed the same well-formed blobs, in any order, batching or repetition, end in such equal ledgers |
| `Feeding.Feed` | core/src/blockBufferPool.rs:291-426 | a fresh store fed any batches goes through a run; its signals and completed lists are exact for every batch, and over all batches together each slot that ends up full is listed once and no other slot is |
| `Feeding.ReportedOnce` | core/src/blockBufferPool.rs:368-385 | up to any batch of a run, a slot has been listed as completed once if it is full and not at all otherwise |
| `Feeding.FeedTwo` | core/src/blockBufferPool.rs:291-426 | two stores fed the same well-formed blobs, in any order, batching or repetition, end up equal but for the order of the children of a slot |
| `Ancestry.PathAndAncestors` | core/src/blockBufferPool.rs:822-839 | the ancestors of a slot are those on the path to an ancestor, and the ancestors of that one |
| `Ancestry.ExtendRoots` | core/src/blockBufferPool.rs:822-839 | rooting a descendant of the newest root keeps the roots one chain |
| `EntryLayout.CursorAfter` | core/src/blockBufferPool.rs:251-285 | where the layout of a stream ends, and that the parent is always the slot before |
| `EntryLayout.AppendBlob` | core/src/blockBufferPool.rs:914-970 | a blob at the end of a gapless slot is accepted and closes the slot iff it is flagged |
| `EntryLayout.OpenNextSlot` | core/src/blockBufferPool.rs:261-266 | moving on leaves a finished slot behind |
| `EntryLayout.WriteOne` | core/src/blockBufferPool.rs:259-285 | one more entry keeps the layout |
| `EntryLayout.WriteThenRead` | core/src/blockBufferPool.rs:237-289 | the round trip over the abstract ledger: what was written is what is read, and all slots but the last are finished |
| `EntryLayout.LayoutInNumbers` | core/src/blockBufferPool.rs:258-285 | entry i goes to the start slot plus the ticks before it divided by the ticks of a slot, below the slot before that one, and is flagged iff it is a tick and the ticks up to it fill a slot |
| `EntryLayout.LayoutIndexes` | core/src/blockBufferPool.rs:258-285 | indexes go up one by one within a slot, from the given index in the first slot and from 0 in the others |
| `EntryLayout.LayoutChains` | core/src/blockBufferPool.rs:264-289 | every slot that a stream goes to and whose parent was not known ends up below the slot before it, which lists it as a child |
| `Transactions.LocksMakeIndependent` | runtime/src/accounts.rs:469-497 | of transactions that are locked together, none can change an account that another one uses iff every account that one of them can change is locked for all of them that use it; storing back what was loaded is no change |
| `Transactions.OneMoreRuns` | runtime/src/accounts.rs:551-571 | one more transaction is given its accounts as they are, the credit-only ones too and no others, and what it writes to these, and nothing else, is stored |
| `Transactions.RaceFreeIff` | core/src/blockBufferPoolProcessor.rs:29-69 | every program ends in the accounts of ledger order from all initial accounts, under all schedules or with all loads before the first store, iff no two of the transactions use the same account, locked or credit-only |
| `Transactions.CreditOnlyCanRace` | runtime/src/accounts.rs:469-497 | transactions that share a credit-only account get their locks together and can race |
| `Transactions.LoadsInitial` | core/src/blockBufferPoolProcessor.rs:29-69 | whatever part of an independent group has run, a transaction that has not run finds its accounts as they were |
| `Transactions.CommitEffect` | core/src/blockBufferPoolProcessor.rs:29-69 | committing one more transaction adds exactly its effect |
| `Transactions.InOrderEffects` | core/src/blockBufferPoolProcessor.rs:29-69 | running the group in ledger order has exactly the effects of all its transactions |
| `Transactions.EffectsDetermine` | core/src/blockBufferPoolProcessor.rs:29-69 | the effects determine the accounts, so every interleaving ends in the same ones |
| `Transactions.InOrderErrors` | core/src/blockBufferPoolProcessor.rs:29-69 | the first error does not depend on the interleaving |
| `Transactions.IndependentPlay` | core/src/blockBufferPoolProcessor.rs:29-69 | whatever way their loads and stores interleave, independent transactions end in the accounts of ledger order, and the first error is the one of ledger order |
| `Transactions.CreditsInFlight` | core/src/blockBufferPoolProcessor.rs:29-69 | if each user of an account adds one to it and all of them load before the first store, at most one is added |
| `Grouping.GroupsAreGroups` | core/src/blockBufferPoolProcessor.rs:88-100 | the transactions of every group that is formed up to a self-conflict have their locks together |
| `Grouping.OneMoreEntry` | core/src/blockBufferPoolProcessor.rs:79-85 | in ledger order a tick is registered with its hash, and transactions run on the ticks before them |
| `Grouping.GroupsInWords` | core/src/blockBufferPoolProcessor.rs:76-128 | no tick is in a group, no account is locked twice in one, and a group that is not the first begins after a tick or with an entry that locks an account held by the group before |
| `Grouping.ParallelTicks` | core/src/blockBufferPoolProcessor.rs:79-85 | whatever the schedules, a run without an error registers the ticks of ledger order |
| `Grouping.RunToKeeps` | core/src/blockBufferPoolProcessor.rs:76-128 | what taking up one entry keeps, be it added to the group or the group be run, holds of every run |
| `Grouping.GroupInOrder` | core/src/blockBufferPoolProcessor.rs:29-69 | running an independent group under any schedule leads from the entries before it, in ledger order, to the entries up to its end |
| `Grouping.OrderlyIsLedgerOrder` | core/src/blockBufferPoolProcessor.rs:76-128 | for a program under which no transaction can change what another one of its group uses, running the groups agrees with ledger order under all schedules, in accounts, ticks and error |
| `Grouping.OrderlyIff` | runtime/src/accounts.rs:469-497 | no transaction can change what another one of its group uses iff what it can change is locked for all of its group that use it |
| `Grouping.LedgerOrderIff` | core/src/blockBufferPoolProcessor.rs:71-128 | running the groups agrees with ledger order for every program and bank, under all schedules or with all loads of a group before its first store, iff no group that is run has two transactions that use the same account; the groups depend only on ticks and locks |
| `Grouping.CreditsLag` | core/src/blockBufferPoolProcessor.rs:76-128 | from a group with two users of an account on, a run in which all load first is behind ledger order in what it has added to the account, or will be once the group has run |
| `Replay.FirstErrByEntry` | core/src/blockBufferPoolProcessor.rs:20-27 | the first error over the entries of the first errors within them is the first error of all |
| `Replay.Bank.LockAccount` | runtime/src/accounts.rs:356-400 | locks all of the keys, or none if one of them is held |
| `Replay.Bank.LockAccounts` | runtime/src/accounts.rs:469-497 | locks all keys of a transaction but the credit-only ones at its end; a lock is granted iff none of these keys is held or was locked for an earlier transaction, and a failed one holds nothing |
| `Replay.Bank.UnlockAccounts` | runtime/src/accounts.rs:414-423 | releases every key of a transaction whose lock was granted, the credit-only ones included |
| `Replay.Bank.TakeSteps` | core/src/blockBufferPoolProcessor.rs:34-41 | taking the loads and the stores of all transactions in any order amounts to a schedule with each transaction in it twice, and every transaction has an outcome |
| `Replay.Bank.ExecuteInterleaved` | core/src/blockBufferPoolProcessor.rs:34-62 | the effect is that of a schedule in which each transaction loads once and stores once later; independent transactions have the effect of running them in ledger order, and each the error it has alone |
| `Replay.Bank.ParExecuteEntries` | core/src/blockBufferPoolProcessor.rs:29-69 | a group is run under some schedule, and the error reported is the first in ledger order; for independent entries this is sequential execution, in accounts and in the error |
| `Replay.Bank.FlushGroup` | core/src/blockBufferPoolProcessor.rs:29-69 | runs the group under some schedule and releases all its keys, with or without an error |
| `Replay.JoinsGroup` | core/src/blockBufferPoolProcessor.rs:94-100 | an entry that can be locked together with the group is added to it, and its keys to those locked |
| `Replay.Bank.RunAndRelease` | core/src/blockBufferPoolProcessor.rs:119-124 | an entry that conflicts with the group runs it, and its own locks are given back |
| `Replay.Bank.EnterGroup` | core/src/blockBufferPoolProcessor.rs:88-124 | an entry all of whose locks were granted is added to the group, any other one resolved against it |
| `Replay.Bank.ResolveConflict` | core/src/blockBufferPoolProcessor.rs:101-124 | an entry that conflicts with the group runs the group first and is tried again; with no group, the run ends with its error |
| `Replay.Bank.EnterEmptyGroup` | core/src/blockBufferPoolProcessor.rs:88-117 | with nothing else locked, locking fails only for an entry that conflicts with itself |
| `Replay.Bank.Reject` | core/src/blockBufferPoolProcessor.rs:102-117 | an entry that conflicts with itself ends the run with its error, and its own locks are given back |
| `Replay.Bank.ProcessTick` | core/src/blockBufferPoolProcessor.rs:79-85 | a tick runs the group and is registered after it |
| `Replay.Bank.ProcessEntries` | core/src/blockBufferPoolProcessor.rs:76-128 | whatever the entries, never leaves a lock behind and runs exactly the groups that ticks and locks form, one after the other, each under some schedule, up to the first error, with the ticks of ledger order; if no transaction can change what another one of its group uses, it succeeds iff running all transactions one at a time in ledger order has no error and no entry conflicts with itself; then accounts and ticks are those of that run; on a self-conflict exactly the entries before it have taken effect |
| `ForkReplay.GoodConcat` | core/src/blockBufferPoolProcessor.rs:247-278 | a path stays replayable exactly when the entries appended verify from its last hash and run without error on its bank |
| `ForkReplay.ReplayEntries` | core/src/blockBufferPoolProcessor.rs:247-278 | success extends a verified path, with hash and height carried on and a bank that some schedules lead to; failure means that a hash is wrong or that some schedules lead to an error |
| `ForkReplay.ReplayFirstSlot` | core/src/blockBufferPoolProcessor.rs:213-278 | the same for slot 0, which must start with a tick from genesis that the bank never sees |
| `ForkReplay.ReplaySlot` | core/src/blockBufferPoolProcessor.rs:201-278 | a replayed slot has a path from slot 0 that verifies from genesis and a bank that can come out of running the slots on it; a slot that fails is one whose replay can fail |
| `ForkReplay.OrderlyReplay` | core/src/blockBufferPoolProcessor.rs:247-278 | in an orderly ledger a replayed slot has the effect of running all entries up to it one transaction at a time |
| `ForkReplay.OrderlyFailure` | core/src/blockBufferPoolProcessor.rs:247-278 | in an orderly ledger a slot whose replay can fail has a path that does not verify or runs into an error in ledger order |
| `ForkReplay.NoSharingIsOrderly` | core/src/blockBufferPoolProcessor.rs:247-278 | a ledger in whose slots no group has two transactions that use the same account is orderly for every program |
| `ForkReplay.Branch` | core/src/blockBufferPoolProcessor.rs:291-343 | exactly the full children become pending; the slot is reported iff it has no child or one that is not full: once if it has no child and once for each child that is not full |
| `ForkReplay.ReportsInWords` | core/src/blockBufferPoolProcessor.rs:291-343 | reports counted as places in the list, against the number of children that are not full |
| `ForkReplay.SortPending` | core/src/blockBufferPoolProcessor.rs:345-347 | a permutation in decreasing order of slots |
| `ForkReplay.VisitSlot` | core/src/blockBufferPoolProcessor.rs:282-347 | one round of the worklist keeps its invariant; a root discards everything pending or reported that is not below it |
| `ForkReplay.FullBelowDescends` | core/src/blockBufferPoolProcessor.rs:282-288 | what is below a root through full slots descends from it |
| `ForkReplay.WalkEnd` | core/src/blockBufferPoolProcessor.rs:189-352 | with nothing pending, exactly the full subtree of the last root met has been visited since |
| `ForkReplay.NextIsReached` | core/src/blockBufferPoolProcessor.rs:189-191 | the slot taken next is full up to slot 0 and below every root met before it |
| `ForkReplay.AllReached` | core/src/blockBufferPoolProcessor.rs:189-352 | with nothing pending, every such slot was visited |
| `ForkReplay.WalkForks` | core/src/blockBufferPoolProcessor.rs:189-352 | the worklist ends; what it visited it could replay, and a slot that it failed at can be reached and can fail |
| `ForkReplay.ProcessBlocktree` | core/src/blockBufferPoolProcessor.rs:141-404 | ends; visits in strictly increasing order only slots that are full up to slot 0 and below every root visited before them, all of which can be replayed; fails only if a slot that it comes to can fail; on success all of these were visited, the root is the greatest root among them and the newest one if its path is full, and a slot is reported iff it is full up to that root and has no child or one that is not full, as many times as it has children that are not full, or once without a child; each report has the entry count, a path that verifies from genesis and a bank that can come out of running it; in an orderly ledger it succeeds iff all slots it comes to can be replayed, and the banks reported are those of running the paths in ledger order |
| `DataPlane.DescribeDataPlane` | core/src/clusterMessage.rs:576-610 | no layer, one layer or the least number of layers that hold all nodes; layer 0 starts at 0 and each next one at fanout times one more than the start before, up to the total capacity |
| `DataPlane.LayerCountUnique` | core/src/clusterMessage.rs:576-610 | only one number of layers is just enough |
| `DataPlane.LocalityOf` | core/src/clusterMessage.rs:612-690 | a position is found in its layer, in the block of `fanout` positions that contains it, which stays in the layer, and with its peers of the next layer if there is one |
| `DataPlane.LayerStartNext` | core/src/clusterMessage.rs:576-610 | layer 0 starts at 0, and each next layer at fanout times one more than the start of the one before |
| `DataPlane.EdgeInNumbers` | core/src/clusterMessage.rs:1532-1559 | a node pushes to the others of its block of fanout positions, and to one position in each of the fanout blocks of the next layer that its block feeds, counted in a list that leaves itself out |
| `DataPlane.SmallCluster` | core/src/clusterMessage.rs:1540-1545 | in a cluster that one layer can hold everyone pushes to everyone else |
| `DataPlane.LocalityShape` | core/src/clusterMessage.rs:612-690 | for any position the bounds are in order and the peers increase |
| `DataPlane.PeerHasParent` | core/src/clusterMessage.rs:692-702 | a peer lies in the next layer, and determines the position it is a peer of |
| `DataPlane.ParentHasPeer` | core/src/clusterMessage.rs:692-702 | every position of the next layer is a peer of some position |
| `DataPlane.ExactlyOneParent` | core/src/clusterMessage.rs:576-702 | every index from the fanout up to the capacity is a next-layer peer of exactly one index, in the layer just before |
| `DataPlane.ParentEdge` | core/src/clusterMessage.rs:1532-1559 | although a node leaves itself out of its own list, every position after the first `fanout` + 1 is pushed to by an earlier one |
| `DataPlane.EveryoneIsReached` | core/src/clusterMessage.rs:1532-1559 | pushing along neighbor and child edges from any of the first `fanout` positions reaches every node |
| `ClusterPeers.RankingIsUnique` | core/src/clusterMessage.rs:504-527 | nodes that know the same cluster and stakes rank it alike |
| `ClusterPeers.SortByStake` | core/src/clusterMessage.rs:504-527 | each node once; of two nodes the one with more stake comes first, with a stake of 0 for a node that has none, and among equal stakes the greater id |
| `ClusterPeers.RankIsPosition` | core/src/clusterMessage.rs:504-550 | the position of a node in the ranking is the number of nodes with more stake, or as much and a greater id |
| `ClusterPeers.SortedPeersAndIndex` | core/src/clusterMessage.rs:529-550 | the number of nodes that outrank oneself, by stake and then id, and the others in the order of how many outrank them |
| `ClusterPeers.PickChildren` | core/src/clusterMessage.rs:1549-1556 | stopping at the first child beyond the list drops none that exists |
| `ClusterPeers.PickPeers` | core/src/clusterMessage.rs:1540-1556 | exactly the peers at the places the plane prescribes |
| `ClusterPeers.ComputeRetransmitPeers` | core/src/clusterMessage.rs:1532-1559 | a node retransmits to exactly those that the plane of the whole cluster gives it an edge to, where the places of both are the numbers of nodes that outrank them by stake and then id |
| `ClusterPeers.RetransmitInCluster` | core/src/clusterMessage.rs:1532-1559 | if every node of one cluster computes its peers from its own list of the others, all of them together send along exactly the edges of the plane of the one ranking |
| `ClusterPeers.MessageSpreads` | core/src/clusterMessage.rs:1532-1559 | if every node sends as it computed for itself, a message given to any of the `fanout` nodes ranked first comes to every node |
| `ClusterPeers.MessageSpreadsFromStake` | core/src/clusterMessage.rs:1532-1559 | a message given to a node that fewer than `fanout` nodes outrank, by stake and then id, comes to every node |
| `Chunking.NumWillFit` | core/src/entryInfo.rs:289-320 | for every monotone size, the bisection ends with the longest prefix that fits, 0 if none does |
| `Chunking.StayAhead` | core/src/entryInfo.rs:322-344 | the greedy cut is never behind any other |
| `Chunking.SplitSerializableChunks` | core/src/entryInfo.rs:322-344 | if every single item fits, the loop ends, the chunks concatenate to the input, each fits, none is empty, and no cut into fitting chunks has fewer |
| `Chunking.StuckIffOversized` | core/src/entryInfo.rs:322-344 | the loop runs forever iff some item does not fit by itself |
| `ProofOfHistory.OversizedTransactionIsStuck` | core/src/entryInfo.rs:346-358 | a transaction larger than a blob keeps the loop from ending |
| `ProofOfHistory.Poh.constructor` | core/src/waterClock.rs:18-27 | a fresh clock, with as many hashes per tick as asked for or without a limit |
| `ProofOfHistory.Poh.Hash` | core/src/waterClock.rs:34-44 | makes as many hash steps as asked for but leaves the last one before a tick, and tells whether a tick must follow |
| `ProofOfHistory.Poh.Record` | core/src/waterClock.rs:46-60 | mixes a hash in, counts it and uses one up, or changes nothing if only the hash of a tick is left |
| `ProofOfHistory.Poh.Tick` | core/src/waterClock.rs:62-80 | always hashes; yields an entry and starts over iff the clock is unlimited or the tick is due, and otherwise counts the hash and uses one up |
| `ProofOfHistory.HashTransactions` | core/src/entryInfo.rs:163-175 | digests the first signature of every transaction that has one; of signed transactions, the first signature of each in order |
| `ProofOfHistory.FirstSignaturesSnoc` | core/src/entryInfo.rs:163-175 | a transaction without a signature adds nothing to the digest, and any other one its first signature |
| `ProofOfHistory.FirstSignaturesOfSigned` | core/src/entryInfo.rs:163-175 | of signed transactions the digest holds the first signature of each, in order |
| `ProofOfHistory.NextHash` | core/src/entryInfo.rs:178-190 | the clock makes as many hash steps as asked for, and one at least with transactions, which mixes in the first signatures; it refuses exactly for transactions after the largest count of hashes |
| `ProofOfHistory.NewEntry` | core/src/entryInfo.rs:54-83 | a new entry verifies from the hash it was made from, and counts a hash for its transactions |
| `ProofOfHistory.VerifyConcat` | core/src/entryInfo.rs:224-253 | a concatenation verifies iff the parts do, one from the end of the other |
| `ProofOfHistory.EntriesPerform` | core/src/entryInfo.rs:138-156 | a verified chain ends in the hash that its steps lead to |
| `ProofOfHistory.PerformInjective` | core/src/entryInfo.rs:178-190 | with a collision-free hash the final hash determines all steps |
| `ProofOfHistory.FinalHashFixesHistory` | core/src/entryInfo.rs:224-253 | two chains that verify from one start to one final hash perform the same steps and mix in the same signatures |
| `ProofOfHistory.VerifiedTime` | core/src/entryInfo.rs:135-160 | a verified entry lies as many hash steps after its start as it says, or one if it says none and has transactions |
| `ProofOfHistory.FinalHashFixesSignatures` | core/src/entryInfo.rs:163-253 | two chains of signed transactions that verify from one start to one final hash have the same number of transactions, with the same first signature each |
| `ProofOfHistory.SizesAreMonotone` | core/src/entryInfo.rs:98-111 | the serialized sizes meet what chunking demands of them |
| `ProofOfHistory.OneEntrySize` | core/src/entryInfo.rs:98-111 | the size that transactions are cut by is that of a list of one entry with them |
| `ProofOfHistory.ChainChunks` | core/src/entryInfo.rs:346-358 | one verifying entry per chunk, with the hashes due counted to the first |
| `ProofOfHistory.NextEntriesMut` | core/src/entryInfo.rs:346-358 | the entries verify from the start hash, their transactions concatenate to the input, each fits a blob, and no packing has fewer entries |
| `ProofOfHistory.NextEntries` | core/src/entryInfo.rs:360-368 | so for the wrapper |
| `ProofOfHistory.ToBlobs` | core/src/entryInfo.rs:255-262 | packs the entries in order into as few payloads as possible, each within a blob |
| `ProofOfHistory.ReconstructEntriesFromBlobs` | core/src/entryInfo.rs:192-213 | fails iff some payload does not deserialize; otherwise yields all entries in order and the number of ticks |
| `ProofOfHistory.PackThenUnpack` | core/src/entryInfo.rs:192-213 | unpacking what was packed gives the entries and their ticks back |
| `Repair.BlobIndexesToRepairIterator.Next` | core/src/ClusterFixMessageListener.rs:62-72 | hands out the start plus a multiple of the step, counted around the slot, and after the last one nothing |
| `Repair.CalculateMyRepairmanIndexForSlot` | core/src/ClusterFixMessageListener.rs:371-402 | a node has a share iff it is among the repairmen that take part; it starts at its position, steps by the number of repairmen, and sends the least number of blobs that covers all copies, but no more than the slot has |
| `Repair.CeilDivCovers` | core/src/ClusterFixMessageListener.rs:380-383 | the rounded-up share is the least with which the repairmen cover all copies |
| `Repair.Drain` | core/src/ClusterFixMessageListener.rs:59-73 | draining the iterator yields the whole share in order |
| `Repair.HitsAreEven` | core/src/ClusterFixMessageListener.rs:368-402 | how often each blob is sent, exactly; any two blobs differ by at most one |
| `Repair.EveryBlobIsSent` | core/src/ClusterFixMessageListener.rs:368-370 | every blob is sent at least min(repairmen, redundancy) times |
| `Repair.CeilingCondition` | core/src/ClusterFixMessageListener.rs:371-402 | no blob is sent more than min(repairmen, redundancy) + 1 times if and only if the repairmen suffice for one blob each, or are fewer than the redundancy, or the rounded-up shares add up to no more than redundancy + 1 copies of the slot |
| `Repair.CeilingInPractice` | core/src/ClusterFixMessageListener.rs:371-402 | so with no more repairmen than blobs, with one blob per repairman, and for a redundancy of one |
| `Repair.PromiseCondition` | core/src/ClusterFixMessageListener.rs:368-370 | each blob is the responsibility of redundancy or redundancy + 1 different repairmen if and only if there are as many repairmen as the redundancy, no number of rounds short of a share goes around the slot evenly, and either there is a repairman for every copy or the rounded-up shares add up to no more than redundancy + 1 copies of the slot |
| `Repair.PromiseInWords` | core/src/ClusterFixMessageListener.rs:368-370 | the promise counted as the number of repairmen whose shares have the blob |
| `Repair.PromiseMeansNoRepeats` | core/src/ClusterFixMessageListener.rs:368-370 | a repairman that comes back to a blob leaves some blob with too few of them |
| `Repair.CeilingCanFail` | core/src/ClusterFixMessageListener.rs:368-370 | five repairmen, two blobs and a redundancy of three: a blob has too many |
| `Repair.SharesAreDistinct` | core/src/ClusterFixMessageListener.rs:59-73 | a share has no repetition iff no number of rounds short of it goes around the slot evenly |
| `Repair.HoldersAreHits` | core/src/ClusterFixMessageListener.rs:368-370 | every blob has as many different repairmen as it is sent times iff no share has a repetition |
| `Repair.OneOrTwoRepairmen` | core/src/ClusterFixMessageListener.rs:368-370 | with the redundancy of one in use the promise is kept for all numbers of repairmen and blobs |
| `Repair.RepetitionCanHappen` | core/src/ClusterFixMessageListener.rs:368-370 | two repairmen, two blobs and a redundancy of two: nothing is sent too often, but blobs have too few repairmen |
| `Repair.TooFewRepairmen` | core/src/ClusterFixMessageListener.rs:368-370 | one repairman, one blob and a redundancy of two: there are too few repairmen |
| `Crds.Crds.InsertVersioned` | core/src/connectionInfoTable.rs:96-114 | inserts iff the label is new, the wallclock is greater, or it is equal and the hash is greater; returns what was there before |
| `Crds.Crds.Insert` | core/src/connectionInfoTable.rs:115-122 | inserts the value under its hash and the local time iff the label is new, the wallclock is greater, or it is equal and the hash is greater; returns what was there before |
| `Crds.Crds.UpdateLabelTimestamp` | core/src/connectionInfoTable.rs:131-136 | moves the local timestamp of the label forward to the given time and touches nothing else |
| `Crds.TableHoldsNewest` | core/src/connectionInfoTable.rs:59-122 | after any operations without removals the entry of each label was received, and no received value has a greater wallclock, or an equal one and a greater hash |
| `Crds.VersionsNeverGoDown` | core/src/connectionInfoTable.rs:96-114 | no operation drops an entry or lowers its wallclock, or its hash at an equal wallclock |
| `Crds.TablesAgree` | core/src/connectionInfoTable.rs:59-122 | nodes that received the same values, in any order, with repeats and at any local time, store the same ones |
| `Crds.Feed` | core/src/connectionInfoTable.rs:96-136 | a table that is fed with values and timestamps is the one of the operations in their order |
| `Crds.InjectiveSeparates` | core/src/connectionInfoTable.rs:59-94 | hashing without collisions tells apart all values received |
| `Crds.Converge` | core/src/connectionInfoTable.rs:59-136 | two tables that are fed with the same values, each in its own order, with repeats and at its own times, hold the same versions under the same labels |
| `OrderBook.OrderBook.Push` | bench-exchange/src/order_book.rs:98-113 | an order is taken to its side iff it would trade at least one token: tokens times price, or tokens times the scaler against the price, must be large enough |
| `OrderBook.CheckTradeIff` | controllers/exchange_api/src/exchange_state.rs:201-219 | an order would trade a token iff tokens times price is at least the scaler, or tokens times the scaler at least the price |
| `OrderBook.OrderBook.Pop` | bench-exchange/src/order_book.rs:114-137 | takes the cheapest asked and the dearest offered order out if they can trade; otherwise no two orders can |
| `OrderBook.OrderBook.TakeSwaps` | bench-exchange/src/bench.rs:570-576 | the swaps are viable and of decreasing spread, nothing is lost, nothing viable is left unless the batch is full, and no choice of as many orders gains more |
| `OrderBook.Exchange` | bench-exchange/src/order_book.rs:124-137 | taking the best pair first loses nothing |
| `OrderBook.BestFirstIsBest` | bench-exchange/src/bench.rs:570-576 | what was gained and a bound on what is left bound what any choice could have gained |
| `OrderBook.SwapsAreInOrder` | bench-exchange/src/order_book.rs:16-41 | each pop is at least as good as any later one |
| `OrderBook.InOrderOfPrices` | bench-exchange/src/order_book.rs:16-41 | of two swaps the earlier one has the greater difference of prices, and none a negative one |
| `OrderBook.NoPairingGainsMore` | bench-exchange/src/order_book.rs:124-137 | under such a bound no set of disjoint pairs gains more, whichever way it pairs the orders |
| `Funding.PayAt` | bench-exchange/src/bench.rs:905-917 | what one transaction does to each account |
| `Funding.PayKeepsTotal` | bench-exchange/src/bench.rs:905-931 | no transaction between the parties changes what they have together |
| `Funding.Pigeonhole` | bench-exchange/src/bench.rs:905-908 | if all have their share on average and one has less, one has more |
| `Funding.SomeoneCanPay` | bench-exchange/src/bench.rs:905-908 | while a key is not funded there is an account left to pay from, so the panic is never reached |
| `Funding.SplitUnits` | bench-exchange/src/bench.rs:913-922 | what is paid and what is left are positive multiples of the share |
| `Funding.PaymentIsSound` | bench-exchange/src/bench.rs:912-931 | a payment keeps the books sound, the total included |
| `Funding.DropAccount` | bench-exchange/src/bench.rs:1008-1011 | an account without a surplus is not needed any more |
| `Funding.PayFrom` | bench-exchange/src/bench.rs:913-930 | an account with a surplus pays the last keys that are not funded, as many as four, the keys and its surplus allow, an equal multiple of the share each |
| `Funding.PlanRound` | bench-exchange/src/bench.rs:909-931 | a round funds at least one more key, up to four from each payer, out of what the payers have; nobody pays twice |
| `Funding.PayAllFollows` | bench-exchange/src/bench.rs:933-1007 | what the books can afford the chain can afford, with the same effect on both |
| `Funding.PayableNext` | bench-exchange/src/bench.rs:933-1007 | whichever transfer of a round is confirmed next, the rest can still be confirmed in any order |
| `Funding.Client.SendTransfers` | bench-exchange/src/bench.rs:933-1007 | in whatever order the transfers of a round are confirmed, each is affordable when its turn comes, and the chain ends up the same |
| `Funding.Client.Retain` | bench-exchange/src/bench.rs:1008-1011 | exactly accounts with a surplus are kept |
| `Funding.Client.FundRound` | bench-exchange/src/bench.rs:905-1013 | a round keeps books and chain in step and the total unchanged, and leaves fewer keys to fund |
| `Funding.Client.FundKeys` | bench-exchange/src/bench.rs:878-1014 | always ends without the panic; the source has paid `difs` for each destination and nothing else, every destination has got exactly `difs`, and no other account has changed |

## Left out

- Erasure coding: recovered blobs are an arbitrary second list of blobs in a batch; coding blobs and erasure metadata are not modelled.
- The database: every get and put succeeds, a batch is written at once, and channels to listeners are never full.
- Raw puts, the genesis writer, `read_blobs_bytes` and the ledger iterators: they bypass the metadata or only read.
- The bank: a transaction is any function of its accounts and the ticks so far; fees, duplicate keys, the signature cache, freezing, squashing and the leader schedule are not modelled.
- Waiting for the record locks of a parent bank in `lock_account`.
- Serialized bytes: a blob carries the entries its payload deserializes to, and sizes are sums of the parts.
- Wrap-around of 64 bit numbers in the data plane, the repair shares, the order book and the funding amounts, which are unbounded here.
- The gossip protocol around the table: push, pull, prune, the loop over all labels of a node, purging and removal.
- The repair service around the shares: choosing eligible repairmen, shuffling them and sending.
- Erroneous, unconfirmed and repeated transfers of the funding loop: every transfer of a round is confirmed before the next round.
- Orders of equal price: which of them is on top of a heap is left open.
- RPC, command lines, metrics, printing, the replicator and the other bench tools, whose funding loop has fees in it.
- Crds.TablesAgree: takes different values under one label and wallclock to have different hashes, as hashes without collisions give; with a collision the value that came first stays.
- Crds.Converge: takes hashing to be free of collisions, for the same reason.

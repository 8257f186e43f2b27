# Block cache, SuperVersion hand-off and ZWAL, verified

A Dafny model of the parts of this repository that are hardest to get right, with proofs of what they promise:

- **SuperVersion hand-off** (`SuperVersionMachine.dfy`, `SuperVersionInvariant.dfy`, `SuperVersionRuns.dfy`,
  `SuperVersionProgress.dfy`). Readers
  swap a thread-local pointer for an in-use mark and give it back by compare-and-swap while installers scrape all slots,
  and whoever drops the last reference but `super_version_`'s takes it down slot by slot. Every access to an atomic,
  with what the same thread then does under the DB mutex, is one step of a state machine with any number of threads;
  emptying a slot for good and dropping what it held is one step too. Theorems are about all runs: what holds in every
  state, and in `SuperVersionProgress` what operations come to and that they are never stuck.
- **HyperClockTable, concurrently** (`ClockMachine.dfy`, `ClockOwnership.dfy`, `ClockAccounting.dfy`,
  `ClockDisplacement.dfy`, `ClockMeta.dfy`). Every atomic operation on a slot's meta word, a displacement count,
  `usage_`, `occupancy_` or `clock_pointer_` is one step. `ClockOwnership` says who may touch an entry's data;
  `ClockAccounting` and `ClockDisplacement` say what the two totals and the displacement counts are, at every step;
  `ClockMeta` shows that each step does to the packed 64-bit words what it does to the triples of the machine.
  `ClockRoom.dfy` and `ClockLost.dfy` say when an insertion finds no slot, `ClockCorrection.dfy` what the access that
  `Release` makes after giving its reference back may find; `ClockPaths.dfy` has what can still happen from a state.
  The `ClockSolo` modules (`ClockSolo.dfy`, `ClockSoloLookup.dfy`, `ClockSoloErase.dfy`, `ClockSoloEvict.dfy`,
  `ClockSoloInsert.dfy`, `ClockSoloRelease.dfy`) say what an operation comes to that starts in any state of any run and
  that nobody interferes with; `ClockOverdrawn.dfy` has a run on which that is not what one would expect.
- **HyperClockTable, one operation at a time** (`ClockProbe.dfy`, `ClockTable.dfy`, `HyperClockTable.dfy`). The probe
  sequence, the displacement counts and what they make of Lookup, Erase and Insert, and the clock hand of Evict. As the
  code has it, a count does not include the entry in the slot itself, other than the comment on it says
  (`rocksdb-raw/cache/clock_cache.h:386-388`).
- **LRUCacheShard** (`LruList.dfy`, `LruShard.dfy`, `LruLowBranch.dfy`). The circular list cut into bottom, low and
  high segments, five running totals, reference counts and the fate of every handle. Handles are numbered, a pointer
  is a number, and the linked list is changed link by link.
- **LRUHandleTable and the whole-cache scan** (`LruTable.dfy`, `LruKeyTable.dfy`, `LruScan.dfy`). The chained, doubling
  hash table refines a map, the one the shard is modelled with; the resumable scan passes every entry that stays
  exactly once, and ends.
- **ZWAL** (`ZwalAppend.dfy`, `ZwalRecovery.dfy`, `ZwalLog.dfy`, `ZwalBounds.dfy`, `ZwalSliver.dfy`). A write-ahead log
  written with zone appends, which the device may reorder between barriers, and its recovery.
- **Smaller cores** (`ChunkSplit.dfy`, `Reservation.dfy`, `InternalKey.dfy`), with `Basics.dfy`,
  `Sums.dfy` and `Coding.dfy` shared.

## What turned out not to hold as it stands

Each of these is kept as the code has it, shown on an input, and given its exact condition.

- The low branch of `LRU_Insert` calls `MaintainPoolSize` before it moves `lru_low_pri_`
  (`rocksdb-raw/cache/lru_cache.cc:270-281`). The list invariant survives if and only if the high pool is within its
  limit on entry (`LruLowBranch.LowBranchIff`). Only `SetCapacity` can leave it over its limit, since it changes the
  limits without calling `MaintainPoolSize`; `LruLowBranch.LowBranchExample` is a run of a shard that gets there.
- `ApplyToAllEntries` takes the minimum of the option and 1 (`rocksdb-raw/cache/sharded_cache.h:243-244`), so the scan
  ends if and only if the option is at least 1 (`LruScan.ScanEndsIff`): it always ends then
  (`LruScan.ApplyToAllEntries`), and with the option 0 it never moves, whatever the tables (`LruScan.ZeroNeverMoves`).
- `RecoverWALChunk` goes from entry to entry without skipping the zeros that fill a block
  (`zenfs-appends/fs/io_zenfs.cc:668-671`), so a chunk of several entries is recovered in every order the
  device may choose if and only if no frame is padded (`ZwalRecovery.EveryOrderIff`; an input is in
  `ZwalRecovery.OrderLostExample`), and a whole log if and only if each of its intervals is safe in this sense
  (`ZwalLog.LogIff`). For one given order the condition
  is that no frame but the last one on the device is padded (`ZwalRecovery.RecoveredIff`), leaving out paddings of 1 to
  7 bytes, for which it is not exact (`ZwalSliver.SliverRecovered`).
- `SparseAppend` moves the rest of its data to the start of the buffer only when a zone is full
  (`zenfs-appends/fs/io_zenfs.cc:1326-1336`). A cut at a barrier inside a zone repeats the start of the data, so all
  data of a size is written faithfully if and only if cuts fall only where a zone ends (`ZwalAppend.FaithfulIff`;
  `ZwalAppend.DataLostExample` is a file to which that happens on its second append).
- `RecoverWALChunk` decodes both fields of a header before it tests the size (`zenfs-appends/fs/io_zenfs.cc:642-649`).
  Reading a chunk that is recovered whatever the order stays inside the buffer if and only if the chunk is not a single
  entry with 8 to 14 bytes of padding (`ZwalBounds.SafeInsideIff`; an input is in `ZwalBounds.OutsideExample`).
- A lookup key carries the type `kTypeWideColumnEntity`, and a seek passes over an entry at the very sequence number
  sought if its type is higher (`InternalKey.SeekMissesHigherType`). The seek finds what it should if and only if such
  an entry comes with another one at that sequence number whose type is not higher (`InternalKey.SeekFindsNewestIff`).
  No type with which entries are stored (`IsValueType`, `rocksdb-raw/db/dbformat.h:82-85`) is higher, so this does not
  happen to stored data (`InternalKey.SeekFindsNewest`).
- `CorrectNearOverflow` is meant to keep the reference count (`rocksdb-raw/cache/clock_cache.cc:243-260`). It looks at
  the word that its caller saw and then clears the top bits of the word as it is now. It keeps the count if and only if
  the guard does not fire on the former or both counters of the latter have the same top bit
  (`ClockMeta.CorrectionKeepsRefcount`; one Release on which it does not is `ClockMeta.CorrectionExample`).
- `Release` runs it after its reference is gone (`rocksdb-raw/cache/clock_cache.cc:720`, `:751`). It cannot come to
  access a handle that was deleted meanwhile, if and only if the handle is a slot of the table or the guard does not
  fire (`ClockCorrection.CorrectionSafeIff`; a run on which it does is `ClockCorrection.DeletedIsTouched`).
- An insertion is meant to find a slot, since the occupancy limit is below the number of slots
  (`rocksdb-raw/cache/clock_cache.cc:543-563`). There always is a free one (`ClockRoom.RoomLeft`), but slots may be
  freed behind the insertion and taken ahead of it. It finds none only if a slot was freed after it had
  set out (`ClockRoom.LostOnlyIfFreed`), and then it never ends (`ClockRoom.LostForEver`). Some run comes to that if and
  only if there are at least two threads and the limit is at least two (`ClockLost.LostIff`).
- Such a lost insertion goes on rolling back (`rocksdb-raw/cache/clock_cache.cc:959-967`), and once it has rolled back
  further than it came, is overdrawn, displacement counts are too low. A zero count then may hide an entry, so that a
  `Lookup` that nobody interferes with misses it and an `Erase` leaves it (`ClockOverdrawn.LookupMisses`,
  `ClockOverdrawn.EraseMisses`). A Lookup is right if and only if not every visible entry for its key is beyond a zero
  count (`ClockSoloLookup.LookupRightIff`), an Erase if and only if none is (`ClockSoloErase.EraseRightIff`); without an
  overdrawn insertion none ever is (`ClockSolo.ZeroHidesNothing`).

## Model

| member | source | states |
|---|---|---|
| SuperVersionInvariant.StepKeepsInv | rocksdb-raw/db/column_family.cc:450-490 | every atomic step of readers, pins, installers and family references keeps the protocol invariant |
| SuperVersionRuns.RunInv | rocksdb-raw/db/column_family.cc:1217-1365 | the invariant holds in every state of every run, for any number of threads |
| SuperVersionRuns.CountsExactCleanupOnce | rocksdb-raw/db/column_family.cc:450-477 | on every run each SuperVersion's count is the number of its holders, nobody holds a cleaned-up one, and Cleanup is run or owed exactly once after the count reached zero |
| SuperVersionRuns.BorrowedIsLive | rocksdb-raw/db/column_family.cc:1230-1277 | what a reader, a pin or a thread-local slot holds has a positive count and was not cleaned up |
| SuperVersionRuns.NeverTheLastReference | rocksdb-raw/db/column_family.cc:1349-1365 | the scrape, a thread exit, emptying the slots of a family that goes and the failed return after an explicit reference never drop a last reference |
| SuperVersionRuns.SlotsHoldCurrent | rocksdb-raw/db/column_family.cc:1303-1347 | with no install under way a cached pointer is the current SuperVersion, or the last one if that is being taken down, and carries the current number |
| SuperVersionRuns.GetIsFresh | rocksdb-raw/db/column_family.cc:1230-1277 | what a get returns had the version number that was current at some instant of the call; that it does return is SuperVersionProgress.GetReturnsCurrent |
| SuperVersionProgress.RefGetsCurrent | rocksdb-raw/db/column_family.cc:1270-1271 | what a get references under the mutex is the SuperVersion that is current then |
| SuperVersionProgress.ReadersGoOn | rocksdb-raw/db/column_family.cc:1230-1301 | in every state of every run a reader that is under way has a next step that brings it nearer to its end, or waits for the mutex |
| SuperVersionProgress.HolderGoesOn | rocksdb-raw/db/column_family.cc:1303-1347 | whoever has the mutex has a next step that brings them nearer to giving it back, so nobody waits in vain |
| SuperVersionProgress.GetReturnsCurrent | rocksdb-raw/db/column_family.cc:1230-1277 | a get that nobody interferes with ends with the current SuperVersion: the cached pointer with no count changed, or one more reference |
| SuperVersionProgress.ReturnCaches | rocksdb-raw/db/column_family.cc:1279-1289 | giving back a SuperVersion that was not scraped caches it with no count changed |
| SuperVersionProgress.GetAndReturn | rocksdb-raw/db/column_family.cc:1230-1289 | so a get and a return with a cached pointer leave the state exactly as it was |
| SuperVersionProgress.ReturnDrops | rocksdb-raw/db/column_family.cc:1279-1295 | giving one back after the slot was scraped drops the reference, and cleans up after the last one |
| SuperVersionProgress.InstallReplaces | rocksdb-raw/db/column_family.cc:1303-1347 | an install that nobody interferes with ends with a new current SuperVersion under the next number, cached nowhere, and the mutex free |
| SuperVersionProgress.TearEnds | rocksdb-raw/db/column_family.cc:709-723 | once super_version_ is null the slots are emptied, its reference is dropped and the mutex given back |
| SuperVersionProgress.PinsCount | rocksdb-raw/db/column_family.cc:1217-1228 | a pin is always possible and adds exactly one reference |
| SuperVersionProgress.UnpinsCount | rocksdb-raw/db/column_family.cc:455-460 | giving a pin back is always possible, takes exactly one off, and whoever gives back the last one owes the Cleanup |
| SuperVersionProgress.CleansPinned | rocksdb-raw/db/column_family.cc:462-477 | whoever owes a Cleanup can run it when the mutex is free, and it is the only one |
| SuperVersionProgress.ExitEmpties | rocksdb-raw/db/column_family.cc:493-506 | an idle thread can exit at any time; its slot and its reference are gone then |
| SuperVersionProgress.FamilyCounts | rocksdb-raw/db/column_family.cc:709-736 | outside references to the family can be taken and given back one by one |
| SuperVersionRuns.CfDeletedOnce | rocksdb-raw/db/column_family.cc:709-736 | the column family is deleted at most once, exactly when its count is zero, and then nothing refers to it |
| SuperVersionRuns.QuietMeansDeleted | rocksdb-raw/db/column_family.cc:462-477 | with no outside reference, pin or reader left the column family has been deleted: nothing leaks |
| SuperVersionRuns.DropTakesDown | rocksdb-raw/db/column_family.cc:709-723 | dropping an outside reference sets super_version_ to null exactly when nothing but it still holds the family |
| SuperVersionRuns.LastDropDeletes | rocksdb-raw/db/column_family.cc:719-733 | once super_version_ is null and the slots are empty, dropping its reference deletes SuperVersion and family under the same hold of the mutex if and only if no pin and no returning reader keeps it |
| SuperVersionRuns.LastCleanupDeletes | rocksdb-raw/db/column_family.cc:462-477 | on every continuation the family has been deleted if and only if that SuperVersion has had its Cleanup, that is, nobody holds it or owes it one |
| ClockOwnership.LookupStep | rocksdb-raw/cache/clock_cache.cc:614-679 | every atomic step of Lookup keeps the ownership invariant, junk increments on empty slots included; what Lookup returns is said in ClockSoloLookup |
| ClockOwnership.EraseStep | rocksdb-raw/cache/clock_cache.cc:791-860 | every step of Erase up to the take-over keeps it; what Erase leaves is said in ClockSoloErase |
| ClockOwnership.TakeStep | rocksdb-raw/cache/clock_cache.cc:681-754 | every step that tries to take an unreferenced entry over (Erase, Release, EraseUnRefEntries) keeps it |
| ClockOwnership.ReleasedStep | rocksdb-raw/cache/clock_cache.cc:703-741 | the take-over loop of Release keeps it, for table entries and standalone handles, even if the slot was reused meanwhile |
| ClockOwnership.RemoveStep | rocksdb-raw/cache/clock_cache.cc:735-748 | rollback, disposal, marking empty and reclaiming keep it |
| ClockOwnership.EvictStep | rocksdb-raw/cache/clock_cache.cc:980-1037 | every step of Evict keeps it |
| ClockOwnership.ChargeStep | rocksdb-raw/cache/clock_cache.cc:262-374 | the charging steps of Insert and CreateStandalone keep it |
| ClockOwnership.PlaceStep | rocksdb-raw/cache/clock_cache.cc:455-563 | claiming, writing, publishing and boosting a slot keep it |
| ClockOwnership.BackStep | rocksdb-raw/cache/clock_cache.cc:561-584 | rolling an insertion back, and standalone insertion, keep it |
| ClockOwnership.StartStep | rocksdb-raw/cache/clock_cache.cc:395-442 | starting any operation keeps it |
| ClockOwnership.RunInv | rocksdb-raw/cache/clock_cache.h:131-172 | the ownership invariant holds in every state of every interleaving |
| ClockOwnership.OneOwner | rocksdb-raw/cache/clock_cache.h:131-172 | a handle is in Construction exactly when a thread owns it, and no handle has two owners |
| ClockOwnership.ReferencesExact | rocksdb-raw/cache/clock_cache.h:131-172 | in a Shareable state acquire minus release is the callers' references plus the transient ones |
| ClockOwnership.TouchedAlone | rocksdb-raw/cache/clock_cache.cc:455-542 | whoever is about to write or free an entry's data has it alone: no reference, no transient reference, no other owner |
| ClockOwnership.ReferencedIsLive | rocksdb-raw/cache/clock_cache.cc:614-679 | what a caller holds a reference to is stored in that handle and not disposed of |
| ClockOwnership.DisposedOnce | rocksdb-raw/cache/clock_cache.cc:65-73 | an entry is disposed of at most once, and for good |
| ClockOwnership.QuietMeansAccounted | rocksdb-raw/cache/clock_cache.cc:681-754 | with all threads idle every entry is stored, disposed of or handed back, and a standalone handle still has a reference |
| ClockOwnership.NeverStuck | rocksdb-raw/cache/clock_cache.cc:924-957 | in every reachable state every thread can take its next step; in which tables an insertion can go on for ever is said by ClockLost.LostIff |
| ClockAccounting.StrictBalances | rocksdb-raw/cache/clock_cache.cc:262-317 | charging under the strict limit changes usage_ by exactly the thread's own share |
| ClockAccounting.LooseBalances | rocksdb-raw/cache/clock_cache.cc:319-374 | so does charging without the strict limit |
| ClockAccounting.EvictBalances | rocksdb-raw/cache/clock_cache.cc:980-1037 | and each step of Evict |
| ClockAccounting.DisposeBalances | rocksdb-raw/cache/clock_cache.cc:735-748 | freeing an entry moves its charge from the table to the thread's share |
| ClockAccounting.ReclaimBalances | rocksdb-raw/cache/clock_cache.cc:969-978 | reclaiming hands the share back |
| ClockAccounting.SettleBalances | rocksdb-raw/cache/clock_cache.cc:561-612 | publishing, standalone insertion, dropping and failing settle the share |
| ClockAccounting.TotalsExact | rocksdb-raw/cache/clock_cache.cc:395-442 | at every atomic step usage_ and occupancy_ are the live entries plus the threads' shares, exactly |
| ClockAccounting.QuietTotals | rocksdb-raw/cache/clock_cache.cc:561-584 | with all threads idle nothing is left over from failed or reverted operations |
| ClockAccounting.NeverOverCapacity | rocksdb-raw/cache/clock_cache.cc:262-317 | strict limits, one capacity and metadata within it: usage_ never exceeds the capacity on any interleaving |
| ClockMeta.Unpack | rocksdb-raw/cache/clock_cache.h:316-344 | the three fields of a packed meta word read back as they were packed |
| ClockMeta.SameWord | rocksdb-raw/cache/clock_cache.cc:110-113 | equal words mean equal state and counters, so compare_exchange compares triples |
| ClockMeta.CountersMove | rocksdb-raw/cache/clock_cache.h:322-331 | adding increments to the word adds to the counter they belong to |
| ClockMeta.OccupyWord | rocksdb-raw/cache/clock_cache.cc:462-470 | fetch_or of the occupied bit takes only an empty slot into construction |
| ClockMeta.HideWord | rocksdb-raw/cache/clock_cache.cc:806-813 | clearing the visible bit turns Visible into Invisible and leaves the counters |
| ClockMeta.CorrectionIdle | rocksdb-raw/cache/clock_cache.cc:243-260 | below 2^29 the overflow correction changes nothing, whatever word its guard looks at |
| ClockMeta.CorrectionKeepsRefcount | rocksdb-raw/cache/clock_cache.cc:243-260 | in general it keeps the reference count if and only if its guard does not fire on the word seen before, or both counters of the current word have the same top bit |
| ClockMeta.CorrectionExample | rocksdb-raw/cache/clock_cache.cc:688-751 | one Release after which nine references are miscounted: the guard fires on the word before it, not on the word that is corrected |
| ClockMeta.WordIsTriple | rocksdb-raw/cache/clock_cache.cc:462-470 | each atomic operation on the 64-bit word does what it does on state and counters |
| ClockMeta.StepOnWords | rocksdb-raw/cache/clock_cache.cc:614-679 | a step of the machine does to every meta word what the code does at that position |
| ClockMeta.RunOnWords | rocksdb-raw/cache/clock_cache.h:316-344 | and so does every step of every run, as long as the counters fit |
| ClockMeta.CallOnWords | rocksdb-raw/cache/clock_cache.cc:681-766 | so do the first accesses of Ref and Release |
| ClockCorrection.CorrectionSafeIff | rocksdb-raw/cache/clock_cache.cc:718-751 | while a Release is about to run its correction, the correction cannot come to access a deleted handle, if and only if the handle is a slot of the table or the guard does not fire on the word seen |
| ClockCorrection.DeletedIsTouched | rocksdb-raw/cache/clock_cache.cc:718-751 | a run from an empty table on which it comes to that: a standalone handle, five more references, four useful releases |
| ClockCorrection.OthersDelete | rocksdb-raw/cache/clock_cache.cc:681-754 | while a thread is about to run the correction on a standalone handle, the others can have the handle deleted, whatever the state of it |
| ClockRoom.RoomLeft | rocksdb-raw/cache/clock_cache.cc:397-442 | on every run the slots in use and the insertions looking for one together do not outnumber the occupancy limit |
| ClockRoom.LostOnlyIfFreed | rocksdb-raw/cache/clock_cache.cc:543-563 | an insertion comes to the end of its path without a slot only if some slot was freed after it had set out |
| ClockRoom.LostForEver | rocksdb-raw/cache/clock_cache.cc:959-967 | one that does never ends: its rollback towards a null handle goes round for ever |
| ClockLost.SeekerIsLost | rocksdb-raw/cache/clock_cache.cc:543-563 | a run from an empty table on which that happens, for any number of slots, any limit of at least two and any two or more threads |
| ClockLost.LostIff | rocksdb-raw/cache/clock_cache.cc:543-563 | so in a table of a power of two of slots, with a limit below that number, insertions can get lost if and only if the limit is at least two and there are at least two threads |
| ClockSolo.ZeroHidesNothing | rocksdb-raw/cache/clock_cache.cc:673-676 | if no insertion is overdrawn, no shared entry is beyond a slot of its path whose count is zero, whatever the other threads are in the midst of |
| ClockSoloLookup.LookupReturnsKey | rocksdb-raw/cache/clock_cache.cc:614-679 | whatever the other threads do, a Lookup ends with a reference to a stored entry for its key or with nothing |
| ClockSoloLookup.LookupAlone | rocksdb-raw/cache/clock_cache.cc:614-679 | alone, it ends at the first visible entry for the key on its path or the first zero count, and leaves all else as it was, junk aside |
| ClockSoloLookup.LookupRightIff | rocksdb-raw/cache/clock_cache.cc:673-676 | alone, in any state, it is right about whether there is a visible entry if and only if there is none or one is not beyond a zero count |
| ClockSoloLookup.LookupFindsIff | rocksdb-raw/cache/clock_cache.cc:614-679 | alone, in every state of every run without an overdrawn insertion, it returns an entry if and only if a visible one for the key is in the table, and one of these |
| ClockSoloErase.EraseRightIff | rocksdb-raw/cache/clock_cache.cc:791-860 | alone, in every state of every run, Erase leaves no visible entry for the key if and only if none was beyond a zero count; what it comes by is freed or hidden, and nothing else changes |
| ClockSoloErase.EraseLeavesNone | rocksdb-raw/cache/clock_cache.cc:791-860 | so without an overdrawn insertion none is left |
| ClockSoloEvict.Evicts | rocksdb-raw/cache/clock_cache.cc:980-1037 | alone, Evict ages the slots as the table run one operation at a time does and stops where that one does |
| ClockSoloInsert.InsertAlone | rocksdb-raw/cache/clock_cache.cc:395-584 | alone, in every state of every run, Insert moves the hand as far as it has to, charges exactly if that made room, and ends in the outcome, the slot and the totals of the table run one operation at a time |
| ClockSoloInsert.StandaloneAlone | rocksdb-raw/cache/clock_cache.cc:586-612 | so does CreateStandalone |
| ClockSoloRelease.ReleaseAlone | rocksdb-raw/cache/clock_cache.cc:681-754 | alone, Release gives one reference back and frees the entry exactly if it was the last and the entry is invisible or erasure was asked for |
| ClockSoloRelease.RefAlone | rocksdb-raw/cache/clock_cache.cc:756-766 | Ref adds one reference and changes nothing else |
| ClockSoloRelease.EraseAllAlone | rocksdb-raw/cache/clock_cache.cc:903-922 | alone, EraseUnRefEntries frees exactly the entries in the table that nobody references |
| ClockOverdrawn.LookupMisses | rocksdb-raw/cache/clock_cache.cc:959-967 | for every table with a limit of at least three and two threads, a run on which a Lookup alone misses a visible entry |
| ClockOverdrawn.EraseMisses | rocksdb-raw/cache/clock_cache.cc:959-967 | and in that state an Erase alone leaves it |
| ClockMachine.LooseNeedMeans | rocksdb-raw/cache/clock_cache.cc:330-353 | what NonStrict asks Evict for: nothing if the entry fits or is larger than all there is, at least its charge otherwise, a little more when over capacity, and at least one entry when a slot is needed |
| ClockDisplacement.PassesOnce | rocksdb-raw/cache/clock_cache.cc:938-953 | a path passes over a slot at most once before it comes to another, exactly if its turn is before |
| ClockDisplacement.DisplaceBalances | rocksdb-raw/cache/clock_cache.cc:538-541 | counting a displacement changes the slot's count by the inserting thread's own share |
| ClockDisplacement.BackBalances | rocksdb-raw/cache/clock_cache.cc:959-967 | so does each round of a rollback, towards a handle or towards none |
| ClockDisplacement.RollBalances | rocksdb-raw/cache/clock_cache.cc:959-967 | and each round of the rollback of a removal, before or after the slot is released |
| ClockDisplacement.PublishBalances | rocksdb-raw/cache/clock_cache.cc:466-490 | publishing hands the share over to the stored entry |
| ClockDisplacement.DisposeBalances | rocksdb-raw/cache/clock_cache.cc:735-748 | freeing an entry takes it back |
| ClockDisplacement.StepCounts | rocksdb-raw/cache/clock_cache.cc:455-571 | every atomic step keeps every slot's count exact |
| ClockDisplacement.DisplacementsExact | rocksdb-raw/cache/clock_cache.h:380-388 | at every atomic step of every run a slot's count is the number of stored entries whose path passes over it, plus the threads' shares |
| ClockDisplacement.QuietDisplacements | rocksdb-raw/cache/clock_cache.cc:153-182 | with all threads idle it is that number, and zero if the table is empty |
| ClockProbe.AdvanceIsNextProbe | rocksdb-raw/cache/clock_cache.cc:938-953 | adding the increment goes from one probe to the next |
| ClockProbe.ProbesDiffer | rocksdb-raw/cache/clock_cache.cc:938-943 | with an odd increment no slot of a power-of-two table is probed twice in a round |
| ClockProbe.EverySlotProbed | rocksdb-raw/cache/clock_cache.cc:938-943 | every slot is probed in a round |
| ClockProbe.EachSlotOnce | rocksdb-raw/cache/clock_cache.cc:938-943 | the probe sequence of a round is a permutation of the slots |
| ClockTable.DifferKeepsGood | rocksdb-raw/cache/clock_cache.h:380-388 | changing one slot's content with matching displacement counts keeps every count exact |
| ClockTable.NothingBeyond | rocksdb-raw/cache/clock_cache.cc:673-676 | a zero displacement count means no entry for the key lies further along its path |
| ClockTable.ScanBeyond | rocksdb-raw/cache/clock_cache.cc:673-676 | so stopping there agrees with going on through the whole table |
| ClockTable.FullScanFindsAll | rocksdb-raw/cache/clock_cache.cc:924-957 | a scan of all slots in probe order finds nothing exactly when no visible entry has the key |
| ClockTable.InsertFindsSlot | rocksdb-raw/cache/clock_cache.cc:543-563 | with fewer entries than slots the path comes across an empty slot or an entry for the key within one round |
| ClockTable.EvictTicks | rocksdb-raw/cache/clock_cache.cc:75-119 | the compare-and-exchange of the concurrent machine ages a slot as the sequential table does |
| ClockTable.Lifetime | rocksdb-raw/cache/clock_cache.cc:75-119 | an unreferenced visible entry lasts for as many visits as its countdown, at most three, and goes at the next |
| ClockTable.Spared | rocksdb-raw/cache/clock_cache.cc:75-119 | a referenced entry is not changed by any number of visits, an unreferenced invisible one goes at the first |
| HyperClockTable.BoostedLasts | rocksdb-raw/cache/clock_cache.cc:495-536 | a boosted entry lasts for as many more visits as the boost says |
| HyperClockTable.GivenBackMeans | rocksdb-raw/cache/clock_cache.cc:694-701 | a reference given back is one less; a useful one stays on the clock, another is as if it had not been taken |
| ClockTable.ThreeRounds | rocksdb-raw/cache/clock_cache.cc:991-1000 | three rounds of the clock hand visit every slot at least three times |
| ClockTable.ThreeVisits | rocksdb-raw/cache/clock_cache.cc:75-119 | after three visits an unreferenced invisible entry is gone and an unreferenced visible one has countdown 0 |
| ClockTable.AgedThen | rocksdb-raw/cache/clock_cache.cc:1005-1036 | two moves of the hand in a row are one longer move |
| ClockTable.ThreeRoundsLeave | rocksdb-raw/cache/clock_cache.cc:1005-1036 | what three rounds leave in each slot |
| HyperClockTable.Table.Rollback | rocksdb-raw/cache/clock_cache.cc:959-967 | takes back one displacement on every slot the path passes before h, on no other, and ends |
| HyperClockTable.Table.Lookup | rocksdb-raw/cache/clock_cache.cc:614-679 | returns what a full scan in probe order finds, references it and the empty slots on its way, and touches no slot beyond the first that ends the search |
| HyperClockTable.Table.Erase | rocksdb-raw/cache/clock_cache.cc:791-860 | no visible entry for the key remains, duplicates included; every other entry keeps its content, and no slot is touched beyond the first without displacements |
| HyperClockTable.Table.ClockUpdate | rocksdb-raw/cache/clock_cache.cc:75-119 | ages a slot by one tick, or takes an expired entry over |
| HyperClockTable.Table.Evict | rocksdb-raw/cache/clock_cache.cc:980-1037 | ages every slot once per visit and stops at the first batch of four after which enough is freed or three rounds are done, no sooner and no later |
| HyperClockTable.Table.ChargeUsageMaybeEvictStrict | rocksdb-raw/cache/clock_cache.cc:262-317 | evicts nothing if there is room, and otherwise just until there is; charges exactly c if and only if that made room and a slot, or nothing; keeps usage within capacity |
| HyperClockTable.Table.ChargeUsageMaybeEvictNonStrict | rocksdb-raw/cache/clock_cache.cc:319-374 | evicts nothing if there is no need, and otherwise as far as the need goes; charges exactly c unless a slot is needed and none was freed |
| HyperClockTable.Table.Place | rocksdb-raw/cache/clock_cache.cc:455-563 | puts the entry in the first empty slot of its path unless an entry for the key comes first, always ends, and undoes its displacements on a match |
| HyperClockTable.Table.Insert | rocksdb-raw/cache/clock_cache.cc:395-584 | every outcome of Insert and when it is which: the first fitting slot of the path after just as much eviction as is needed, a boosted duplicate, a standalone handle, a dropped or a refused entry; occupancy within its limit and usage balanced |
| HyperClockTable.Table.StandaloneInsert | rocksdb-raw/cache/clock_cache.cc:376-393 | makes a standalone handle with one reference and counts its charge |
| HyperClockTable.Table.CreateStandalone | rocksdb-raw/cache/clock_cache.cc:586-612 | a handle outside the table, charged if and only if just enough eviction makes room, otherwise uncharged or refused |
| HyperClockTable.Table.Ref | rocksdb-raw/cache/clock_cache.cc:756-766 | adds one reference to a table or standalone handle and nothing else |
| HyperClockTable.Table.Release | rocksdb-raw/cache/clock_cache.cc:681-754 | gives one reference back; frees the entry exactly if it was the last one and the entry is invisible (as standalone ones are) or erasure was asked for |
| HyperClockTable.Table.EraseUnRefEntries | rocksdb-raw/cache/clock_cache.cc:903-922 | frees exactly the unreferenced entries |
| LruList.UnlinkKeepsLinked | rocksdb-raw/cache/lru_cache.cc:233-245 | unhooking an entry leaves a circular list of the others in order |
| LruList.LinkKeepsLinked | rocksdb-raw/cache/lru_cache.cc:257-298 | hooking an entry in at any position leaves a circular list with it there |
| LruList.RemoveKeepsSegmented | rocksdb-raw/cache/lru_cache.cc:233-255 | LRU_Remove keeps segments, cut pointers and all three totals exact |
| LruList.PutKeepsPooled | rocksdb-raw/cache/lru_cache.cc:257-298 | each branch of LRU_Insert puts the entry at the newest end of its segment with exact pool usage |
| LruList.OverflowIsLeast | rocksdb-raw/cache/lru_cache.cc:299-320 | what MaintainPoolSize moves out of a pool is the least that brings it within its limit |
| LruList.MaintainedFits | rocksdb-raw/cache/lru_cache.cc:299-320 | after MaintainPoolSize both pools are within their limits and the order of the list is as before |
| LruList.MaintainedLeast | rocksdb-raw/cache/lru_cache.cc:299-320 | and no more was moved than that: with one entry fewer moved out of a pool it would be over its limit |
| LruList.LandedBelongs | rocksdb-raw/cache/lru_cache.cc:257-298 | an entry of high priority or one that was hit is the newest of all if there is a high pool; one of low priority, or such an entry without a high pool, is just older than the high pool; a bottom one older than both pools |
| LruLowBranch.OutcomeShape | rocksdb-raw/cache/lru_cache.cc:270-281 | whatever MaintainPoolSize does on any list, with wrapping usages, the low branch leaves these links, this lru_low_pri_ and this recorded high usage |
| LruLowBranch.LowBranchBreaks | rocksdb-raw/cache/lru_cache.cc:270-281 | if the high pool is over its limit every way the branch may end leaves the list invariant broken |
| LruLowBranch.LowBranchKeeps | rocksdb-raw/cache/lru_cache.cc:270-281 | otherwise it keeps it |
| LruLowBranch.LowBranchIff | rocksdb-raw/cache/lru_cache.cc:270-281 | so the branch keeps the list invariant if and only if the high pool is within its limit on entry |
| LruLowBranch.LowBranchFrom | rocksdb-raw/cache/lru_cache.cc:299-309 | the round that goes wrong, on a list with one entry: the new entry is taken for the oldest one of the high pool |
| LruLowBranch.LowBranchExample | rocksdb-raw/cache/lru_cache.cc:353-364 | a shard gets there by one insertion and one SetCapacity, and the next insertion breaks the list |
| LruShard.LRUCacheShard.LRU_Remove | rocksdb-raw/cache/lru_cache.cc:233-255 | takes exactly one entry off the list and keeps the list invariant |
| LruShard.LRUCacheShard.LRU_Insert | rocksdb-raw/cache/lru_cache.cc:257-297 | where the entry comes to be among the others, by its priority, whether it was hit and which pools there are; then the pools overflow by the least that brings them within their limits; the list invariant is kept when the high pool is within its limit or the branch is not the low one |
| LruShard.LRUCacheShard.MaintainPoolSize | rocksdb-raw/cache/lru_cache.cc:299-320 | moves the cuts exactly as far as needed, never reaching the sentinel; one entry less would leave a pool over its limit |
| LruShard.LRUCacheShard.EvictFromLRU | rocksdb-raw/cache/lru_cache.cc:322-335 | evicts the oldest entries until the charge fits, and not one more |
| LruShard.LRUCacheShard.NotifyEvicted | rocksdb-raw/cache/lru_cache.cc:337-351 | every evicted object is disposed of exactly once |
| LruShard.LRUCacheShard.SetCapacity | rocksdb-raw/cache/lru_cache.cc:353-364 | evicts just enough of the oldest entries; usage above capacity leaves an empty list; the pools stay within limits if the capacity is not lowered |
| LruShard.LRUCacheShard.SetHighPriorityPoolRatio | rocksdb-raw/cache/lru_cache.cc:457-462 | rebalances both pools |
| LruShard.LRUCacheShard.SetLowPriorityPoolRatio | rocksdb-raw/cache/lru_cache.cc:464-469 | rebalances both pools |
| LruShard.LRUCacheShard.Refuse | rocksdb-raw/cache/lru_cache.cc:383-392 | the entry is turned away: a MemoryLimit leaves the object with the caller, otherwise it is disposed of |
| LruShard.LRUCacheShard.Accept | rocksdb-raw/cache/lru_cache.cc:393-421 | the new entry replaces the one for its key, which is freed exactly if unreferenced, and lands at its place on the list |
| LruShard.LRUCacheShard.Decide | rocksdb-raw/cache/lru_cache.cc:383-421 | which way InsertItem goes after the evictions, when it reports an overwrite, and what is left |
| LruShard.LRUCacheShard.Insert | rocksdb-raw/cache/lru_cache.cc:371-427 | which outcome InsertItem has, decided by the room left after just enough evictions; which handles change; where on the list the entry is; a MemoryLimit disposes of nothing of the caller's; usage stays within a strict capacity |
| LruShard.LRUCacheShard.Lookup | rocksdb-raw/cache/lru_cache.cc:429-447 | returns what the table holds for the key, referenced and off the list |
| LruShard.LRUCacheShard.Ref | rocksdb-raw/cache/lru_cache.cc:449-455 | adds one reference and nothing else |
| LruShard.LRUCacheShard.Release | rocksdb-raw/cache/lru_cache.cc:471-516 | frees the entry exactly when its last reference goes and it is not put back on the list, and where it is put back |
| LruShard.LRUCacheShard.FreeLast | rocksdb-raw/cache/lru_cache.cc:479-516 | the last reference frees the entry, taking it out of the table first |
| LruShard.LRUCacheShard.PutBack | rocksdb-raw/cache/lru_cache.cc:488-492 | the last reference puts the entry back at the newest end of its pool |
| LruShard.LRUCacheShard.CreateStandalone | rocksdb-raw/cache/lru_cache.cc:557-587 | charges a handle outside the table, uncharged or rejected under a full strict capacity |
| LruShard.LRUCacheShard.Erase | rocksdb-raw/cache/lru_cache.cc:589-613 | the key leaves the table, its entry is freed at once if unreferenced |
| LruShard.LRUCacheShard.EraseUnRefEntries | rocksdb-raw/cache/lru_cache.cc:146-166 | empties the list and frees exactly its entries |
| LruShard.LRUCacheShard.Use | rocksdb-raw/cache/lru_cache.cc:429-447 | an entry that is looked up and given back is the very last that any charge would evict, if there is a high pool |
| LruShard.PoolsShareCapacity | rocksdb-raw/cache/lru_cache.cc:353-364 | pool ratios that add up to at most 1 share the capacity out |
| LruShard.LRUCacheShard.Step | rocksdb-raw/cache/lru_cache.h:32-48 | every operation does what it is for and keeps the whole shard invariant (handle states, membership, totals, one disposal each), the pool limits and all other settings |
| LruShard.LRUCacheShard.Run | rocksdb-raw/cache/lru_cache.h:32-48 | so does every run without a capacity decrease, operation by operation, and a strict usage within capacity stays there |
| LruTable.StoreHolds | rocksdb-raw/cache/lru_cache.cc:49-63 | storing a node where the search ended updates the map the buckets hold |
| LruTable.DropHolds | rocksdb-raw/cache/lru_cache.cc:65-73 | cutting a node out of its chain removes its key from that map |
| LruTable.IndexSplits | rocksdb-raw/cache/lru_cache.cc:83-115 | doubling splits bucket i into 2i and 2i+1 |
| LruTable.MoveOne | rocksdb-raw/cache/lru_cache.cc:98-110 | moving one node to the head of its new chain keeps exactly the moved nodes there |
| LruTable.MovedAll | rocksdb-raw/cache/lru_cache.cc:98-115 | once all are moved the new buckets hold the same map |
| LruTable.MovedSplit | rocksdb-raw/cache/lru_cache.cc:98-115 | and the nodes of bucket i are in the buckets 2i and 2i+1, and nothing else is |
| LruTable.LRUHandleTable.FindPointer | rocksdb-raw/cache/lru_cache.cc:75-81 | finds the node for key and hash exactly if the map has it |
| LruTable.LRUHandleTable.Lookup | rocksdb-raw/cache/lru_cache.cc:45-47 | returns what the map holds |
| LruTable.LRUHandleTable.Insert | rocksdb-raw/cache/lru_cache.cc:49-63 | updates the map, returns what it replaced, keeps the count, grows exactly when full and allowed |
| LruTable.LRUHandleTable.Remove | rocksdb-raw/cache/lru_cache.cc:65-73 | removes the key from the map and returns what it held |
| LruTable.LRUHandleTable.Resize | rocksdb-raw/cache/lru_cache.cc:83-115 | doubles the buckets, splitting each in two, without changing the map, unless the hash has no more bits |
| LruKeyTable.Create | rocksdb-raw/cache/lru_cache.cc:26-32 | a new chained table holds the empty map |
| LruKeyTable.Lookup | rocksdb-raw/cache/lru_cache.cc:435-435 | what the chained table returns is what the shard's map from keys to handles holds |
| LruKeyTable.Insert | rocksdb-raw/cache/lru_cache.cc:398-398 | the chained table goes on to hold the map with the new handle, and gives the replaced one back |
| LruKeyTable.Remove | rocksdb-raw/cache/lru_cache.cc:594-594 | the chained table goes on to hold the map without the key, and gives the handle it held back |
| LruKeyTable.ChainsHoldCache | rocksdb-raw/cache/lru_cache.cc:45-81 | the chains hold exactly the handles that are in the cache, each in the bucket of its hash |
| LruScan.CallCovers | rocksdb-raw/cache/lru_cache.cc:181-192 | one call handles exactly the hashes between the old state and the new one |
| LruScan.AlignedGrows | rocksdb-raw/cache/lru_cache.cc:172-176 | a saved state stays meaningful when the table doubles |
| LruScan.ScanPassesOnce | rocksdb-raw/cache/lru_cache.cc:168-202 | a finished scan passed every entry that stayed to the callback exactly once, however often the table doubled |
| LruScan.RoundsBound | rocksdb-raw/cache/lru_cache.cc:83-93 | a scan ends after at most 2^31 calls, because tables stop growing |
| LruScan.ZeroNeverMoves | rocksdb-raw/cache/sharded_cache.h:243-244 | with 0 entries per lock the scan never moves |
| LruScan.OneBucketPerCall | rocksdb-raw/cache/sharded_cache.h:243-244 | with any other value each call goes over one bucket, and a table that does not grow takes as many rounds as it has buckets |
| LruScan.ScanEndsIff | rocksdb-raw/cache/sharded_cache.h:233-255 | the scan of all shards ends if and only if the option is at least 1 |
| LruScan.ApplyToSomeEntries | rocksdb-raw/cache/lru_cache.cc:168-202 | passes the buckets of its range in order and computes the next state |
| LruScan.Rotate | rocksdb-raw/cache/sharded_cache.h:247-254 | one round over all shards calls each unfinished one once |
| LruScan.ApplyToAllEntries | rocksdb-raw/cache/sharded_cache.h:233-255 | the rotating loop ends within 2^31 + 1 rounds with every shard's scan finished, and what it passed to the callback |
| LruScan.CachePassesOnce | rocksdb-raw/cache/sharded_cache.h:233-255 | every entry that stays in a shard's table throughout is passed to the callback exactly once |
| LruScan.ShardPassesOnce | rocksdb-raw/cache/sharded_cache.h:246-255 | each shard's part of it is a scan that passes what stays exactly once |
| ChunkSplit.AllocationShrinks | rocksdb-raw/cache/compressed_secondary_cache.cc:218-232 | each chunk takes something; one that is not the last fills a bin and leaves less than that bin |
| ChunkSplit.SplitsIff | rocksdb-raw/cache/compressed_secondary_cache.cc:218-232 | what is left goes into one chunk if and only if it is not compressed or fits its bin |
| ChunkSplit.SplitValueIntoChunks | rocksdb-raw/cache/compressed_secondary_cache.cc:203-245 | the chunks make up the value, are at most 8 and strictly shrink, each larger than all that follows; the value is split if and only if it is compressed and would leave 128 bytes of its bin unused; the charge is exact |
| ChunkSplit.MergeChunksIntoValue | rocksdb-raw/cache/compressed_secondary_cache.cc:247-271 | the block is the chunks one after the other |
| ChunkSplit.SplitThenMerge | rocksdb-raw/cache/compressed_secondary_cache.cc:203-271 | merging a split value gives the value and its length back |
| Reservation.CacheReservationManager.IncreaseCacheReservation | rocksdb-raw/cache/cache_reservation_manager.cc:108-126 | inserts dummies up to the least cover, and succeeds exactly if the cache has room for it |
| Reservation.CacheReservationManager.DecreaseCacheReservation | rocksdb-raw/cache/cache_reservation_manager.cc:128-147 | releases dummies down to the least cover |
| Reservation.CacheReservationManager.UpdateCacheReservation | rocksdb-raw/cache/cache_reservation_manager.cc:56-82 | succeeds exactly if the cache has room for the least cover, and reserves that, or as much as there is room for; goes down to the least cover, with delay only below 3/4 |
| Reservation.CacheReservationManager.ReservedIsCharged | rocksdb-raw/cache/cache_reservation_manager.cc:108-126 | the dummies are different cache entries, so the reservation is what the cache is charged for |
| Reservation.CacheReservationManager.MakeCacheReservation | rocksdb-raw/cache/cache_reservation_manager.cc:84-97 | memory used stays the sum over live handles even if the cache refuses, which it does exactly if it has no room for the least cover; what is reserved then |
| Reservation.CacheReservationManager.DestroyHandle | rocksdb-raw/cache/cache_reservation_manager.cc:33-38 | destroying a handle takes exactly its memory off and settles the reservation; when the cache refuses, and what is reserved then |
| InternalKey.AppendThenExtract | rocksdb-raw/db/dbformat.cc:56-59 | a packed key gives back user key, sequence number and type |
| InternalKey.ExtractThenAppend | rocksdb-raw/db/dbformat.h:384-398 | every slice of at least eight bytes is the packed form of the parts it is taken apart into |
| InternalKey.SlicesAgree | rocksdb-raw/db/dbformat.cc:132-172 | so on any two such slices the packed comparisons agree with comparing the parts |
| InternalKey.FormsAgree | rocksdb-raw/db/dbformat.cc:132-172 | below 2^56 the packed comparisons agree with the parsed one |
| InternalKey.CompareAntisymmetric | rocksdb-raw/db/dbformat.cc:132-151 | the order is antisymmetric, and zero only for equal parts |
| InternalKey.CompareTransitive | rocksdb-raw/db/dbformat.cc:132-151 | and transitive |
| InternalKey.SeekFindsNewestIff | rocksdb-raw/db/dbformat.cc:178-202 | the entry a seek ends at is the newest readable one if it is for the user key and otherwise there is none, if and only if an entry at the sought sequence with a higher type than the one used for seeking comes with one that has not |
| InternalKey.SeekFindsNewest | rocksdb-raw/db/dbformat.h:82-85 | no type that entries are stored with is higher, so on what is stored the seek always keeps its promise |
| InternalKey.SeekMissesHigherType | rocksdb-raw/db/dbformat.cc:23-30 | an input on which it is broken: one entry of a higher type at the sought sequence |
| ZwalRecovery.ReadEntries | zenfs-appends/fs/io_zenfs.cc:633-678 | the reading loop computes Parse |
| ZwalRecovery.ReadIsReal | zenfs-appends/fs/io_zenfs.cc:648-662 | nothing empty is read, and sequence number 0 is taken for padding but in the first chunk |
| ZwalRecovery.ParseStops | zenfs-appends/fs/io_zenfs.cc:640-672 | unpadded frames are read one after the other, and reading ends at the first padded one |
| ZwalRecovery.SortIsUnique | zenfs-appends/fs/io_zenfs.cc:684-690 | entries with different sequence numbers can be sorted in one way only |
| ZwalRecovery.RecoverWALChunk | zenfs-appends/fs/io_zenfs.cc:583-699 | the result is a sorting of what was read, or an error if reading failed |
| ZwalRecovery.RecoveredIff | zenfs-appends/fs/io_zenfs.cc:583-699 | whatever order the device chose, paddings of 1 to 7 bytes aside, the chunk gives the written entries back in order if and only if no frame but the last on the device is padded |
| ZwalRecovery.UnpaddedRecovers | zenfs-appends/fs/io_zenfs.cc:583-699 | without padding the chunk is recovered whatever order the device chose |
| ZwalRecovery.SliverSize | zenfs-appends/fs/io_zenfs.cc:642-643 | a size decoded across 1 to 7 bytes of padding and the next header is zero or larger than the size meant |
| ZwalRecovery.GoesAstray | zenfs-appends/fs/io_zenfs.cc:640-672 | reading on from any padding ends there, fails, or yields an entry larger than the one that follows |
| ZwalRecovery.SomeOrderLost | zenfs-appends/fs/io_zenfs.cc:583-699 | with a padded entry among several, any padding, some device order is not recovered |
| ZwalRecovery.EveryOrderIff | zenfs-appends/fs/io_zenfs.cc:583-699 | with several entries in a chunk every device order is recovered if and only if no frame is padded |
| ZwalSliver.SliverRecovered | zenfs-appends/fs/io_zenfs.cc:640-672 | a chunk with a padded frame in the middle, one byte of padding, that is recovered all the same |
| ZwalRecovery.OrderLostExample | zenfs-appends/fs/io_zenfs.cc:583-699 | two entries of one byte each of which some order is not recovered |
| ZwalLog.FileLogOk | zenfs-appends/fs/io_zenfs.cc:1249-1345 | what a file has appended is a log: full intervals, consecutive numbers, no empty entry |
| ZwalLog.ChunkIsImage | zenfs-appends/fs/io_zenfs.cc:757-764 | the k-th chunk that TryRecoverWAL reads is what the device stored of the k-th interval |
| ZwalLog.SingleRecovers | zenfs-appends/fs/io_zenfs.cc:640-672 | the bytes of a chunk with one entry decide that it is recovered if and only if its padding is none or holds a size field |
| ZwalBounds.SafeInsideIff | zenfs-appends/fs/io_zenfs.cc:613-672 | reading a chunk from which nothing can get lost stays inside its buffer if and only if the chunk is not a single entry with 8 to 14 bytes of padding |
| ZwalBounds.OutsideExample | zenfs-appends/fs/io_zenfs.cc:642-643 | an entry of 4072 bytes, alone in its chunk, whose reading does not stay inside |
| ZwalBounds.UnpaddedInside | zenfs-appends/fs/io_zenfs.cc:640-672 | reading unpadded frames, in any order, stays inside |
| ZwalLog.LogIff | zenfs-appends/fs/io_zenfs.cc:583-806 | the log is read back whatever orders the device chose, if and only if no interval of several entries has padding and no single entry has 1 to 7 bytes of it |
| ZwalLog.TryRecoverWAL | zenfs-appends/fs/io_zenfs.cc:732-806 | reads chunk after chunk up to the write head, an empty chunk or the offset asked for, and not one further; an error means that the next chunk does not parse |
| ZwalLog.EndToEnd | zenfs-appends/fs/io_zenfs.cc:732-806 | then reading a file as far as its size gives the byte stream that was appended |
| ZwalLog.NeverFails | zenfs-appends/fs/io_zenfs.cc:583-699 | and no chunk fails to be read |
| ZwalAppend.PiecesFaithful | zenfs-appends/fs/io_zenfs.cc:1259-1345 | if cuts fall only where a zone ends the entries make up the data |
| ZwalAppend.SomeDataLost | zenfs-appends/fs/io_zenfs.cc:1283-1286 | if a cut falls at a barrier inside a zone, some data is written wrongly |
| ZwalAppend.FaithfulIff | zenfs-appends/fs/io_zenfs.cc:1249-1345 | all data of a size is written faithfully if and only if cuts fall only where a zone ends |
| ZwalAppend.MarkRepeated | zenfs-appends/fs/io_zenfs.cc:1283-1286 | whenever the next cut falls at a barrier inside a zone, data with a mark at its start is written wrongly |
| ZwalAppend.DataLostExample | zenfs-appends/fs/io_zenfs.cc:1249-1345 | a new file with barriers every 1 MiB, given one block and then 1 MiB, ends with a byte stream that is not what it was given |
| ZwalAppend.CutsForced | zenfs-appends/fs/io_zenfs.cc:1280-1286 | data is cut only because the interval or the zone is full, and the entry fills it to the end |
| ZwalAppend.ZoneTakes | zenfs-appends/fs/io_zenfs.cc:1318-1337 | a zone that is full is closed and the next one empty, so no entry crosses the end of a zone |
| ZwalAppend.GroupsIncrease | zenfs-appends/fs/io_zenfs.cc:1302-1302 | sequence numbers go up within each barrier interval |
| ZwalAppend.ZoneFile.WriteFrame | zenfs-appends/fs/io_zenfs.cc:1288-1302 | the buffer handed to the device is the entry's frame |
| ZwalAppend.ZoneFile.SparseAppend | zenfs-appends/fs/io_zenfs.cc:1249-1345 | what is appended, entry by entry, with intervals filled exactly to the barrier, zones filled exactly to their end and consecutive numbers; how the byte stream grows; where the writer stands afterwards |

## Left out

- Memory orderings: atomic steps are sequentially consistent, and a weak compare-and-exchange fails only on a difference.
- Counter overflow in the meta word: on runs, acquire and release counters are taken below 2^29, where the correction changes nothing; the access it makes is modelled.
- 64-bit wrap-around of `clock_pointer_`, of hash arithmetic and of sizes: numbers are unbounded; modulo a power of two they agree.
- ClockOwnership.NeverStuck: does not say that operations end under concurrency; `ClockLost.LostIff` says in which tables an insertion can go on for ever.
- ClockSoloLookup.LookupFindsIff: states with an overdrawn insertion are excluded, because it is false in them (`ClockOverdrawn.LookupMisses`); `ClockSoloLookup.LookupRightIff` covers them.
- ClockSoloErase.EraseLeavesNone: the same; `ClockSoloErase.EraseRightIff` covers them.
- Outcomes of operations that others interfere with, other than of Lookup (`ClockSoloLookup.LookupReturnsKey`): for these there are the invariants.
- `ConstApplyToEntriesRange` of the clock table: nothing is claimed about it.
- `CalcHashBits`, load factors and pool ratios as floating-point numbers: limits are given numbers, ratios are reals that are not negative.
- LruShard.LRUCacheShard.LRU_Insert: a low insertion while the high pool is over its limit is excluded here, because it breaks the list invariant (`LruLowBranch.LowBranchIff`), which says what happens then.
- LruShard.LRUCacheShard.Accept: the same.
- LruShard.LRUCacheShard.Decide: the same.
- LruShard.LRUCacheShard.Release: the same, for an entry that is put back.
- LruShard.LRUCacheShard.PutBack: the same.
- LruShard.LRUCacheShard.Insert: the same; and the handle comes into being when it is stored or freed; the mutex is not modelled, each operation being atomic.
- Chains of the LRU hash table as linked nodes: a chain is the sequence of its nodes.
- LruScan.ApplyToAllEntries: the tables that the calls find are given from outside; they may differ in any way from call to call, but do not shrink.
- LruLowBranch.LowBranchIff: says nothing about a call whose loops never end, as they may not once a usage has wrapped.
- Reservation.CacheReservationManager.UpdateCacheReservation: whether the cache accepts a dummy entry is given from outside.
- ChunkSplit.SplitValueIntoChunks: the size of the chunk header assumes 64-bit pointers.
- InternalKey.FormsAgree: the varint length in front of a lookup key and user timestamps are not modelled.
- ZwalRecovery.RecoveredIff: for one given order, frames that end 1 to 7 bytes before a block boundary are excluded, because the equivalence is false with them (`ZwalSliver.SliverRecovered`); `ZwalRecovery.EveryOrderIff` covers them.
- ZwalLog.SingleRecovers: is about outcomes that the bytes of the chunk decide; `ZwalBounds.SafeInsideIff` says when nothing else is read.
- WALPositionedRead: the copying of recovered entries into a caller's buffer is not modelled, nor is the metadata of files and extents.
- `SuperVersion::Init` and what a SuperVersion holds; memtables and versions; listeners and write stalls.
- Column family life: readers start only while an outside reference exists, and the last one is dropped only when no reader is under way.
- Everything else in the repository: compaction, SST and blob files, options, tools, bindings, build scripts.

# Kallisto engine: a Dafny model and its proofs

Kallisto is a secret cache in front of a write-behind key-value store. This project models the
hand-written parts of its engine and proves what they guarantee.

| file | models |
|---|---|
| `LockFreeQueue.dfy`, `RingTheorems.dfy`, `RingProgress.dfy` | the bounded multi-producer multi-consumer ring, as a step system with one program counter per thread, its invariant, what holds in every interleaving, and when an operation returns |
| `CuckooModel.dfy`, `CuckooTheorems.dfy`, `CuckooChain.dfy`, `CuckooTable.dfy` | the cuckoo cache: its operations on values, what they keep, when displacement succeeds, and the in-place class that performs them on arrays |
| `ShardedCuckooTable.dfy` | the 64-way sharded cache over in-place tables, and how much it can hold |
| `BTreeIndex.dfy` | the B-tree of secret paths |
| `KvModel.dfy`, `KvTheorems.dfy` | the versioned engine on values (cache, queue, worker batch, disk) and one request against a cacheless engine |
| `KvQueue.dfy` | why the engine's queue may be a bounded sequence: the ring carries it |
| `KvRuns.dfy`, `KvLifecycle.dfy`, `KvCrash.dfy` | whole runs: refinement, the operation log, the path index, the version lifecycle, crashes and reopens |
| `KvAnswers.dfy` | what every answer says about the stored metadata and payloads, and about the requests before it |
| `KvLimits.dfy` | where the write-behind promise ends, exactly |
| `KvEngine.dfy` | the engine object, running in place over the sharded cache and the B-tree |
| `KvFailures.dfy` | runs of that object that end badly: a crowded shard, a destroy split by a full queue |
| `TimeFormat.dfy` | civil-date arithmetic, RFC 3339 text and Go-style durations |
| `MergePatch.dfy` | JSON Merge Patch |
| `Options.dfy`, `Maps.dfy`, `Arithmetic.dfy` | the shared `Option` type, finite maps, division and masks |

`dafny verify dfyconfig.toml` checks everything.

## The results in short

* **Ring.** In every interleaving of any number of threads, with stale position loads and spurious
  compare-and-swap failures, no unwritten cell is read, no unread value is overwritten and a cell
  has at most one owner, exactly when the ring has at least two cells. The constructor's assertion
  also admits one cell; `CapacityOneOverwrites` shows what happens then. Every won ticket is in
  exactly one place, and Full and Empty are characterised exactly. With one consumer the ring is a
  first-in first-out queue of its capacity, and `Drop` hands over exactly what was not delivered. A
  thread left to itself returns, within seven accesses and with the outcome the ring determines, exactly
  unless it holds a position whose ticket another thread won and has not finished with.
* **Cuckoo cache.** Storage indices are slotted once, free once, or orphaned. An insert removes at
  most the CLOCK victim and, when displacement gives up, loses exactly one further key, whose
  storage index becomes an orphan. A displacement chain of any length stays in one bucket of the
  first table. An insert that finds its first bucket full succeeds exactly when one of the first 256
  entries to pass through its hand has room in the second table; they are described by a sequence of
  their own, and on failure the 257th is the one lost. Over every run the cache is a sub-map of an
  unbounded cache, so a hit is never stale.
* **Shards.** Shard choice and first-table bucket share a hash, so a shard of the engine's cache
  holds at most 4160 keys although its storage has room for 7372, and the whole cache at most 266240;
  CLOCK first runs after at least 3212 entries of a shard have been orphaned.
* **B-tree.** Insertion is sorted insertion into the in-order sequence, keeps strict order, occupancy
  and equal leaf depth; membership is exact; the height is logarithmic.
* **Engine.** In every run, whatever the cache drops and whenever the queue is full, disk, batch and
  queue add up to the fold of all writes, the index lists the stored paths, and a clean reopen recovers
  both. While the cache drops no key with a write under way and the queue splits no destroy of a live
  version, every accepted request is answered as by an engine without cache or queue; in Immediate mode
  this holds with no condition at all. Each answer of that engine is characterised by what is stored, and
  in a run by the acknowledged requests before it: a version read gives the payload and time of the put
  that made the version, unless a later request deleted or destroyed it. Every crash point lists versions 1..n and misses no payload but
  that of a destroy it splits, through any number of crashes and reopens; the numbering needs no
  condition. Outside these conditions the promise fails, and `KvLimits` says exactly when: for a
  dropped key, for a queue with one free cell, and for a switch of the sync mode. The engine class runs
  on the sharded cuckoo table and the B-tree proved beside it, so what it drops is what that table
  drops. If every key a request inserts is cached or has room at home, which can be told before the
  call, nothing is dropped. If more paths are put to one shard than it can hold, all but 4160 of them
  are answered as if nothing had been put, and every pair of hashes has such paths.
* **Dates.** The computed date is the Gregorian one for every day number, and the text is a valid
  RFC 3339 date-time denoting the input exactly when the year has four digits.
* **Merge patch.** The in-place loop computes the function of section 2 of RFC 7396 in any member
  order, is idempotent and adds no null member.

Where the code and its comments or handlers disagree, the model follows the code. The DELETE handler
(`src/server/http_handler.rs:353`) asks the engine to soft-delete version 0; no version has that
number, so `DeleteLatestNeverWorks` holds. The ring's assertion asks for a power-of-two capacity; one is
a power of two and is not safe. The ring is called lock-free, but a failed compare-and-swap does not
reload the position (`src/engine/lock_free_queue.rs:67-83`), so a thread that lost its ticket spins until
the winner has finished with the cell; `LoserSpins` reaches such a state.

## Modelling notes

* The two SipHash functions are uninterpreted functions from keys to naturals. `usize` is 64 bits, so
  the sum that picks a displacement victim may wrap; wrapping at a multiple of 8 does not change it
  modulo 8.
* Each cuckoo operation runs under its lock and is atomic. `max_capacity` 0 is allowed: then, and only
  then, allocation fails.
* Serialised metadata and payloads are values; the codec is a pair of functions of the engine object
  that loses nothing.
* Requests to the engine are serialised, and worker turns fall between them. While the engine is
  coherent no answer to a read depends on how far the worker is (`TurnsBetweenReads`), and nothing is
  read from disk after a request's first write, so a turn in the middle of a request has the effect of
  one before or after it. In a state that is not coherent it may have another; that is left out.
* The engine's queue is a sequence of at most 262144 writes. `RingCarriesOpen` is the reason: from a new
  ring, through every schedule in which only the worker dequeues, the ring accepts, hands over and
  reports Full as that sequence does.
* In `KvModel` the clock and the keys the cache drops at each insert are parameters (`Env`).
  `Possible` is an upper bound on the drops, and `KvEngine` proves it of the drops of its cache.
* Disk writes and batch applications succeed. Version numbers, ring positions and durations are
  unbounded.

## Model
| member | source | states |
|---|---|---|
| LockFreeQueue.MaskIsMod | src/engine/lock_free_queue.rs:58-63 | for a power-of-two capacity, masking a position picks the cell of the modelled slot function |
| LockFreeQueue.SlotsDiffer | src/engine/lock_free_queue.rs:58-63 | two positions less than a lap apart use different cells |
| LockFreeQueue.WinEnqueue | src/engine/lock_free_queue.rs:67-73 | winning a ticket keeps the ring invariant, and the previous lap's ticket was released before |
| LockFreeQueue.WinDequeue | src/engine/lock_free_queue.rs:100-106 | claiming a published ticket keeps the ring invariant |
| LockFreeQueue.OwnerAccess | src/engine/lock_free_queue.rs:74-110 | writing or reading the owned cell keeps the ring invariant for every other thread |
| LockFreeQueue.Publish | src/engine/lock_free_queue.rs:79-80 | the publishing store keeps the ring invariant |
| LockFreeQueue.Release | src/engine/lock_free_queue.rs:111-112 | the releasing store keeps the ring invariant and adds one delivery: the ticket with the item sent under it |
| RingTheorems.StepInv | src/engine/lock_free_queue.rs:57-120 | every shared-memory access of every thread keeps the ring invariant |
| RingTheorems.SafeIffTwoCells | src/engine/lock_free_queue.rs:40-120 | all reachable states are safe (single owner per cell, no overwrite, no unwritten read, head and tail within a lap) if and only if there are at least two cells |
| RingTheorems.CapacityOneOverwrites | src/engine/lock_free_queue.rs:41-80 | with one cell a second enqueue wins a ticket while the first item is unread |
| RingTheorems.TicketConservation | src/engine/lock_free_queue.rs:57-120 | a won ticket is being written, waiting, being read or delivered, exactly one of these, and is delivered at most once with the item sent under it |
| RingTheorems.FullIffUnreleased | src/engine/lock_free_queue.rs:60-86 | enqueue reports Full exactly when its position is the tail and the ticket one lap before is unreleased |
| RingTheorems.EmptyIffUnpublished | src/engine/lock_free_queue.rs:93-118 | dequeue reports Empty exactly when its position is the head and that ticket is unpublished |
| RingTheorems.SingleConsumerFifo | src/engine/lock_free_queue.rs:90-120 | a lone consumer receives exactly the prefix of the items in ticket order |
| RingTheorems.DrainReturnsUndelivered | src/engine/lock_free_queue.rs:90-127 | from all threads idle, one thread that dequeues until it is told Empty has emptied the ring and was handed exactly the undelivered items in ticket order |
| RingTheorems.EmptyMeansDrained | src/engine/lock_free_queue.rs:93-127 | with no enqueue in progress, Empty means every item sent is claimed |
| RingTheorems.ConsumerOrder | src/engine/lock_free_queue.rs:90-120 | with any number of consumers, each one's dequeues return in ticket order what was sent under those tickets, and no ticket is delivered twice |
| RingTheorems.RingIsBoundedFifo | src/engine/lock_free_queue.rs:57-120 | with one consumer the contents change only by an append on a won ticket and the removal of the oldest item on a release, and enqueue reports Full exactly when the contents fill the ring |
| RingProgress.SoloEnqueue | src/engine/lock_free_queue.rs:57-88 | from every reachable state an enqueue that does not spin returns within seven accesses of its own: its item is sent under the next ticket and published, or the ring was full and nothing changed |
| RingProgress.SoloDequeue | src/engine/lock_free_queue.rs:90-120 | the same for dequeue: the item of its ticket or of the head is delivered and the cell freed for the next lap, or the head was unpublished and nothing changed |
| RingProgress.ReturnsIff | src/engine/lock_free_queue.rs:57-120 | some schedule of a thread's own accesses makes it return exactly when it does not hold a position whose ticket another thread won and is still writing or reading |
| RingProgress.WinnerEndsSpin | src/engine/lock_free_queue.rs:74-112 | at most two accesses of that other thread end the spin |
| RingProgress.LoserSpins | src/engine/lock_free_queue.rs:64-83 | with two cells and two threads a state is reached in which an enqueue cannot return by itself although a cell is free |
| CuckooModel.FindKey | src/engine/cuckoo_table.rs:201-214 | the bucket scan returns a slot with tag and key, or there is none |
| CuckooModel.FindIndex | src/engine/cuckoo_table.rs:291-304 | the bucket scan returns a slot holding the index, or there is none |
| CuckooModel.NextMove | src/engine/cuckoo_table.rs:333-369 | a free slot of the first bucket is taken first, then one of the second; only when both are full is a resident of the first bucket swapped out |
| CuckooTheorems.ClockFindsVictim | src/engine/cuckoo_table.rs:262-279 | the sweep finds a victim within capacity + 1 steps: the first unreferenced entry in circular order, or the one at the hand; only bits passed over are cleared |
| CuckooTheorems.UnslotExact | src/engine/cuckoo_table.rs:281-313 | evicting an index empties the slot that holds it in either table and leaves every other slot position as it was |
| CuckooTheorems.AllocateSound | src/engine/cuckoo_table.rs:234-327 | allocation yields an index out of every slot and off the free list, evicting at most the CLOCK victim; it fails exactly in a table of no capacity |
| CuckooTheorems.Kick | src/engine/cuckoo_table.rs:360-371 | a kick exchanges the entry in hand with a resident whose first bucket is the same |
| CuckooTheorems.DisplaceSound | src/engine/cuckoo_table.rs:329-377 | the displacement loop keeps the invariant and ends with every entry in a slot, or all but one |
| CuckooTheorems.DisplaceOneBucket | src/engine/cuckoo_table.rs:329-372 | a chain of any length permutes one bucket of the first table, displaces nothing from the second and fills at most one empty slot |
| CuckooTheorems.LocateExact | src/engine/cuckoo_table.rs:394-423 | the two bucket scans find a key exactly when it is live |
| CuckooTheorems.TagIsHighWord | src/engine/cuckoo_table.rs:185-188 | the tag of a 64-bit hash is its high word, or 1 where that is 0 |
| CuckooTheorems.InsertView | src/engine/cuckoo_table.rs:190-379 | insert leaves the old map less at most the CLOCK victim with the key bound; it answers false exactly when one more key was lost |
| CuckooTheorems.InsertAccounting | src/engine/cuckoo_table.rs:234-378 | the new index joins the slotted set; a failed insert turns exactly one index of the enlarged set into an orphan |
| CuckooTheorems.RoomKeepsAll | src/engine/cuckoo_table.rs:190-358 | an insert of a live key, or of one with an empty slot in its two buckets while storage is left, drops nothing and uses up room for at most one entry of any key; both can be told before the call |
| CuckooTheorems.RemoveRoom | src/engine/cuckoo_table.rs:428-480 | a removal leaves every key at least the room it had |
| CuckooTheorems.LookupView | src/engine/cuckoo_table.rs:381-426 | lookup answers the map, marks the key's entry as referenced and changes nothing else |
| CuckooTheorems.JustReadSurvives | src/engine/cuckoo_table.rs:262-279 | a key just read is not the one the next allocation evicts while another entry is unreferenced |
| CuckooTheorems.RemovedIsReused | src/engine/cuckoo_table.rs:234-241 | the storage index a removal frees is the one the next allocation takes |
| CuckooTheorems.RemoveView | src/engine/cuckoo_table.rs:428-480 | remove answers whether the key was live, deletes it, creates no orphan and never overflows the free list |
| CuckooTheorems.OccupancyBound | src/engine/cuckoo_table.rs:247-251 | live and free indices together never exceed the storage in use |
| CuckooTheorems.AllEntriesExact | src/engine/cuckoo_table.rs:482-503 | the dump lists every live entry exactly once |
| CuckooTheorems.NewValid | src/engine/cuckoo_table.rs:91-168 | a new table is valid and empty, with room for at least one entry if one was requested |
| CuckooTheorems.DoSound | src/engine/cuckoo_table.rs:190-480 | every operation keeps the invariant and shows nothing an unbounded cache would not |
| CuckooTheorems.RunNeverStale | src/engine/cuckoo_table.rs:190-480 | over every run the cache is a sub-map of the unbounded cache fed the same operations |
| CuckooChain.DisplaceExact | src/engine/cuckoo_table.rs:329-378 | the displacement loop puts the entry in the first empty slot of its first bucket; else the first of 256 hands with an empty slot in its second bucket takes the first such slot; else hand 256 is dropped, where hand i + 1 is what lay in the bucket at (h1 of hand i + index of hand i + i) mod 8 |
| CuckooChain.InsertExact | src/engine/cuckoo_table.rs:190-379 | insert of a new key answers true exactly when, its entry being allocated, its first bucket has an empty slot or one of the first 256 hands has one in its second bucket; on false the key of hand 256 is lost |
| CuckooChain.InsertMarks | src/engine/cuckoo_table.rs:206-327 | an insert that answers true leaves the key's entry with the new payload and marked as referenced |
| CuckooTable.CuckooTable.constructor | src/engine/cuckoo_table.rs:91-168 | allocates separate buffers holding the empty table |
| CuckooTable.CuckooTable.SweepClock | src/engine/cuckoo_table.rs:262-279 | the loop over the arena is the modelled sweep |
| CuckooTable.CuckooTable.UnslotIndex | src/engine/cuckoo_table.rs:281-313 | empties the victim's slot in place as modelled |
| CuckooTable.CuckooTable.AllocateEntry | src/engine/cuckoo_table.rs:234-327 | takes an index from the free list, unused storage or eviction as modelled |
| CuckooTable.CuckooTable.DisplaceSlot | src/engine/cuckoo_table.rs:329-378 | the in-place loop of up to 256 kicks is the modelled displacement |
| CuckooTable.CuckooTable.Insert | src/engine/cuckoo_table.rs:190-379 | in-place insert: keeps the table valid, the map becomes a sub-map of the old one with the key bound, and true means the key is bound |
| CuckooTable.CuckooTable.Lookup | src/engine/cuckoo_table.rs:381-426 | answers the map and leaves it unchanged |
| CuckooTable.CuckooTable.Remove | src/engine/cuckoo_table.rs:428-480 | deletes the key from the map and says whether it was there |
| CuckooTable.CuckooTable.GetAllEntries | src/engine/cuckoo_table.rs:482-503 | returns every live entry exactly once |
| ShardedCuckooTable.ShardIndexIsMask | src/engine/sharded_cuckoo_table.rs:29-34 | the masked hash is the shard number used in the model |
| ShardedCuckooTable.ShardCapacity | src/engine/sharded_cuckoo_table.rs:14-34 | when the bucket count is a multiple of 64, a shard fills only first-table buckets congruent to its number and holds at most 8 * (size / 64) + 8 * size keys |
| ShardedCuckooTable.EngineEvictsOnlyAfterOrphans | src/engine/kv_engine.rs:54 | in the engine's cache a shard holds at most 4160 keys, and is full only with at least 3212 orphans |
| ShardedCuckooTable.EngineCacheBound | src/engine/kv_engine.rs:54 | all shards of the engine's cache together hold at most 266240 keys |
| ShardedCuckooTable.ShardsDisjoint | src/engine/sharded_cuckoo_table.rs:36-58 | no key is in two shards |
| ShardedCuckooTable.InsertShard | src/engine/sharded_cuckoo_table.rs:41-43 | routing an insert keeps the shards disjoint and changes the one map as the shard's insert changes its own: less at most the CLOCK victim, with the key bound, less one further key exactly on failure |
| ShardedCuckooTable.RemoveShard | src/engine/sharded_cuckoo_table.rs:56-58 | routing a removal deletes the key from the one map |
| ShardedCuckooTable.LookupShard | src/engine/sharded_cuckoo_table.rs:45-54 | routing a lookup answers the one map |
| ShardedCuckooTable.InsertRoom | src/engine/sharded_cuckoo_table.rs:41-43 | an insert into the sharded cache of a held key, or of one with room at home, drops nothing from any shard and uses up room for one entry at most |
| ShardedCuckooTable.InsertSpares | src/engine/sharded_cuckoo_table.rs:41-43 | keys that are held or have room for n + 1 entries are, after the insert of one of them, held or have room for n |
| ShardedCuckooTable.NewFits | src/engine/sharded_cuckoo_table.rs:14-27 | a new cache has room for sixteen entries wherever a key is at home |
| ShardedCuckooTable.ShardedCuckooTable.constructor | src/engine/sharded_cuckoo_table.rs:14-27 | 64 separate empty tables of the computed size |
| ShardedCuckooTable.ShardedCuckooTable.Insert | src/engine/sharded_cuckoo_table.rs:41-43 | updates one shard in place and no other; the one map loses at most the CLOCK victim and, exactly on failure, one further key; it loses nothing if the key was held or had room |
| ShardedCuckooTable.ShardedCuckooTable.Lookup | src/engine/sharded_cuckoo_table.rs:45-54 | answers the one map and leaves it unchanged |
| ShardedCuckooTable.ShardedCuckooTable.Remove | src/engine/sharded_cuckoo_table.rs:56-58 | deletes the key and says whether it was there |
| ShardedCuckooTable.ShardedCuckooTable.GetAllEntries | src/engine/sharded_cuckoo_table.rs:60-66 | every live entry of every shard exactly once |
| ShardedCuckooTable.ShardedCuckooTable.HoldsAtMost | src/engine/kv_engine.rs:54 | the capacity bound holds of the cache object at any time |
| ShardedCuckooTable.ShardedCuckooTable.ShardHoldsAtMost | src/engine/kv_engine.rs:54 | however many keys route to a shard, at most 4160 of them are held at any time |
| BTreeIndex.SortedInsertSorted | src/engine/btree_index.rs:36-52 | the reference insertion keeps strict order |
| BTreeIndex.SortedInsertElements | src/engine/btree_index.rs:36-52 | the reference insertion adds exactly the new path |
| BTreeIndex.SortedUnique | src/engine/btree_index.rs:58-62 | two strictly sorted listings of the same paths are equal, so the index does not depend on insertion order |
| BTreeIndex.SplitInorder | src/engine/btree_index.rs:133-158 | a split leaves the in-order sequence unchanged |
| BTreeIndex.SplitTree | src/engine/btree_index.rs:133-158 | a split keeps occupancy and equal leaf depth |
| BTreeIndex.SplitChild | src/engine/btree_index.rs:133-158 | moving keys and children one at a time yields the two halves around the middle key |
| BTreeIndex.ContainsPath | src/engine/btree_index.rs:78-95 | the walk answers exact membership in the subtree |
| BTreeIndex.InsertIntoKeys | src/engine/btree_index.rs:104-111 | shifting the greater keys performs the sorted insertion |
| BTreeIndex.ChildIndex | src/engine/btree_index.rs:113-116 | the chosen child is the one whose neighbouring keys bracket the path |
| BTreeIndex.InsertNonFull | src/engine/btree_index.rs:97-131 | insertion below a node is sorted insertion into its in-order sequence and keeps the tree shape |
| BTreeIndex.CollectPaths | src/engine/btree_index.rs:64-76 | appends the in-order sequence of the subtree |
| BTreeIndex.NodeSize | src/engine/btree_index.rs:22-34 | a node with m keys at height h has at least (m + 1) * t^h - 1 paths below it |
| BTreeIndex.BTreeIndex.constructor | src/engine/btree_index.rs:29-34 | an empty valid index |
| BTreeIndex.BTreeIndex.ValidatePath | src/engine/btree_index.rs:54-56 | exact membership |
| BTreeIndex.BTreeIndex.InsertPath | src/engine/btree_index.rs:36-52 | the listing becomes its sorted insertion with the path, or stays when the path is there; order, occupancy and depth are kept |
| BTreeIndex.BTreeIndex.GetAllPaths | src/engine/btree_index.rs:58-62 | the sorted listing |
| BTreeIndex.BTreeIndex.HeightBound | src/engine/btree_index.rs:36-52 | a non-empty index of height h holds at least 2 * t^h - 1 paths |
| KvModel.KeysDisjoint | src/engine/kv_engine.rs:185-191 | a metadata key is never a payload key |
| KvModel.VersionKeyInjective | src/engine/kv_engine.rs:189-191 | path and version are determined by the payload key, whatever the path contains |
| KvTheorems.ReadCoherent | src/engine/kv_engine.rs:102-125 | a read through cache and disk returns the logical value, and refilling the cache keeps it coherent |
| KvTheorems.ReadRightIff | src/engine/kv_engine.rs:102-125 | a read returns the logical value exactly when the key is cached or the disk has caught up with it |
| KvTheorems.WriteLogical | src/engine/kv_engine.rs:127-147 | a write changes the logical store by exactly that operation, in either mode |
| KvTheorems.ReadMetaRight | src/engine/kv_engine.rs:206-214 | metadata reads answer as the cacheless engine and never meet a value of the wrong kind |
| KvTheorems.ReadVersionRight | src/engine/kv_engine.rs:216-288 | version reads answer as the cacheless engine |
| KvTheorems.PutRight | src/engine/kv_engine.rs:290-353 | a put answers and stores as the cacheless engine, or is turned away leaving a store no reader can tell from the old one |
| KvTheorems.ChangeRight | src/engine/kv_engine.rs:355-424 | soft delete and undelete answer and store as the cacheless engine |
| KvTheorems.DestroyRight | src/engine/kv_engine.rs:426-462 | destroy answers and stores as the cacheless engine although the cached payload goes before the delete reaches disk |
| KvTheorems.StepWrote | src/engine/kv_engine.rs:290-462 | each request writes payload before metadata, or the delete before metadata, and otherwise touches only cache and index |
| KvTheorems.StepRefines | src/engine/kv_engine.rs:102-462 | one request in either mode, unless it drops a key with a write under way or the queue splits the destroy of a live version, keeps the engine coherent and gives the cacheless engine's answer and store, or QueueFull and an indistinguishable store |
| KvQueue.RingCarriesQueue | src/engine/kv_engine.rs:68-77 | through every action of every thread the ring holds exactly the engine's queued writes: a won ticket is an accepted write, a release is the worker taking the oldest one, and Full is reported at the tail exactly when the engine's write finds no room |
| KvQueue.RingCarriesRun | src/engine/kv_engine.rs:68-77 | the same through every schedule in which only the worker dequeues |
| KvQueue.RingCarriesOpen | src/engine/kv_engine.rs:56-77 | and such a schedule may start at a new ring and an engine just opened |
| KvRuns.TurnKeeps | src/engine/kv_engine.rs:517-545 | a worker turn, with or without a flush, leaves the logical store unchanged |
| KvRuns.ShutdownDrains | src/engine/kv_engine.rs:547-560 | after the shutdown drain the disk is the logical store and nothing is under way |
| KvRuns.SameStep | src/engine/kv_engine.rs:206-462 | stores that no reader can tell apart give the same answers to every request and stay so |
| KvRuns.RunRefines | src/engine/kv_engine.rs:102-545 | over any kept run the accepted requests are answered exactly as by the cacheless engine, whose store no reader can tell from the logical store; they are equal if nothing was turned away |
| KvRuns.DirectStep | src/engine/kv_engine.rs:102-462 | in Immediate mode one request answers and writes as the cacheless engine, whatever the cache drops |
| KvRuns.ImmediateIsCacheless | src/engine/kv_engine.rs:102-147 | over any run in Immediate mode, from any disk and whatever the cache evicts or loses, every answer is the cacheless engine's |
| KvRuns.RunLogged | src/engine/kv_engine.rs:509-561 | in every run disk, batch and queue add up to the in-order fold of all writes, and a shutdown leaves that fold on disk |
| KvRuns.LogicalIsFoldOfWrites | src/engine/kv_engine.rs:48-561 | the same from any opened disk, with the disk the fold of a prefix of the writes |
| KvRuns.StepIndexed | src/engine/kv_engine.rs:321-350 | every request keeps the path index equal to the paths of the logical store, whatever the cache drops and however full the queue is |
| KvRuns.CleanReopen | src/engine/kv_engine.rs:48-202 | after any run of any opened disk, drop and reopen recover the fold of all writes and rebuild the same path index |
| KvLifecycle.RefStepOk | src/engine/kv_engine.rs:216-462 | every request keeps version ids exactly 1..current and opens no payload gap |
| KvLifecycle.MissingIffGap | src/engine/kv_engine.rs:265-287 | a version read reports a missing payload exactly when it is let through to a live version whose payload is gone |
| KvLifecycle.RefCur | src/engine/kv_engine.rs:312-319 | the version counter rises by one exactly on a successful put to the path |
| KvLifecycle.RefKeepsDestroyed | src/engine/kv_engine.rs:290-462 | no request brings a destroyed version back |
| KvLifecycle.DestroyedUnreadable | src/engine/kv_engine.rs:229-397 | a destroyed version is refused to reads by number, to reads of the latest version and to undelete |
| KvLifecycle.Lifecycle | src/engine/kv_engine.rs:216-462 | over any run the counter counts the successful puts and destroyed versions stay destroyed |
| KvLifecycle.CasExact | src/engine/kv_engine.rs:303-310 | a put with an expected version succeeds exactly when that is the current version |
| KvLifecycle.CasAtMostOnce | src/engine/kv_engine.rs:303-312 | in one run at most one put per path and expected version succeeds |
| KvLifecycle.CasCounted | src/engine/kv_engine.rs:303-312 | the successful puts that expect a version number at most one, and none once the counter has passed that version |
| KvLifecycle.RunLifecycle | src/engine/kv_engine.rs:102-545 | of the engine's own answers in a kept run, requests turned away included: the counter in the logical store grows by exactly the puts acknowledged, at most one put per expected version is acknowledged, destroyed versions stay destroyed |
| KvLifecycle.SoftDeleteExact | src/engine/kv_engine.rs:355-370 | a soft delete succeeds exactly for a version between 1 and the current one |
| KvLifecycle.DeleteLatestNeverWorks | src/server/http_handler.rs:343-355 | deleting version 0, as the handler asks, always fails and changes nothing |
| KvAnswers.ReadExact | src/engine/kv_engine.rs:216-288 | a version read answers Data exactly when the version asked for, or the latest for 0, is listed, neither destroyed nor deleted, with the stored payload and state; NotFound, InvalidVersion, Destroyed, SoftDeleted and the missing payload each exactly in their own case |
| KvAnswers.MetadataExact | src/engine/kv_engine.rs:206-214 | a metadata read answers the stored metadata or NotFound |
| KvAnswers.PutExact | src/engine/kv_engine.rs:290-353 | a put succeeds exactly on the expected version, appends one fresh state, stores one payload and leaves every earlier state, every other field and every other key as it was; otherwise it reports both versions and changes nothing |
| KvAnswers.PutAnswers | src/engine/kv_engine.rs:290-353 | after an acknowledged put the new version is answered by number and as the latest, and every read of an earlier version and of another path answers as before |
| KvAnswers.ChangeExact | src/engine/kv_engine.rs:355-462 | soft delete, undelete and destroy succeed exactly on a listed version (undelete: not a destroyed one) and mark its state alone, destroy also removing its payload; each error exactly in its own case, changing nothing |
| KvAnswers.SoftDeleteAnswers | src/engine/kv_engine.rs:355-370 | an acknowledged soft delete makes the version's reads answer SoftDeleted, by number and as the latest, exactly when its time is after the epoch |
| KvAnswers.UndeleteAnswers | src/engine/kv_engine.rs:386-424 | an acknowledged undelete makes the version's reads answer its payload, or report it missing |
| KvAnswers.UndeleteInverts | src/engine/kv_engine.rs:355-424 | undelete after a soft delete of a readable version restores the store |
| KvAnswers.DestroyAnswers | src/engine/kv_engine.rs:426-462 | an acknowledged destroy makes the version's reads answer Destroyed and removes its payload |
| KvAnswers.ChangeLeavesOthers | src/engine/kv_engine.rs:355-462 | soft delete, undelete and destroy leave every read of every other version and path as it was |
| KvAnswers.HistoryAnswers | src/engine/kv_engine.rs:206-462 | over any run each version read is the one the acknowledged requests before it determine |
| KvAnswers.RunAnswers | src/engine/kv_engine.rs:102-545 | the same of the accepted version reads of a kept run of the engine |
| KvAnswers.StepMeans | src/engine/kv_engine.rs:102-462 | a kept request of the engine that is not turned away has answer and effect as these lemmas say of its logical store |
| KvCrash.StepCuts | src/engine/kv_engine.rs:321-348 | a request adds only crash points that are consistent but for a split destroy |
| KvCrash.CrashConsistent | src/engine/kv_engine.rs:290-561 | after any kept run every crash point lists versions 1..n with payloads for all live versions, except the gaps of the start and the one version whose destroy it splits; the disk is such a point, and no point is ahead of the logical store |
| KvCrash.OpenStarts | src/engine/kv_engine.rs:48-88 | any disk with numbered versions, gaps included, opens into a state from which the run theorems apply |
| KvCrash.BoundedLoss | src/engine/kv_engine.rs:57-545 | in every run the disk holds all but the last 263167 writes at most |
| KvCrash.NumberedAlways | src/engine/kv_engine.rs:290-561 | in every run, whatever the cache drops and however the queue splits a destroy, every crash point lists versions 1..n |
| KvCrash.CrashChain | src/engine/kv_engine.rs:48-561 | through any number of openings, kept runs and crashes the disk keeps numbered versions and each crash adds at most one gap |
| KvCrash.RecoveredNumbered | src/engine/kv_engine.rs:48-561 | that numbering survives any number of crashes and reopens, whatever the runs between them met |
| KvLimits.AckVisibleIff | src/engine/kv_engine.rs:290-462 | an acknowledged put, delete, undelete or destroy shows in the next metadata read exactly when its last cache insert did not drop the metadata key or the disk holds the new metadata already |
| KvLimits.PutVisibleIff | src/engine/kv_engine.rs:337-348 | for a put in Batch mode the drop alone decides, because the disk is never ahead |
| KvLimits.StoreOne | src/engine/kv_engine.rs:290-560 | a put to an empty engine and a clean shutdown leave exactly its payload and metadata on disk |
| KvLimits.HalfDestroyExact | src/engine/kv_engine.rs:443-451 | a request leaves a well-formed store well formed exactly unless it destroys a live version with one free cell left in the queue |
| KvLimits.HalfDestroyLosesPayload | src/engine/kv_engine.rs:443-451 | after such a destroy a clean reopen still lists the version as it was, and a read that was answered before reports a missing payload |
| KvLimits.QueueFills | src/engine/kv_engine.rs:127-147 | for every level up to the capacity there is a kept run that fills the queue to it and leaves the one stored version live and readable; one short of full, the next destroy is split |
| KvLimits.HalfDestroyReached | src/engine/kv_engine.rs:426-561 | from an opened disk with one version a run reaches the split: the version reads, its destroy is turned away, and after a clean reopen it is listed and its payload is missing |
| KvLimits.SwitchInOrderIff | src/engine/kv_engine.rs:90-147 | a write made directly to disk while others are under way takes effect in order exactly when none of them has its key or the last of them leaves the key as it would |
| KvLimits.ModeSwitchReorders | src/engine/kv_engine.rs:90-147 | so after a switch to Immediate new metadata for a path with metadata under way is overwritten by the older one |
| KvEngine.MarkVersion | src/engine/kv_engine.rs:359-441 | the loop over versions is the modelled change, whose meaning `ChangeExact` states |
| KvEngine.CheckAccess | src/engine/kv_engine.rs:229-263 | the scan is the modelled access check, whose meaning `ReadExact` states |
| KvEngine.KvEngine.constructor | src/engine/kv_engine.rs:48-88 | opens a disk over a new sharded cache and a B-tree rebuilt from the metadata keys in any order, establishing the engine invariant, with room for any request |
| KvEngine.KvEngine.ReadRawOptimistic | src/engine/kv_engine.rs:102-125 | the answer is the logical value exactly when the key is cached or the disk has caught up, always if the cache is coherent; a refill drops at most two keys, none if the key had room, and keeps coherence if it spares the writes under way |
| KvEngine.KvEngine.EnqueueOrExecute | src/engine/kv_engine.rs:127-147 | succeeds exactly in Immediate mode or with a free queue cell, and then changes the logical store by exactly the operation; otherwise nothing changes |
| KvEngine.KvEngine.ReadMetadata | src/engine/kv_engine.rs:206-214 | keeps the engine invariant; while the engine is coherent, or in Immediate mode, the answer is the cacheless engine's; nothing is dropped if the keys the request inserts were cached or had room |
| KvEngine.KvEngine.ReadVersion | src/engine/kv_engine.rs:216-288 | the same for version reads, whose answer then meets `ReadAnswer` over the logical store |
| KvEngine.KvEngine.PutVersion | src/engine/kv_engine.rs:290-353 | keeps the engine invariant, so the log folds to the store and the index lists its paths; under the kept condition, or in Immediate mode, answer and store are the cacheless engine's and meet `PutAnswer` over the logical store; if the keys it inserts were cached or had room before the call, nothing is dropped and a coherent engine needs no further condition |
| KvEngine.KvEngine.ChangeMetadata | src/engine/kv_engine.rs:355-424 | the same for soft delete and undelete, with the effect `ChangeAnswer` states on the logical store |
| KvEngine.KvEngine.DestroyVersion | src/engine/kv_engine.rs:426-462 | the same for destroy |
| KvEngine.RoomyAckVisible | src/engine/kv_engine.rs:290-462 | where there was room before the call, an acknowledged write is what the next metadata read shows |
| KvEngine.KvEngine.ChangeSyncMode | src/engine/kv_engine.rs:90-92 | changes the mode alone; the engine stays valid exactly when the new mode is Batch or nothing is queued or batched |
| KvEngine.TurnsBetweenReads | src/engine/kv_engine.rs:216-288 | in a coherent state any number of worker turns between the two reads of a version read leave its answer the cacheless engine's |
| KvEngine.TurnsCatchUp | src/engine/kv_engine.rs:517-545 | as many worker turns as writes are queued, the last past the flush interval, leave nothing under way and the logical store on disk |
| KvEngine.KvEngine.AsyncWorkerLoop | src/engine/kv_engine.rs:509-561 | any number of worker turns followed by the drain leave nothing under way and the fold of every write since open on disk |
| KvEngine.KvEngine.CacheBound | src/engine/kv_engine.rs:54 | at most 266240 keys are cached at any time |
| KvEngine.KvEngine.IndexHeight | src/engine/kv_engine.rs:55 | the engine's path index of height h holds at least 2 * 3^h - 1 paths |
| KvEngine.KvEngine.CachePerShard | src/engine/kv_engine.rs:54 | at most 4160 of the keys that route to a shard are cached at any time |
| KvFailures.PutFills | src/engine/kv_engine.rs:290-353 | with the worker asleep and room in the queue, a put to a path not put to before is acknowledged and counted in the logical store, whatever the cache drops |
| KvFailures.Overload | src/engine/kv_engine.rs:102-353 | on an engine just opened on any well-formed disk, puts to distinct paths of one shard are all acknowledged, and then all but 4160 of the paths are answered as the disk of before: not found, or the old metadata |
| KvFailures.Crowded | src/engine/sharded_cuckoo_table.rs:29-34 | whatever the hashes, some shard is home to the metadata keys of any number of distinct paths |
| KvFailures.EveryEngineOverloads | src/engine/kv_engine.rs:48-353 | so for every pair of hashes and every well-formed disk, 4161 acknowledged puts leave a path whose metadata read does not show its put |
| KvFailures.StaleSurvivesFlush | src/engine/kv_engine.rs:102-125 | if a read of such a path keeps the old metadata it brought into the cache, the old metadata is still served after any worker turns and the drain, when the new one is on disk |
| KvFailures.DestroyTurnedAway | src/engine/kv_engine.rs:48-561 | for every pair of hashes the engine object, started on one stored version, reads it, turns its destroy away with a full queue, and after shutdown and reopen lists it and cannot read it |
| TimeFormat.YearOfEra | src/server/time_format.rs:21-24 | the year formula brackets the day of the era, with no underflow |
| TimeFormat.CivilCounts | src/server/time_format.rs:19-28 | for every day number the result is a valid Gregorian date whose day count is that number |
| TimeFormat.DayNumberInjective | src/server/time_format.rs:19-28 | no other date has that day count |
| TimeFormat.EpochMsToRfc3339Exact | src/server/time_format.rs:4-50 | the text is an RFC 3339 date-time exactly before the year 10000 and then denotes the input exactly; the early return for zero is the general result |
| TimeFormat.ParseVaultDuration | src/server/time_format.rs:55-94 | the single-pass scanner is the fold over the characters with its two errors |
| TimeFormat.DurationErrors | src/server/time_format.rs:63-94 | the invalid-character error is given exactly for a character that is neither digit nor unit, the missing-unit error exactly for other text that ends in a digit |
| TimeFormat.DurationField | src/server/time_format.rs:63-94 | a field of digits and a unit counts its number in that unit, and what follows it is parsed on its own |
| TimeFormat.DurationRoundTrip | src/server/time_format.rs:55-122 | parsing a printed duration gives back its whole seconds |
| TimeFormat.DurationFields | src/server/time_format.rs:98-122 | a printed duration has an hour, minute or second field exactly when that count is not zero, and a second field for a duration under one second |
| MergePatch.EmptyObjectIsAbsent | src/server/http_handler.rs:187-192 | inserting an empty object before the recursive merge equals merging into a missing member |
| MergePatch.JsonMergePatch | src/server/http_handler.rs:170-195 | the loop, in any member order, computes MergePatch of section 2 of RFC 7396 |
| MergePatch.MergeIdempotent | src/server/http_handler.rs:170-195 | applying a patch twice is applying it once |
| MergePatch.MergeAddsNoNull | src/server/http_handler.rs:183-193 | a target without null members has none after the merge |

## Left out
- AckVisibleIff: the exact condition names what the request's last insert drops, which the tables before the call determine but no shorter condition describes; `RoomyAckVisible` gives a sufficient condition on the tables before the call, and `Overload` runs in which the write is not visible.
- PutVisibleIff: as `AckVisibleIff`.
- StaleSurvivesFlush: whether a given refill keeps its key in a crowded shard is not decided; the lemma says what follows if it does.
- Linearizability of the ring: Empty can be reported while a later ticket is already published, so only the exact conditions for Full and Empty are stated.
- Weak memory in the ring: position loads may be stale, but sequence loads see the latest store, as their acquire and release ordering is meant to provide.
- Wrap-around of ring positions, version numbers and durations at their machine widths.
- BTreeIndex.InsertNonFull: nodes are values, since each node is owned by its parent's vector; minimum degrees 0 and 1 are not modelled (the engine uses 3).
- Worker turns in the middle of a request while the engine is not coherent.
- Interleaving of two requests: `put_version` holds no lock between its read and its write, so compare-and-set is claimed for serialised requests only.
- Runs that change the sync mode: `SwitchInOrderIff` is about one write, and the run theorems fix the mode.
- Failed disk writes and the batch that is dropped when applying it fails.
- The contents of the RocksDB backend, its flush and its write-ahead log; `src/storage/async_flusher.rs`, which repeats the worker loop over another channel.
- Custom metadata, which no code path sets, and `list_keys`, whose prefix filter has no segment boundary.
- Memory statistics, raw allocation and layout, routing, handlers other than the merge patch, the registry and the thread-local index wrapper.
- `strip_to_subkeys`, the query-string helpers and version-list parsing: they would only add easy members.
- Duplicate member names inside one JSON object.

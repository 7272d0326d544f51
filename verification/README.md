# memcached4chaos: a model of the cache engine and the thread pool

The cache engine keeps items in memory for clients that look them up by key.  It has four parts, and
this project models all four and what ties them together:

* a hash table with chains (`AssociativeArray`) that doubles by moving one old bucket at a time, under
  the cache lock, while finds, inserts and deletes go on in between;
* one doubly linked LRU queue for each slab class (`LRU_Lists`), with reference counts, lazy
  repositioning (60 seconds), a bounded search for an item to evict (50 items) and tail repair (three
  hours);
* a slab allocator (`SlabAllocator`) with a table of chunk sizes, free lists, the fresh end of the
  latest page and a memory limit;
* Bob Jenkins' lookup hash, in its little-endian form.

The thread pool (`threadpool`) is a separate, smaller model.

## How the project is laid out

| files | what they hold |
|---|---|
| `Basics` | what all models share |
| `Items` | constants, the item record as a value (`Item`) and as a chunk of memory (`HashItem`) |
| `Jenkins` | the hash: the mixing steps, a reference definition (`Value`), and the code with its three ways of reading the key |
| `SizeClasses`, `SlabModel`, `SlabProofs` | the table of chunk sizes; the allocator on values and what every operation keeps |
| `SlabAlloc` | the allocator as classes with arrays, proved against `SlabModel` |
| `Assoc`, `AssocRuns` | the hash table as a class; how long an expansion takes |
| `CacheModel` | the whole cache on values: what each operation does |
| `CacheEffects` | what unlink, release, update and the writing of a header do, field by field |
| `CacheInv`, `CacheOps`, `CacheAlloc`, `CacheEvict`, `CacheAllocProofs` | the invariants across table, queues, headers and allocator, and that every operation keeps them |
| `CacheExact`, `CacheOutcomes` | what an allocation evicts, returns and loses, and when it fails, read off the state before it; the same case by case, in numbers |
| `CacheMap` | the cache as a map from keys to items, and searches that find another key's item |
| `CacheRuns`, `CacheGuarantees`, `CacheShape`, `CacheChunks`, `CacheRefines` | runs of the cache under its callers, and what holds in all of them |
| `LruQueues`, `LruAnswers`, `Lru` | `LRU_Lists` as a class over the hash table, the allocator and its own arrays, proved against `CacheModel`; what the C library's answers decide in one allocation |
| `PoolModel`, `PoolProofs`, `PoolRuns`, `PoolSubmits`, `PoolDrain`, `ThreadPool` | the thread pool as an interleaving transition system, and as a class |

The three classes `SlabAlloc.SlabAllocator`, `Assoc.AssociativeArray` and `Lru.LruLists` follow the
source field by field.  Each method's contract gives the whole new state as a function of the old one
(for instance `c == Unlink(old(c), it, grow)`, where the ghost field `c` is tied to every real field by
`Rep`), and the lemmas about those functions are the properties listed below.  The assertions of the
source are assertions of these methods, so none of them can fail.  What the C library and the operating
system answer (`malloc`, `realloc`, `calloc`, `pthread_create`, the clock) are parameters; in the
functions on values, whether `realloc` can grow a free list is called `grow`, and what a request for a
page yields is a `Grant`.  In the classes the grant follows from the answers of `malloc` and `realloc` and
the state (`AnsweredBy`, `Determined`), so that they fix what a call evicts and whether it fails
(`AllocOutcome`).  What a definition computes that a method shares with its contract is also said without
it: on the fields of the classes, or in numbers (`Jenkins.LongAnswer`, `SizeClasses.TableExactly`,
`CacheEffects`, `CacheOutcomes`, `AssocRuns.TableDoubles`, `PoolSubmits`).

A run (`CacheRuns`, `CacheGuarantees`) is any sequence of public operations and of time passing.  A
world records, beside the cache, who holds which references, obtained when.  Callers use only what they
hold.  Tail repair revokes the references to the item that it takes; `ReferenceAgeBound` says how long a
reference is safe from that.

## Where the code does less than one may expect

* Lookup compares the hash value and as many bytes as the *searched* key has, not the stored key's
  length.  Every key is the beginning of a longer key with the same hash value (`Jenkins.Collide` computes
  it), so an item whose data begins with the right bytes is found under a key it was not stored under
  (`CacheMap.LongerKeyFindsShorter`), and a store under that key takes it out of the cache
  (`CacheMap.StoreUnlinksOther`).  `CacheMap.FindIsLookup` says exactly when a find is a lookup: when no
  stored item of another key length matches.  `CacheOps.StoreKeepsExactly` says exactly when a store keeps
  the invariants: when the item stored can be told from all others (`Distinguishable`, one direction of
  which the source itself asserts in `assoc_insert`); a run stores only such items.
  `CacheMap.IndistinguishableStore` gives the store that breaks them: under the longer key, of an item
  whose data differs.  The class `LruLists` asks only for what the source asserts, so it stores such an
  item too; `Valid` does not hold then, and of the two items the hash table finds and deletes the one
  that was inserted last (`Assoc.NewestIsFirst`).
* When `realloc` cannot grow a free list, the chunk that was to go there is lost.
  `CacheExact.ItemAllocExactly` says, from the state before the call, which items `do_item_alloc` evicts
  (two at most, by either search), whether it returns the chunk of each or loses it, and when it fails;
  `CacheChunks.NothingLostInRuns` says that nothing is lost while `realloc` works.
* Tail repair takes an item away from whoever has held it for too long.  10740 seconds are safe, 10741
  are not (`CacheGuarantees.AgeBoundIsTight`).
* The header keeps 16 bits of the key's length.  After a successful allocation the invariants hold exactly
  if the key is shorter than 65536 bytes (`CacheExact.ItemAllocKeepsExactly`).
* The reference count has 16 bits: a get keeps it exact if and only if fewer than 65535 references are held,
  and the next one makes it 0 (`CacheRuns.GetCountsExactly`); a store then frees the item it replaces
  although all of them are held (`CacheRuns.FullCountIsFreed`).
* A null routine given to the thread pool loses its task slot (`PoolRuns.NullRoutineLosesSlot`), for good
  (`PoolRuns.LostForGood`).
* The thread pool's destructor abandons the tasks that are queued (`PoolDrain.StopAbandonsQueue`).
* `hash_items`, `expanding`, `expand_bucket`, `mem_malloced` and `mem_base` are not initialised by the
  constructors; the model starts them at 0, false and null.

## Model

| member | source | states |
|---|---|---|
| Items.MatchBytes | src/cache/assoc.cpp:25-28 | an item matches a search if the hash values are equal and so are as many bytes as the searched key has; no lengths are compared |
| Jenkins.RotIsRotation | src/cache/hash.h:52 | `rot` is the rotation of a 32-bit word, by every amount the macros use |
| Jenkins.EmptyAnswers | src/cache/hash.c:13-43 | the hash of the empty key, for two initial values, as numbers |
| Jenkins.ShortAnswer | src/cache/hash.c:13-125 | the hash of a key of one byte, as a number |
| Jenkins.LongAnswer | src/cache/hash.c:13-125 | the hash of a key of thirty bytes, which goes through two mixed blocks and a partial one, as a number |
| Jenkins.MixBijective | src/cache/hash.h:9-62 | mixing is reversible: `Unmix` undoes it and it undoes `Unmix`, so no information is lost |
| Jenkins.FinalBijective | src/cache/hash.h:89-98 | the same for the final mixing |
| Jenkins.TripleBijective | src/cache/hash.c:13-125 | for a fixed key, the internal state at the end determines the state at the start, and conversely |
| Jenkins.OneBlockDifferenceSurvives | src/cache/hash.c:13-125 | two keys of one length that differ in exactly one 12-byte block end in different internal states |
| Jenkins.MixMacro | src/cache/hash.h:54-62 | the macro's assignments, in order, compute the invertible `Mix` |
| Jenkins.FinalMacro | src/cache/hash.h:89-98 | the macro's assignments, in order, compute the invertible `Final` |
| Jenkins.LastBlockByWords | src/cache/hash.c:28-43 | the 32-bit path adds exactly the bytes of the key, zero-padded, whatever lies behind the key |
| Jenkins.LastBlockByHalves | src/cache/hash.c:56-83 | the 16-bit path adds the same |
| Jenkins.LastBlockByBytes | src/cache/hash.c:104-119 | the byte path adds the same |
| Jenkins.WholeBlock | src/cache/hash.c:20-102 | all three paths add the same for every block but the last |
| Jenkins.Hash | src/cache/hash.c:9-125 | for every alignment the hash is one function of the key's bytes alone |
| Jenkins.Collide | src/cache/hash.c:13-125 | every key is the beginning of a longer key, by less than 24 bytes, with the same hash value |
| SizeClasses.TableIncreases | src/cache/slabs.cpp:20-35 | chunk sizes strictly increase, and all but the last are multiples of 8 |
| SizeClasses.TableExactly | src/cache/slabs.cpp:20-35 | the table entry by entry: 48 bytes and those for the smallest item first, then 5/4 of the size before, each rounded up to a multiple of 8, up to 4/5 of the maximum, and last the maximum itself |
| SizeClasses.PerslabPositive | src/cache/slabs.cpp:28-35 | every class's chunks are positive, at most a page, and a page holds at least one |
| SizeClasses.PowerLargestFits | src/cache/slabs.cpp:23-33 | for every configuration without wrap-around the largest class number is below 200, the number of LRU queues |
| SizeClasses.ClassForIsLeast | src/cache/slabs.hpp:59-69 | the class chosen is the least that fits; 0 exactly for requests of 0 or above the maximum |
| SizeClasses.WasteBound | src/cache/slabs.cpp:20-35 | a request of n bytes above the smallest class gets at most 5/4 (n-1) + 7 bytes, and in the last class under 25/16 (n-1) |
| SlabProofs.InitialOk | src/cache/slabs.cpp:3-35 | the constructor establishes the allocator's invariants |
| SlabProofs.InitialPages | src/cache/slabs.cpp:28-35 | a page of a class holds as many chunks as fit in it, and in the last class one |
| SlabProofs.AllocKeeps | src/cache/slabs.cpp:54-91 | allocation keeps every invariant; the chunk was not out and is the only one that goes out; a failure changes nothing that is out, free or charged |
| SlabProofs.FreeKeeps | src/cache/slabs.cpp:93-116 | freeing keeps every invariant and takes exactly that chunk back |
| SlabProofs.GiveKeeps | src/cache/slabs.cpp:103-116 | a chunk given back is on the free list, or lost, and lost exactly when the list is full and cannot grow |
| SlabProofs.TakeKeeps | src/cache/slabs.cpp:76-88 | the free list and the end of the page never hand out a chunk that is out or lost |
| SlabProofs.NewSlabKeeps | src/cache/slabs.cpp:118-155 | a new page for an empty class keeps every invariant and puts nothing out |
| SlabProofs.MemoryNew | src/cache/slabs.cpp:118-138 | `mem_malloced` counts all pages, and passes the limit by at most one page per class |
| SlabProofs.Conservation | src/cache/slabs.cpp:68-138 | `slabs * perslab` is the number of fresh, free, out and lost chunks together, and each chunk is exactly one of these |
| SlabProofs.ChunksDisjoint | src/cache/slabs.cpp:76-88 | no two chunks of any classes share a byte |
| SlabProofs.ChunkInPage | src/cache/slabs.cpp:114-133 | every chunk lies inside its page; with an 8-aligned size or one chunk a page, which CacheShape shows of every class, it is 8-aligned |
| CacheShape.ChunksAlignedInRuns | src/cache/slabs.cpp:24-35 | in every run every chunk of every page is 8-aligned and inside its page |
| CacheShape.PayloadInside | src/cache/const_types.h:34-48 | in every run the memory behind a live item's header of 48 bytes ends where its chunk does, and holds its key and data |
| CacheShape.WasteInRuns | src/cache/slabs.cpp:20-35 | in every run an item of n bytes above the smallest class takes at most 5/4 (n-1) + 7 bytes, and in the last class less than 25/16 (n-1) |
| SlabAlloc.SlabAllocator.constructor | src/cache/slabs.cpp:3-35 | the loop fills the table of sizes that the lemmas above are about |
| SlabAlloc.SlabAllocator.FillTable | src/cache/slabs.cpp:20-35 | the loop's table is `SizeClasses.Table` |
| SlabAlloc.SlabAllocator.SlabsClsid | src/cache/slabs.hpp:59-69 | the loop terminates, within the table, with the least class whose size fits; 0 exactly for requests of 0 or above the largest |
| SlabAlloc.SlabAllocator.DoSlabsAlloc | src/cache/slabs.cpp:54-91 | the fields change as `Alloc` says, for the grant that the answers of `malloc` and `realloc` make of the request; on the fields: the call succeeds exactly if there is a free slot, or a chunk at the end of the page, or a page can be had, and which chunk it returns; the assertion on the page pointer holds |
| SlabAlloc.SlabAllocator.DoSlabsNewslab | src/cache/slabs.cpp:118-155 | the fields change as `NewSlab` says; on the fields: the call succeeds exactly if the page list has or gets room, `malloc` answers, and there is no limit, or the page stays within it, or it is the class's first; the chunks of a new page are new and zero |
| SlabAlloc.SlabAllocator.DoSlabsFree | src/cache/slabs.cpp:93-116 | the fields change as `Free` says, also when the array of slots is replaced; on the fields: the chunk is in the last slot, unless the array is full and cannot grow |
| SlabAlloc.SlabClassT.Take | src/cache/slabs.cpp:76-88 | slots are last in, first out; the page pointer moves on by one chunk and becomes null at the end |
| SlabAlloc.SlabClassT.PutBack | src/cache/slabs.cpp:105-115 | a full slot array is doubled, or gets its first 16 slots, keeping its contents |
| SlabAlloc.SlabClassT.GrowSlabList | src/cache/slabs.cpp:142-155 | a full page list is doubled, or gets its first 16 entries, keeping its contents; it fails exactly if it is full and `realloc` does |
| Assoc.BucketSplits | src/cache/assoc.hpp:40-47 | after doubling, a bucket's items are in that bucket or in its image in the upper half |
| Assoc.PlacedPush | src/cache/assoc.cpp:39-47 | inserting keeps every item in the one chain `which_hashtable` selects |
| Assoc.PlacedCut | src/cache/assoc.cpp:56-67 | so does deleting |
| Assoc.PlacedExpand | src/cache/assoc.cpp:116-124 | so does starting an expansion |
| Assoc.PlacedMigrate | src/cache/assoc.cpp:80-100 | so does migrating one bucket, and after the last one the old table holds nothing |
| Assoc.AssociativeArray.Find | src/cache/assoc.cpp:17-31 | find returns a matching item of the table if there is one, the first of its chain, in every state of an expansion |
| Assoc.AssociativeArray.Insert | src/cache/assoc.cpp:33-54 | insert adds the item to the map, at the head of its chain, and counts it; for tables of up to 2^30 buckets it attempts an expansion exactly if none runs and there are more than three items for two buckets |
| Assoc.AssociativeArray.HashitemBefore | src/cache/assoc.cpp:146-160 | the place that points to the first match of the right chain, nothing before it matching, or to its end |
| Assoc.AssociativeArray.Delete | src/cache/assoc.cpp:56-72 | delete removes from the map the first matching item of its chain and nothing else; if none matches it changes nothing, and that is when the assertion at its end fails |
| Assoc.NewestIsFirst | src/cache/assoc.cpp:33-72 | of several items that match one search, the one inserted last is found, and is the one that is deleted |
| Assoc.AssociativeArray.WhereItHangs | src/cache/assoc.hpp:40-47 | every item hangs from the old table's bucket, its hash value modulo the old size, as long as that bucket has not been moved, and else from the primary table's, modulo the new size |
| Assoc.AssociativeArray.Expand | src/cache/assoc.cpp:116-144 | with memory and a thread: twice the buckets, the old table kept, no bucket moved yet; without either, the table as it was; the map is the same in all cases |
| Assoc.AssociativeArray.SplitBucket | src/cache/assoc.cpp:84-91 | old bucket b ends up split between buckets b and b + 2^p of the new table, item by item |
| Assoc.AssociativeArray.MaintenanceStep | src/cache/assoc.cpp:77-105 | one pass of the maintenance loop leaves the map as it is and moves on by one bucket; the loop ends when the last bucket has moved |
| AssocRuns.OneLoop | src/cache/assoc.cpp:74-144 | at most one maintenance loop runs at any time, and one exactly during an expansion |
| AssocRuns.ExpansionStarts | src/cache/assoc.cpp:116-130 | an attempt for which memory and thread can be had starts an expansion from 2^p to 2^(p+1) buckets |
| AssocRuns.ExpansionFails | src/cache/assoc.cpp:130-144 | any other attempt leaves the table at its size, with no loop |
| AssocRuns.MigrationGoesOn | src/cache/assoc.cpp:74-107 | an expansion from 2^p buckets is not over after fewer than 2^p passes, whatever else happens |
| AssocRuns.MigrationEnds | src/cache/assoc.cpp:74-107 | it is over at the end of the 2^p-th |
| AssocRuns.TableDoubles | src/cache/assoc.cpp:74-144 | so after a successful attempt the 2^p-th pass, and none before, ends the expansion, with 2^(p+1) buckets, whatever runs in between |
| CacheInv.FreshInv | src/cache/lru.cpp:4-15 | the new cache satisfies every invariant |
| CacheEffects.HashAnswer | src/cache/lru.hpp:64-73 | keys are hashed with the initial value 0: the hash value of a key of one byte, as a number |
| CacheEffects.UnlinkExactly | src/cache/lru.cpp:148-159 | a linked item leaves the table and its place in the queue, the others keeping their order; if nobody holds it, it is freed and its chunk is last on the free list, or lost; an item that is not linked stays as it is |
| CacheEffects.ReleaseExactly | src/cache/lru.cpp:161-166 | one reference less if there is one, and the item is freed exactly if none is left and it is not linked; nothing else changes |
| CacheEffects.UpdateExactly | src/cache/lru.cpp:168-180 | a linked item positioned more than 60 seconds ago, in wrapping 32-bit time, gets the time and the head of its queue; nothing else changes |
| CacheEffects.InitExactly | src/cache/lru.cpp:110-121 | a new item's key, lengths and reference; time, hash value and the bytes behind the key are left over from the chunk's last use |
| CacheOps.UnlinkKeeps | src/cache/lru.cpp:148-159 | unlink keeps: linked iff in the table iff in exactly one queue, that of its class, once; queues sorted by time; live iff linked or referenced; every live item fits its chunk and is charged its size |
| CacheOps.ReleaseKeeps | src/cache/lru.cpp:161-166 | so does release |
| CacheOps.UpdateKeeps | src/cache/lru.cpp:168-180 | so does the lazy repositioning |
| CacheOps.GetKeeps | src/cache/lru.cpp:124-133 | so does get, even if the 16-bit count wraps |
| CacheOps.StoreKeepsExactly | src/cache/lru.cpp:182-214 | a store, replacing or not, keeps the invariants if and only if the item can be told from all others (a search for its key stops at one stored item at most, and a search for a stored key stops at it only if that is that item's) and is not itself the item found, held 65535 times |
| CacheEvict.LastIdleIs | src/cache/lru.cpp:81-88 | the first search finds the unreferenced item nearest to the tail among the last 50, if there is one |
| CacheEvict.LastExpiredIs | src/cache/lru.cpp:97-103 | the second search does the same for expired items |
| CacheEvict.EvictKeeps | src/cache/lru.cpp:81-88 | the first search removes exactly that item, or nothing, and keeps every invariant |
| CacheEvict.RepairKeeps | src/cache/lru.cpp:97-103 | so does tail repair |
| CacheAllocProofs.ItemAllocCorrect | src/cache/lru.cpp:65-122 | for keys of every length: allocation evicts only from the requested class, only when that was empty, only an unreferenced item (nearer the head everything was positioned no earlier, nearer the tail everything is held) or an expired one; nothing else in use changes; the new item is held once, unlinked, in a chunk nobody uses, with its length cut to 16 bits; every invariant is kept if the key is shorter than 65536 bytes; with room for the free list at most one item goes, and then the call succeeds with that item's chunk |
| CacheExact.ItemAllocExactly | src/cache/lru.cpp:73-108 | from the state before the call: the items evicted, by the first search and by tail repair; each one's chunk is returned if and only if the free list has an array or can get one, and lost otherwise; and the exact condition under which the call fails |
| CacheExact.AtMostTwoVictims | src/cache/lru.cpp:84-105 | one call evicts two items at most, and two exactly if the first one's chunk is lost, no page comes, and another of the last 50 items has expired |
| CacheExact.TwoVictims | src/cache/lru.cpp:84-105 | an instance with two: the last item idle, the one before it expired, and nothing to be had from `realloc` or `malloc` |
| CacheExact.VictimsAreReturnedOrLost | src/cache/lru.cpp:84-107 | every evicted item leaves the table, and its chunk is either returned or lost; so a call that fails evicts only what it loses |
| CacheExact.ItemAllocKeepsExactly | src/cache/lru.cpp:110-121 | after a successful call the invariants hold if and only if the key's length fits the header's 16 bits |
| CacheOutcomes.ChunkServes | src/cache/slabs.cpp:68-83 | an allocation from a class that has a chunk evicts nothing and returns the chunk that was freed last, or else the next of the page |
| CacheOutcomes.PageServes | src/cache/slabs.cpp:122-125 | from one that has none it evicts nothing if `malloc` has a page and the limit allows it, and the limit refuses no class its first page |
| CacheOutcomes.IdleServes | src/cache/lru.cpp:81-90 | otherwise, with room on the free list, it evicts the unreferenced item nearest to the tail among the last 50, and returns its chunk |
| CacheOutcomes.ExpiredServes | src/cache/lru.cpp:90-107 | with none among the 50, and no page again, the same for the one nearest to the tail that was positioned more than 10800 seconds ago |
| CacheOutcomes.NothingServes | src/cache/lru.cpp:73-108 | with neither, and no page, it returns NULL and evicts nothing |
| CacheMap.FindIsLookup | src/cache/assoc.cpp:25-28 | a find is a lookup in the map of stored keys if and only if no stored item of another key length matches |
| CacheMap.LongerKeyFindsShorter | src/cache/assoc.cpp:25-28 | for the key of every stored item there is a longer key with its hash value, such that every search for it finds the item if the item's data begins with the missing bytes, although the longer key is not stored |
| CacheMap.StoreUnlinksOther | src/cache/lru.cpp:204-214 | a store under that longer key takes the shorter key's item out of the cache |
| CacheMap.IndistinguishableStore | src/cache/lru.cpp:204-214 | a store under that longer key of an item with other data breaks the invariants: a search for the shorter key then stops at two items |
| CacheMap.GetIsLookup | src/cache/lru.cpp:124-133 | get changes nothing in the map, and returns the map's answer if and only if no stored item of another key length matches |
| CacheMap.ReleaseIsNothing | src/cache/lru.cpp:161-166 | release changes nothing in the map |
| CacheMap.UnlinkIsRemove | src/cache/lru.cpp:148-159 | unlink removes the item's key, if the item is stored |
| CacheMap.StoreIsOverwrite | src/cache/lru.cpp:204-214 | exactly when the item can be told from all others (and is not found with a full count) the result is a map again; then store removes the key of what the search found and puts the item under its own key; it overwrites that entry and no other if and only if no stored item of another key length matches |
| CacheMap.AllocIsRemoval | src/cache/lru.cpp:65-122 | allocation, for a key of any length, removes from the map exactly the keys of its victims, two at most, and changes nothing else |
| CacheRuns.WriteKeeps | src/cache/lru.hpp:101-106 | writing the data of an item keeps the invariants if and only if it does not make a stored item be taken for another |
| CacheRuns.StepKeeps | src/cache/lru.hpp:45-99 | every public operation keeps: reference count = references held; time <= last use <= time + 60 |
| CacheRuns.GetEffect | src/cache/lru.cpp:124-180 | a get adds one reference and, exactly if the item was positioned more than 60 seconds ago, gives it the current time; it changes no other item |
| CacheRuns.ReleaseEffect | src/cache/lru.cpp:161-166 | a release takes one reference away, changes no other item, and frees the item only if that was the last reference |
| CacheRuns.StoreEffect | src/cache/lru.cpp:204-214 | after a store the item is in the table and at the head of its queue with the current time, the one found is not in the table, all reference counts are as before, and the one found is freed exactly if its count was 0 |
| CacheRuns.GetCountsExactly | src/cache/lru.cpp:124-133 | a get of an item keeps every count equal to the references held if and only if fewer than 65535 are held |
| CacheRuns.FullCountIsFreed | src/cache/lru.cpp:127-209 | in every world in which 65535 references to an item are held, a store that replaces it frees it while they are |
| CacheGuarantees.RunInv | src/cache/lru.hpp:45-99 | every reachable state satisfies every invariant |
| CacheGuarantees.RefcountExact | src/cache/lru.cpp:124-166 | the reference count is the number of references held, and an item is out of the allocator iff it is stored or held |
| CacheGuarantees.HeldStays | src/cache/lru.cpp:65-214 | no operation frees, reuses or changes an item somebody holds in time |
| CacheGuarantees.ReferenceAgeBound | src/cache/lru.cpp:97-133 | a reference obtained at time t and not given back is good until t + 10740, through every run: same chunk, class, key and length, and the same data unless a holder writes it |
| CacheGuarantees.AgeBoundIsTight | src/cache/lru.cpp:90-180 | the bound cannot be raised: after a get at time t of an item positioned 60 seconds before, an allocation that has no other choice returns the chunk of the item that is still held exactly if it is made later than t + 10740 |
| CacheGuarantees.AllocEvictsStale | src/cache/lru.cpp:73-108 | an evicted item that nobody held was among the last 50, was last used at most 60 seconds after every item nearer the head, held or not, and every item nearer the tail is held; if somebody held it, for more than 10740 seconds |
| CacheGuarantees.TimelyRevokesNothing | src/cache/lru.cpp:91-103 | while references are given back in time, tail repair takes nothing that is held |
| CacheGuarantees.StoreFreesOld | src/cache/lru.cpp:182-214 | store frees the item it replaces if and only if nobody else holds it |
| CacheChunks.OneState | src/cache/slabs.cpp:54-138 | in every reachable state each chunk is exactly one of: not yet handed out, free, lost, stored, held only |
| CacheChunks.ChunksConserved | src/cache/slabs.cpp:68-138 | `slabs * perslab` counts fresh, free and lost chunks and live items |
| CacheChunks.RequestedIsTotal | src/cache/slabs.cpp:87-115 | `requested` is the sum of the sizes of the live items of the class and of what its lost chunks were charged |
| CacheChunks.NothingLostInRuns | src/cache/slabs.cpp:105-113 | while `realloc` works no chunk is ever lost |
| CacheRefines.StepRefines | src/cache/lru.hpp:45-99 | every operation is an operation on a map from keys to data: get changes nothing and is a lookup, and store is an overwrite, exactly if no item of another key length matches; unlink removes; release does nothing; allocation drops exactly its victims' entries |
| CacheRefines.RunRefines | src/cache/lru.hpp:45-99 | the same for every step of every run from the empty cache |
| LruQueues.DllPush | src/cache/lru.cpp:29-36 | a new head makes a well-formed doubly linked queue with that item in front |
| LruQueues.DllCut | src/cache/lru.cpp:47-61 | unlinking leaves a well-formed queue without that item |
| LruAnswers.DecidedByMallocs | src/cache/lru.cpp:73-108 | what an allocation evicts, and whether it fails, is fixed by the state before it and what `malloc` and `realloc` answer |
| LruAnswers.OutcomeByMallocs | src/cache/lru.cpp:65-122 | so the table afterwards is the one before less the victims that state and answers determine, and the result is null exactly if they say that the call fails |
| LruAnswers.FirstPageIsGranted | src/cache/slabs.cpp:122-125 | an allocation from a class that has neither chunk nor page succeeds, and evicts nothing, whenever `realloc` and `malloc` have memory, whatever the limit |
| Lru.LruLists.constructor | src/cache/lru.cpp:4-15 | the new lists represent the empty cache |
| Lru.LruLists.ItemLinkQ | src/cache/lru.cpp:17-37 | all queues stay well-formed and disjoint, their sizes right, and the item is the head of its queue; the assertions hold |
| Lru.LruLists.ItemUnlinkQ | src/cache/lru.cpp:39-63 | the same, with the item gone from its queue |
| Lru.LruLists.ItemFree | src/cache/lru.cpp:189-202 | the fields change as `Drop` says, also if the item is free already; the four assertions hold |
| Lru.LruLists.DoItemUnlink | src/cache/lru.cpp:148-159 | the fields change as `Unlink` says; the item the table deletes is this one, so the assertion in `assoc_delete` holds |
| Lru.LruLists.DoItemLink | src/cache/lru.cpp:135-146 | the fields change as `Link` says, for every item that `assoc_insert` does not assert against, and an expansion starts exactly if it is due; the assertions on the flags and on `nbytes` hold |
| Lru.LruLists.DoItemRelease | src/cache/lru.cpp:161-166 | the fields change as `Release` says, also if the item is free already |
| Lru.LruLists.DoItemUpdate | src/cache/lru.cpp:168-180 | the fields change as `Update` says |
| Lru.LruLists.DoItemGet | src/cache/lru.cpp:124-133 | the fields change as `Get` says, for a match if there is one |
| Lru.LruLists.DoItemReplace | src/cache/lru.cpp:182-187 | the fields change as `Link` after `Unlink`, for every new item that `assoc_insert` does not assert against |
| Lru.LruLists.DoStoreItem | src/cache/lru.cpp:204-214 | the fields change as `Store` says, whenever the assertions of the source hold: one stored item at most matches, and the item is not free when it is linked again |
| Lru.LruLists.SearchIdle | src/cache/lru.cpp:81-88 | the loop finds the unreferenced item nearest to the tail among the last 50, or null if all of them are held |
| Lru.LruLists.SearchExpired | src/cache/lru.cpp:97-103 | the loop finds the held item nearest to the tail among the last 50 that was positioned more than 10800 seconds ago, or null |
| Lru.LruLists.DoItemAlloc | src/cache/lru.cpp:65-122 | the fields change as `ItemAlloc` says, for keys of any length; the answers of the C library fix every grant (`Determined`), what is evicted and whether the call fails (`AllocOutcome`); the assertions on the new chunk hold |
| Lru.LruLists.ItemAlloc | src/cache/lru.hpp:50-58 | the public form of it; the hash table stays in its state of expansion, as in the next three |
| Lru.LruLists.ItemGet | src/cache/lru.hpp:64-73 | get with the key's own hash, independent of the bytes behind the key |
| Lru.LruLists.ItemRelease | src/cache/lru.hpp:77-81 | the public form of release |
| Lru.LruLists.ItemUnlink | src/cache/lru.hpp:85-89 | the public form of unlink |
| Lru.LruLists.StoreItem | src/cache/lru.hpp:93-99 | store with the key's own hash set first; the invariants hold afterwards if and only if the item can be told from all others, and an expansion starts exactly if it is due |
| Lru.LruLists.Maintain | src/cache/assoc.cpp:77-105 | one pass of the maintenance thread changes nothing of the cache |
| PoolProofs.InvKept | src/local/threadpool.cpp:47-144 | every step of every thread keeps mutual exclusion, conservation, order, run-once, no lost wakeup and no null dereference |
| PoolRuns.RunInv | src/local/threadpool.cpp:27-144 | every state of every interleaving satisfies these |
| PoolRuns.OnePlace | src/local/threadpool.cpp:61-144 | each task slot is in exactly one of free queue, work queue and one thread's hands, when no routine is null |
| PoolRuns.NullRoutineLosesSlot | src/local/threadpool.cpp:125-140 | a null routine loses its slot |
| PoolRuns.LostForGood | src/local/threadpool.cpp:125-140 | and no later step of any run brings it back |
| PoolRuns.QueueIsPending | src/local/threadpool.cpp:83-105 | the work queue is the queued entries less those taken, in order |
| PoolRuns.TakenIsPrefixOfQueued | src/local/threadpool.cpp:83-105 | what has been taken is, and stays, a prefix of what is queued later on |
| PoolRuns.NobodySleepsAfterStop | src/local/threadpool.cpp:47-52 | after the stop broadcast no worker is or falls asleep |
| PoolRuns.NeverStuck | src/local/threadpool.cpp:94-113 | a thread can always go on, or its lock's holder can, or it rightly sleeps |
| PoolSubmits.QueuedIsSubmitted | src/local/threadpool.cpp:61-91 | in every run, what a thread has submitted is what it has queued, call for call and in order, and then the call it is about to queue |
| PoolSubmits.EntryWasSubmitted | src/local/threadpool.cpp:61-83 | every entry was submitted by an earlier step, with that routine and data |
| PoolSubmits.RunWasSubmitted | src/local/threadpool.cpp:119-126 | so was every execution |
| PoolSubmits.FreeSlotsAreCleared | src/local/threadpool.hpp:44-47 | the slots of the free queue hold no routine and no data |
| PoolDrain.LedgerKept | src/local/threadpool.cpp:90-126 | every step keeps: each entry that was taken has been run, or a worker is about to run it |
| PoolDrain.Drain | src/local/threadpool.cpp:61-144 | from every state before the stop flag in which a worker is left, some interleaving empties the queue |
| PoolDrain.EverythingCanRun | src/local/threadpool.cpp:61-144 | so in every run, every entry queued so far (but null routines) can still be run with the call it was queued with, and is run at most once |
| PoolDrain.StopAbandonsQueue | src/local/threadpool.cpp:47-108 | once the stop flag is raised nothing is taken from the queue, so only entries taken before are ever run |
| PoolDrain.OutsideExitsAtOnce | src/local/threadpool.cpp:90-122 | once the flag is raised a worker between two tasks leaves its loop in two steps, without a lock |
| PoolDrain.EveryWorkerCanExit | src/local/threadpool.cpp:47-56 | after the destructor's broadcast every worker can still leave its loop, so the join is never bound to wait for ever |
| ThreadPool.Threadpool.TakeFreeTask | src/local/threadpool.cpp:64-75 | the first free slot is taken, or none if there is none, and nothing else changes, as the step of the transition system says |
| ThreadPool.Threadpool.FillTask | src/local/threadpool.cpp:77-78 | the slot gets the submitter's routine and data, and nothing else changes |
| ThreadPool.Threadpool.Step | src/local/threadpool.cpp:47-144 | the steps that leave the fields alone (calls, locks, waits, the flag's unprotected read, the broadcast) keep object and transition system together |
| ThreadPool.Threadpool.MustWait | src/local/threadpool.cpp:100-101 | the loop's test, as the step of the transition system says |
| ThreadPool.Threadpool.InitTask | src/local/threadpool.hpp:44-47 | the slot is cleared after its routine has returned |
| ThreadPool.Threadpool.RaiseStopFlag | src/local/threadpool.cpp:47-48 | the destructor's first step |
| ThreadPool.Threadpool.PushTask | src/local/threadpool.cpp:80-88 | the slot is last in the work queue; it broadcasts exactly when the queue was empty, and exactly then the sleeping workers wake |
| ThreadPool.Threadpool.PopTask | src/local/threadpool.cpp:103-108 | the first slot of the work queue is taken, unless the flag is set; an empty queue is never popped |
| ThreadPool.Threadpool.BeginTask | src/local/threadpool.cpp:119-126 | the worker calls what its entry was queued with, and never dereferences a null task |
| ThreadPool.Threadpool.GiveTask | src/local/threadpool.cpp:130-138 | the slot is last in the free queue; it broadcasts exactly when that was empty, and exactly then the sleeping submitters wake |

## Left out

- The growth factor is the rational 5/4; other factors and the rounding of `float` are not modelled.
- Configurations in which a page length does not fit an `int`, the first chunk size does not fit 32 bits, or items have size 0 (`ConfigOk`).
- Tables of 2^32 buckets: `hashsize` would wrap to 0; the model's table has 2^p buckets, and only the threshold's multiplication wraps.
- Buckets are `hv % 2^p`, which is what masking with `hashmask` computes.
- A comparison that would read past the end of a chunk counts as a mismatch.
- CacheAllocProofs.ItemAllocCorrect: its last clause assumes room on the free list, and `CacheExact.ItemAllocExactly` does not.
- A negative `nbytes`, which the source would add to an unsigned size.
- CacheRuns.StepKeeps: assumes a clock that does not run backwards, is at least 60 and stays 10800 below 2^32; one operation reads it once, where the source's store can read it twice.
- `store_item` computes the hash value before it takes the lock; the model does both in one step, the item being its caller's.
- Writing the data into an item is the caller's business: a step of a run (`OpWrite`), but no method of `LruLists`.
- Preallocated memory (`mem_base`), `slabs_preallocate`, `USE_SYSTEM_MALLOC` and the environment variables read by the allocator.
- The big-endian form of the hash.
- `DataCache`, which drops references, and the request/reply layout of `reqrep.hpp`.
- `pthread` itself: a region under a lock is one step; the two locks of the cache are only ever taken in one order.
- The thread pool's destructor after its broadcast (joining and freeing), and spurious failures of `pthread_create`.
- Routines that call `add_task` themselves, in whose place a worker can wait for a free task: the model's routines only return, so `NeverStuck` and `Drain` are about those.
- The network server and client, the drivers, and the build files.

# Shared memory, value copies and the Redis protocol

This project models the hardest parts of two PHP extensions and proves what
they promise: APCu 4.0.11 (a shared-memory user cache) and phpredis 4.3.0 (a
Redis client).

**The shared-memory allocator.** One segment is a buffer of words with a block
header in front of every block: size, size of a free predecessor, and the two
links of the free list. `Sma.Segment` rewrites those headers in place;
`SmaSpec` and `SmaRuns` describe the same segment as a tiling of blocks and a
free list; `SmaImage` connects the two, header by header: a segment is valid when its blocks
tile it exactly, the links from the first to the last sentinel visit each free
block once, a forward link is 0 exactly in allocated blocks and the last
sentinel, a back tag is the size of a free predecessor and 0 otherwise, and no
two free blocks are adjacent. Word size, header
sizes and segment size are parameters. The central result is the canonical
form: the allocated extents alone determine the physical layout, so histories,
orders of freeing and the pool below can all be compared by what is live.

**The pool.** `Pool.RealPool` hands out records (size field, payload, redzone)
from blocks that it gets from a `Segment`. `PoolSpec` is the record layout.
The segment is proved not to touch live payloads (`PayloadsKept` in the
contracts of `Allocate` and `Deallocate`), so what a pool keeps in its payloads
is held in maps of its own.

**The cache.** `Cache.Store` is the chained hash table with its list of removed
entries that somebody still refers to; slots are linked by addresses in a map,
and freeing a slot takes its address out of the map, so that every use of a
freed slot would be a failed proof. `CacheSpec` is the same cache as a value,
`CacheSteps` and `CacheRuns` prove what every run keeps, `CacheHandles` when a
held entry is freed, `CacheEffects` what becomes of the counters and of removed
entries, and `CacheImage` links the two. A slot and its entry live and die in one pool and are one record here. The
hash of a key comes with the key: nothing depends on how it is computed. Time
stamps are parameters, one clock reading per call.

**The value copier.** `Copier.Context` copies a possibly cyclic graph of values
through a memo table, in memory that is given as maps from addresses to values,
tables and buckets. `CopySpec` says what a source graph and a copied table look
like, `CopyState` and `CopyTable` prove each step, `CopyResult` says what the
copy means to whoever walks it. Termination is by the number of source values
not yet in the memo table.

**The iterator.** `Iterator.ApcIterator` is the chunked traversal of a
`Cache.Store`.

**The Redis protocol.** `Resp` has the command writer and the two reply
readers as methods over a buffer and over a stream that hands out as few bytes
at a time as it likes; `RespSpec` and `RespCommands` have the encodings, what
the readers make of any bytes, and the round trips. `CommandArguments` says what
becomes of each argument of a command, `ReplyFailures` what the readers make of
replies that are cut short. `Decimal` is what "%ld" prints and `atol` reads.

**Key distribution.** `Crc16` holds the table of the CRC and its proof against
division bit by bit, `HashTag` the slot of a key, `ArrayMget` the scatter and
gather of `RedisArray::mget`.

`Align` and `Slots` define the rounding macro and the slot of a hash by
repeated addition and subtraction, which keeps the other proofs free of
division, and prove both equal to the formulas of the source.

Four places where the code does not do what one might expect from it:

- `apc_cache_make_entry` initialises the counts of the stored root a second
  time. `CopyResult.StoredCounts` shows that every refcount of a stored value is
  right exactly when no array that the root leads to has the root among its
  elements, and `CopyResult.SelfContaining` copies and stores the smallest value
  for which it is wrong: two references, and a refcount of one.
- The header of a command counts all characters of its format. By
  `RespCommands.ReadBack` it agrees with the arguments, and a reader with the
  stream, exactly when every character is a known specifier;
  `RespCommands.UnknownSpecifier` is a format for which it does not. No format in
  the repository has an unknown character.
- The reader of library.c ignores the failure of a nested read. By
  `ReplyFailures.ShortList` and `ReplyFailures.ShortBulk` it returns a nested list
  that is cut short as if it were complete, and a bulk that is cut short as false,
  where the cluster reader fails.
- With a limit on the time spent on the gc list an entry can be freed under the
  hands of whoever holds it. `CacheHandles.HeldFreedExactly` says which calls do
  that, `CacheHandles.HeldFreedLate` that in a run they come more than the limit
  after the call that removed the entry, and `CacheHandles.FreedWhileHeld` is a
  run in which it happens. `CacheRuns.HeldNeverFreed` says that without a limit
  it never does.

## Model

| member | source | states |
|---|---|---|
| `Align.AlignSizeMacro` | exts-simple/apcu-4.0.11/apc_sma_api.h:201-204 | the rounding by repeated addition equals the formula of ALIGNSIZE for every positive size |
| `Align.AlignLeast` | exts-simple/apcu-4.0.11/apc_sma_api.h:201-204 | the rounded size is the least multiple of the word that is large enough |
| `SmaRuns.InitInv` | exts-simple/apcu-4.0.11/apc_sma.c:320-353 | the fresh segment satisfies the heap invariant, holds nothing, and its avail is the size of its one free block plus a block header |
| `SmaRuns.RunsKeepInv` | exts-simple/apcu-4.0.11/apc_sma.c:113-268 | every history of allocations and legal frees keeps the whole heap invariant: exact tiling, free list without repetition of exactly the free blocks, no two adjacent free blocks |
| `SmaRuns.StepKeepsInv` | exts-simple/apcu-4.0.11/apc_sma.c:113-268 | any one call keeps that invariant |
| `SmaRuns.AllocSound` | exts-simple/apcu-4.0.11/apc_sma.c:113-207 | an allocation adds exactly the block it grants to the live ones and takes exactly its size from avail; a refused one changes nothing |
| `SmaRuns.FreeSound` | exts-simple/apcu-4.0.11/apc_sma.c:209-268 | a free removes exactly its block from the live ones and gives its size back to avail |
| `SmaRuns.FreesToFront` | exts-simple/apcu-4.0.11/apc_sma.c:228-264 | a freed block, merged with its free neighbours, comes first in the free list; the neighbours leave the list and the others keep their order |
| `SmaRuns.FailsExactly` | exts-simple/apcu-4.0.11/apc_sma.c:122-154 | a request fails exactly when no free block has the rounded size, and the early test on avail never refuses one that would succeed |
| `SmaRuns.TakesFirstFit` | exts-simple/apcu-4.0.11/apc_sma.c:139-157 | a granted request takes the first block in list order that is large enough |
| `SmaRuns.AllocatedBounds` | exts-simple/apcu-4.0.11/apc_sma.c:162-204 | the reported size covers the request and exceeds it by less than a word, a minimal block and the fragment allowance |
| `SmaRuns.WholeOrCut` | exts-simple/apcu-4.0.11/apc_sma.c:162-195 | a granted block is taken whole exactly when a cut would leave less than a word, a block header and the fragment allowance; otherwise it is cut at the rounded size, and the rest is free and takes the block's place in the list; the reported size says which |
| `SmaRuns.PayloadsApart` | exts-simple/apcu-4.0.11/apc_sma.c:113-207 | live payloads are word-aligned, inside the segment and pairwise disjoint |
| `SmaRuns.Canonical` | exts-simple/apcu-4.0.11/apc_sma.c:113-268 | under the invariant the allocated extents determine the layout, avail, the set of free blocks and which requests fail |
| `SmaRuns.AllocFree` | exts-simple/apcu-4.0.11/apc_sma.c:162-195 | allocating and then freeing restores the layout and avail in the exact-fit and the split case; only the order of the free list may change |
| `SmaRuns.HistoryIndependent` | exts-simple/apcu-4.0.11/apc_sma.c:113-268 | two histories that leave the same blocks allocated leave the same layout |
| `SmaRuns.AllFreed` | exts-simple/apcu-4.0.11/apc_sma.c:209-268 | once everything is freed, in any order and after any history, the segment is the one free block it was initialised with |
| `SmaRuns.FreesCommute` | exts-simple/apcu-4.0.11/apc_sma.c:209-268 | two live blocks can be freed in either order with the same resulting layout |
| `SmaImage.InitImage` | exts-simple/apcu-4.0.11/apc_sma.c:327-353 | the headers written at set-up represent the initial heap |
| `SmaImage.TakeImage` | exts-simple/apcu-4.0.11/apc_sma.c:162-172 | unhooking a block and clearing the next back tag represents taking the whole block |
| `SmaImage.SplitImage` | exts-simple/apcu-4.0.11/apc_sma.c:173-193 | the header writes of a split represent the heap with the block cut in two and the rest in its place in the list |
| `SmaImage.FreeImage` | exts-simple/apcu-4.0.11/apc_sma.c:228-264 | the header writes of a free, after any merging on either side, represent the heap with the merged block at the front of the list |
| `Sma.Segment.constructor` | exts-simple/apcu-4.0.11/apc_sma.c:320-353 | set-up yields a valid segment with the initial heap |
| `Sma.Segment.Search` | exts-simple/apcu-4.0.11/apc_sma.c:134-154 | the loop over the free list stops at the first block that fits, or reports that none does |
| `Sma.Segment.Allocate` | exts-simple/apcu-4.0.11/apc_sma.c:113-207 | the header writes keep the segment valid, compute the allocation on the heap value, and touch no live payload |
| `Sma.Segment.MergeRight` | exts-simple/apcu-4.0.11/apc_sma.c:240-255 | merging with a free successor; the assertion about the back tag behind it never fails |
| `Sma.Segment.Deallocate` | exts-simple/apcu-4.0.11/apc_sma.c:209-268 | the header writes keep the segment valid, compute the free on the heap value, and touch no live payload |
| `Sma.Segment.Info` | exts-simple/apcu-4.0.11/apc_sma.c:593-606 | the walk reports one link per free block, in list order |
| `PoolSpec.RedzoneBounds` | exts-simple/apcu-4.0.11/apc_pool.c:187-191 | a redzone fills up to a word boundary, has at least 4 bytes and at most 4 more than a word, and never more than the pattern holds |
| `PoolSpec.RedzoneLeast` | exts-simple/apcu-4.0.11/apc_pool.c:187-191 | with words of more than 4 bytes no smaller redzone of more than 4 bytes fills up to a word boundary |
| `PoolSpec.RealAligned` | exts-simple/apcu-4.0.11/apc_pool.c:240-257 | a record is word-aligned, has room for size field, payload and redzone, and wastes less than a word |
| `Pool.PayloadsApart` | exts-simple/apcu-4.0.11/apc_pool.c:282-312 | payloads of different pool allocations are disjoint, and each lies inside the live allocator block of its pool block |
| `Pool.PayloadCell` | exts-simple/apcu-4.0.11/apc_pool.c:282-312 | no byte of a payload belongs to a size field or a redzone of any record |
| `Pool.RealPool.Create` | exts-simple/apcu-4.0.11/apc_pool.c:413-468 | there is a pool exactly when its kind is known and the segment has room; it starts with the one block that is part of it, of the size of its kind, with no further block counted; otherwise nothing changes |
| `Pool.RealPool.Grow` | exts-simple/apcu-4.0.11/apc_pool.c:211-231 | a new block goes to the front of the list, in memory that was not live before; it fails exactly when the segment has no room |
| `Pool.RealPool.Look` | exts-simple/apcu-4.0.11/apc_pool.c:259-265 | the look-back finds the first of up to eight blocks with room |
| `Pool.RealPool.Alloc` | exts-simple/apcu-4.0.11/apc_pool.c:235-313 | where a record goes, when the pool grows and at which counts of blocks it asks for larger ones, when it fails, and that intact redzones stay intact; the count is always that of the blocks beside the first |
| `Pool.RealPool.Fill` | exts-simple/apcu-4.0.11/apc_pool.c:282-312 | a user that writes to its own payload damages no size field and no redzone |
| `Pool.RealPool.CheckBlock` | exts-simple/apcu-4.0.11/apc_pool.c:349-375 | the walk over the records of a block lands exactly on its mark and accepts exactly when every redzone holds the pattern |
| `Pool.RealPool.CheckMarks` | exts-simple/apcu-4.0.11/apc_pool.c:336-341 | the test of mark against avail holds in every state of the pool |
| `Pool.RealPool.CheckIntegrity` | exts-simple/apcu-4.0.11/apc_pool.c:326-379 | the check accepts exactly when redzones and size fields are not both on or every redzone is intact |
| `Pool.RealPool.Cleanup` | exts-simple/apcu-4.0.11/apc_pool.c:393-409 | every block but the one inside the pool is handed back, once |
| `Pool.RealPool.Destroy` | exts-simple/apcu-4.0.11/apc_pool.c:61-68 | every block that was granted is handed back exactly once, the pool itself last |
| `Pool.Session` | exts-simple/apcu-4.0.11/apc_pool.c:413-468 | a pool that is created, which happens exactly when its kind is known and the segment has room, allocates any number of times and whose users write anything anywhere into what they were given passes its integrity check, and destroying it restores the layout of the segment and its avail |
| `Cache.SameBytes` | exts-simple/apcu-4.0.11/apc_cache.c:766 | comparing the bytes of the wanted key's length is key equality for keys whose only NUL is their last byte |
| `CacheSteps.RemoveKeepsInv` | exts-simple/apcu-4.0.11/apc_cache.c:161-184 | removing any slot keeps the invariant: placement, distinct keys, every entry in one place, exact counters, exact reference counts |
| `CacheSteps.SumIsNat` | exts-simple/apcu-4.0.11/apc_cache.c:168-173 | the guards on the two counters never hide an underflow |
| `CacheSteps.PutKeepsInv` | exts-simple/apcu-4.0.11/apc_cache.c:800-806 | linking a new slot keeps the invariant |
| `CacheSteps.HitKeepsInv` | exts-simple/apcu-4.0.11/apc_cache.c:860-873 | a hit keeps the invariant: one more handle, one more reference |
| `CacheSteps.ReleaseKeepsInv` | exts-simple/apcu-4.0.11/apc_cache.c:479-482 | a release keeps the invariant |
| `CacheSteps.DropKeepsInv` | exts-simple/apcu-4.0.11/apc_cache.c:206-224 | freeing an entry of the gc list keeps the invariant |
| `CacheRuns.StepSafe` | exts-simple/apcu-4.0.11/apc_cache.c:161-232 | every call keeps the invariant, takes away no handle but the released one, frees a held entry only when it has been on the gc list for more than gc_ttl seconds, and puts nothing on that list but entries it takes from their chain, with its own time |
| `CacheRuns.CollectLeaves` | exts-simple/apcu-4.0.11/apc_cache.c:201-229 | a collection leaves on the gc list exactly the entries that somebody refers to and that have not been there for more than gc_ttl seconds |
| `CacheRuns.RunKeepsInv` | exts-simple/apcu-4.0.11/apc_cache.c:479-532 | the invariant holds after every run, and what was freed stays freed |
| `CacheRuns.HeldNeverFreed` | exts-simple/apcu-4.0.11/apc_cache.c:188-232 | with gc_ttl 0, in every run in which callers release only what they hold, no held entry is ever freed and no release touches a freed entry |
| `CacheHandles.CollectFrees` | exts-simple/apcu-4.0.11/apc_cache.c:201-229 | a collection frees every entry that has been on the gc list for more than gc_ttl seconds, held or not |
| `CacheHandles.HeldFreedExactly` | exts-simple/apcu-4.0.11/apc_cache.c:188-232 | a call frees a held entry exactly when it runs the collector and the entry has been on the gc list for more than gc_ttl seconds |
| `CacheHandles.HeldFreedLate` | exts-simple/apcu-4.0.11/apc_cache.c:161-232 | in every run from the empty cache, a held entry that is freed was taken from its chain by an earlier call, and the two calls are more than gc_ttl seconds apart |
| `CacheHandles.FreedWhileHeld` | exts-simple/apcu-4.0.11/apc_cache.c:201-224 | with gc_ttl 1, an insert, a find and a delete at 0 and a collection at 2 free an entry that is still held |
| `CacheRuns.OnePlace` | exts-simple/apcu-4.0.11/apc_cache.c:161-232 | every entry ever inserted is in exactly one of: one position of one chain, the gc list, the freed ones; and is freed at most once |
| `CacheRuns.ExpungeEmpties` | exts-simple/apcu-4.0.11/apc_cache.c:504-532 | an expunge leaves nothing in the chains and both counters at 0 before they are reset |
| `CacheRuns.SweptChain` | exts-simple/apcu-4.0.11/apc_cache.c:755-798 | insert drops exactly the stale entries before its key and the entry of the key, and refuses exactly on a live entry of the key when exclusive |
| `CacheRuns.ExclusiveIffMiss` | exts-simple/apcu-4.0.11/apc_cache.c:763-798 | an exclusive insert succeeds exactly when find would miss for the same key at the same time, and any other insert succeeds |
| `CacheRuns.InsertMaps` | exts-simple/apcu-4.0.11/apc_cache.c:753-806 | a successful insert maps its key to the new entry |
| `CacheRuns.InsertKeepsOthers` | exts-simple/apcu-4.0.11/apc_cache.c:755-798 | every other key keeps its entry, unless that was not accessed for the lifetime of the cache or has outlived its own, and in front of the key in the same chain: then it is gone |
| `CacheRuns.FindMaps` | exts-simple/apcu-4.0.11/apc_cache.c:846-883 | find returns the entry of the key unless its lifetime has passed, hands out one handle, and is seen on that entry only |
| `CacheRuns.ReleaseMaps` | exts-simple/apcu-4.0.11/apc_cache.c:479-482 | a release is seen on the entry of its handle only |
| `CacheRuns.DeleteMaps` | exts-simple/apcu-4.0.11/apc_cache.c:1075-1101 | delete succeeds exactly when the key is there, and takes away that key and no other |
| `CacheRuns.ExpungeMaps` | exts-simple/apcu-4.0.11/apc_cache.c:583-638 | what an expunge under memory pressure leaves of every key: everything, nothing, or what has not outlived its lifetime |
| `CacheEffects.ClearMaps` | exts-simple/apcu-4.0.11/apc_cache.c:535-560 | a clear of a cache that is not busy leaves no entry for any key and all counters at 0; each former entry is freed if nobody refers to it and on the gc list with the time of the clear otherwise |
| `CacheEffects.RealExpungeEffect` | exts-simple/apcu-4.0.11/apc_cache.c:504-532 | an expunge empties the chains, counts itself, resets the other counters, and frees or moves each entry |
| `CacheEffects.ExpungeEffect` | exts-simple/apcu-4.0.11/apc_cache.c:564-646 | an expunge under memory pressure counts itself and resets the counters exactly when it empties the cache; every entry it takes away is freed or moved to the gc list |
| `CacheEffects.InsertEffect` | exts-simple/apcu-4.0.11/apc_cache.c:729-822 | an insert counts once exactly if it succeeds, a busy cache refuses it, and every entry it takes away is freed or moved to the gc list |
| `CacheEffects.FindEffect` | exts-simple/apcu-4.0.11/apc_cache.c:826-893 | a find counts as one hit or one miss, and as neither on a busy cache |
| `CacheEffects.DeleteEffect` | exts-simple/apcu-4.0.11/apc_cache.c:161-184 | a delete takes its entry and its bytes off the counters, frees it or moves it to the gc list, and moves no other counter |
| `CacheEffects.ReleaseEffect` | exts-simple/apcu-4.0.11/apc_cache.c:479-482 | a release moves no counter of the header and frees nothing |
| `CacheEffects.BusyStays` | exts-simple/apcu-4.0.11/apc_cache.c:535-580 | a busy cache is left alone by a clear and by an expunge under memory pressure |
| `Cache.Store.constructor` | exts-simple/apcu-4.0.11/apc_cache.c:270-320 | a new cache is empty |
| `Cache.Store.RemoveSlot` | exts-simple/apcu-4.0.11/apc_cache.c:161-184 | unlinking through a pointer to the link, the counters, and freeing or moving to the gc list, as the value-level removal |
| `Cache.Store.CollectGarbage` | exts-simple/apcu-4.0.11/apc_cache.c:188-232 | the in-place walk computes the value-level collection |
| `Cache.Store.Add` | exts-simple/apcu-4.0.11/apc_cache.c:729-822 | the in-place insert computes the value-level insert |
| `Cache.Store.Locate` | exts-simple/apcu-4.0.11/apc_cache.c:846-883 | the walk down a chain ends at the first slot with the key |
| `Cache.Store.Get` | exts-simple/apcu-4.0.11/apc_cache.c:826-893 | find computes the value-level find |
| `Cache.Store.GiveBack` | exts-simple/apcu-4.0.11/apc_cache.c:479-482 | the release of a live handle finds its slot in memory and takes one reference off it |
| `Cache.Store.Remove` | exts-simple/apcu-4.0.11/apc_cache.c:1058-1101 | delete computes the value-level delete |
| `Cache.Store.Expunge` | exts-simple/apcu-4.0.11/apc_cache.c:504-532 | the loop through a local pointer computes the value-level expunge |
| `Cache.Store.Clean` | exts-simple/apcu-4.0.11/apc_cache.c:535-560 | clear does nothing on a busy cache and empties any other |
| `Cache.Store.MakeRoom` | exts-simple/apcu-4.0.11/apc_cache.c:564-646 | the default expunge computes its value-level form, for any answers of the allocator |
| `Copier.Context.StoreZval` | exts-simple/apcu-4.0.11/apc_cache.c:1431-1463 | copying any finite, possibly cyclic graph terminates with a complete deep copy |
| `Copier.Context.CopyZvalPtr` | exts-simple/apcu-4.0.11/apc_cache.c:1288-1317 | the copy of a referenced value; an unused allocation is given back to the PHP heap |
| `Copier.Context.CopyZval` | exts-simple/apcu-4.0.11/apc_cache.c:1321-1406 | a value met before gets one more reference, a new one a copy, and nothing copied so far changes but reference counts |
| `Copier.Context.CopyTable` | exts-simple/apcu-4.0.11/apc_cache.c:1176-1283 | a copied table has its elements in order, with consistent slot chains and a consistent doubly linked thread |
| `CopyTable.InsertBuckets` | exts-simple/apcu-4.0.11/apc_cache.c:1241-1275 | linking one more bucket keeps every chain and the thread consistent in both directions |
| `CopyResult.CopyIsIsomorphic` | exts-simple/apcu-4.0.11/apc_cache.c:1321-1406 | two paths lead to the same value in the copy exactly when they do in the source |
| `CopyResult.CopyHoldsTheSame` | exts-simple/apcu-4.0.11/apc_cache.c:1321-1406 | along every path the copy holds the same scalar, or a table of the same size with the same hashes and keys in the same order |
| `CopyResult.CopiesReachable` | exts-simple/apcu-4.0.11/apc_cache.c:1331-1341 | exactly what the root leads to is copied |
| `CopyResult.RefcountsExact` | exts-simple/apcu-4.0.11/apc_cache.c:1331-1352 | the refcount of every copy is the number of references to its source from the root and the arrays it leads to, and it is a reference exactly when its source is one and it is shared |
| `CopyResult.OnlyCopiesAreNew` | exts-simple/apcu-4.0.11/apc_cache.c:1293-1314 | nothing of the source changes, and a copy out leaves no stray value behind |
| `CopyResult.Lookup` | exts-simple/apcu-4.0.11/apc_cache.c:1240-1250 | at the end of every path to an array, a lookup along the slot chains of its copy finds the copy of what the source has under that key, and nothing for a key that the source does not have |
| `CopyResult.StoredCounts` | exts-simple/apcu-4.0.11/apc_cache.c:1480-1485 | after the root's counts are initialised again, all refcounts are right exactly when no array that the root leads to in the source has the root among its elements |
| `CopyResult.SelfContaining` | exts-simple/apcu-4.0.11/apc_cache.c:1480-1485 | the copy of an array that contains itself has refcount 2, which is right, and the stored entry says 1 |
| `Slots.SlotIsRemainder` | exts-simple/apcu-4.0.11/apc_cache.c:151-158 | the slot of a hash is its remainder by the number of slots |
| `Iterator.ApcIterator.Fetch` | exts-simple/apcu-4.0.11/apc_iterator.c:225-259 | a fetch takes whole chains, just enough of them to have more than a chunk or all there are, and loses nothing |
| `Iterator.ApcIterator.Valid` | exts-simple/apcu-4.0.11/apc_iterator.c:422-438 | there is a current entry exactly when something is left to show |
| `Iterator.ApcIterator.Current` | exts-simple/apcu-4.0.11/apc_iterator.c:442-463 | the first of what is left to show |
| `Iterator.ApcIterator.Traverse` | exts-simple/apcu-4.0.11/apc_iterator.c:403-511 | rewind, then valid, current and next show exactly the matching entries that have not outlived their lifetime or, without one, that of the cache; each once and chain by chain, whatever the chunk size |
| `Iterator.ShownOnce` | exts-simple/apcu-4.0.11/apc_iterator.c:225-259 | no entry is shown twice |
| `Decimal.AtolPrint` | exts-simple/redis-4.3.0/library.c:2478-2493 | reading a printed number gives it back, or the nearest long, whatever follows it and whatever spaces or plus sign precede it |
| `Decimal.PrintDigits` | exts-simple/redis-4.3.0/library.c:735-741 | a number is printed as its decimal digits without a zero in front, a negative one with a minus |
| `RespSpec.ClusterInvertsAll` | exts-simple/redis-4.3.0/cluster_library.c:114-175 | the cluster reader turns the encoding of any nested replies into what it keeps of them, which is all of them with status strings on and of a line its length and kind otherwise, and stops right behind them |
| `RespSpec.ClusterShort` | exts-simple/redis-4.3.0/cluster_library.c:128-137 | a list that announces more replies than there are is an error |
| `RespCommands.MultiInverts` | exts-simple/redis-4.3.0/library.c:2546-2610 | the reader of library.c turns the encoding of any nested replies into what they show, with status lines as text or as true, and stops right behind them |
| `RespCommands.ReadBack` | exts-simple/redis-4.3.0/library.c:627-723 | a command reads back as its keyword and exactly its binary-safe arguments; header, arguments and stream agree exactly when every format character is a known specifier |
| `CommandArguments.ArgumentsReadBack` | exts-simple/redis-4.3.0/library.c:638-685 | the command read back has the keyword first and then, for every known specifier, what it makes of its argument: a key with its prefix, any other text as it is, a number in decimal |
| `CommandArguments.LastKey` | exts-simple/redis-4.3.0/library.c:650-658 | the slot of a command is that of its last key with the prefix |
| `RespCommands.UnknownSpecifier` | exts-simple/redis-4.3.0/library.c:626-693 | with an unknown character and no argument the header announces two bulks, the keyword is the only one, and reading the command back fails |
| `RespCommands.MultiShort` | exts-simple/redis-4.3.0/library.c:2555-2563 | asking for more elements than there are reads them all and then fails |
| `ReplyFailures.ShortList` | exts-simple/redis-4.3.0/library.c:2586-2599 | a nested list with fewer elements than it announces is returned by the reader of library.c as if it were complete, and an error for the cluster reader |
| `ReplyFailures.ShortBulk` | exts-simple/redis-4.3.0/library.c:510-545 | a bulk that ends before its length is false for the reader of library.c, which does not fail, and an error for the cluster reader |
| `ReplyFailures.UnknownType` | exts-simple/redis-4.3.0/library.c:2600-2606 | a type byte that is none of the five is passed over by the reader of library.c, and an error for the cluster reader |
| `ReplyFailures.LongLine` | exts-simple/redis-4.3.0/library.c:2431-2458 | a line that does not fit its buffer loses the last two bytes of what fits, and the rest is read as what follows |
| `ReplyFailures.LongNumber` | exts-simple/redis-4.3.0/library.c:2460-2497 | of a number behind a type byte at most 254 bytes are taken |
| `Resp.Format` | exts-simple/redis-4.3.0/library.c:626-693 | the writer produces the command, and the slot of its last key with the prefix, or none without a key |
| `Resp.SmartString.InitCommand` | exts-simple/redis-4.3.0/library.c:699-709 | the header and the keyword |
| `Resp.SmartString.AppendBulk` | exts-simple/redis-4.3.0/library.c:714-723 | one length-prefixed argument |
| `Resp.Stream.ReadBulkReply` | exts-simple/redis-4.3.0/library.c:510-545 | however the stream splits its data, exactly the bulk and its line end are consumed, or failure is reported |
| `Resp.Stream.SockGets` | exts-simple/redis-4.3.0/library.c:2431-2458 | a line without its line end |
| `Resp.Stream.ReadReplyType` | exts-simple/redis-4.3.0/library.c:2460-2497 | the type byte and the number behind it |
| `Resp.Stream.ReadMulti` | exts-simple/redis-4.3.0/library.c:2546-2610 | the recursive reader computes the value-level reading of the stream |
| `Resp.Stream.ReadCluster` | exts-simple/redis-4.3.0/cluster_library.c:114-175 | the cluster reader computes its value-level form, error flag included |
| `Crc16.EntryIsDivision` | exts-simple/redis-4.3.0/crc16.h:46-79 | every one of the 256 table entries is eight steps of the division |
| `Crc16.UpdateIsDivision` | exts-simple/redis-4.3.0/crc16.h:85 | one table look-up does what eight steps of the division do |
| `Crc16.Compute` | exts-simple/redis-4.3.0/crc16.h:81-87 | the loop computes the division bit by bit, most significant bit first, from 0 |
| `Crc16.CrcIsRemainder` | exts-simple/redis-4.3.0/crc16.h:81-87 | the CRC is the remainder of the long division of the message with sixteen zero bits appended |
| `Crc16.SelfCheck` | exts-simple/redis-4.3.0/crc16.h:81-87 | a message followed by its CRC has CRC 0 |
| `HashTag.HashKey` | exts-simple/redis-4.3.0/cluster_library.c:538-559 | the index loops compute the CRC of the tag, or of the whole key where there is none, modulo 16384 |
| `HashTag.TagRule` | exts-simple/redis-4.3.0/cluster_library.c:541-558 | exactly keys of the form prefix{tag}suffix, with the first brace and a non-empty tag up to the first closing one, are hashed by their tag, all others as a whole |
| `HashTag.SlotRule` | exts-simple/redis-4.3.0/cluster_library.c:541-558 | the slot of a tagged key is the CRC of its tag, that of any other key the CRC of the whole key, modulo 16384 |
| `HashTag.SameSlot` | exts-simple/redis-4.3.0/cluster_library.c:541-558 | keys with the same tag are in the same slot, the CRC of the tag modulo 16384 |
| `ArrayMget.MgetInOrder` | exts-simple/redis-4.3.0/redis_array.c:1003-1110 | for any assignment of keys to nodes, element i of the result is what the node of key i holds for key i; the node of a number is that of its decimal text |
| `ArrayMget.GatheredAt` | exts-simple/redis-4.3.0/redis_array.c:1081-1105 | whatever the nodes answer, the value for a key is the one at its rank in the answer of its node; a key without one leaves no gap in the result |
| `ArrayMget.AskedAtRank` | exts-simple/redis-4.3.0/redis_array.c:1046-1092 | a key is asked for at its rank among the keys of its node |
| `ArrayMget.RedisArray.Mget` | exts-simple/redis-4.3.0/redis_array.c:992-1117 | the nested loops gather the answers in the order of the keys; no keys, a key of another type or an answer that is no list give false |

## Left out

- Sizes near the limit of `size_t`: sums of sizes do not wrap around here.
- Several segments, the retries of `apc_sma_api_malloc_ex` after an expunge, canaries, memory protection and mapping.
- Locks, shared mappings, signals and concurrent processes: every locked section is one step.
- The failure of `make_slot` in `apc_cache_insert`, which stores a null pointer over the rest of the chain: inserts have their memory here. An expunge started by an allocation inside an insert is not modelled either.
- The decision of `apc_cache_default_expunge` whether memory is short, and whether a block fits afterwards, are parameters.
- Keys with embedded NULs, on which the comparison by the wanted key's length is not equality.
- The last inserted key and the slam defence, `apc_cache_fetch`, `apc_cache_exists` and `apc_cache_update`: walks like find.
- The counter `used` of a pool, which the source leaves uninitialised, and pools that pass every allocation on.
- Redzones longer than their pattern, which no power-of-two word size up to 16 asks for: the layout requires word + 4 <= 32.
- Serializers, objects, constants and callables in the copier, tables with a check function, and failed allocations in it. Strings are values: their bytes are not at an address of their own.
- A source table is described by its list thread; its own slot chains are not part of this model, so that `CopyResult.Lookup` takes the key of an element as what the source has under it, and each key once.
- `apc_iterator_fetch_deleted`, regular expressions and search hashes: whether a key matches is a parameter.
- Resp.Stream.ReadBulkReply: lengths below -1 count as failure; the source makes a negative or too small buffer size of them and writes in front of its buffer.
- Resp.Stream.SockGets: a line shorter than a line end counts as failure; the source subtracts 2 from its unsigned length all the same.
- Reconnecting, sockets, redirections, error exceptions and the decoding of replies into PHP types.
- Packing of values and printing of floating-point numbers: they reach the writer as text.
- `ra_find_node` failing to find a node, which the source does not handle: every key has a node.
- Queueing an MGET inside a transaction, other commands of `RedisArray`, msgpack, `apc_bin.c` and `apc_crc32`.

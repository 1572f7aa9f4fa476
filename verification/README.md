# Topling-ark containers, modelled in Dafny

Topling-ark is a C++ library of containers and storage pieces. This project models its
hardest parts and proves what they are for. `dafny verify dfyconfig.toml` checks everything.

What is modelled, and the main result of each part:

- **Shared** (`Basics`): options, bytes, insertion into a sequence.
- **Hash table** (`HashSizing`, `HashChains`, `HashSlots`, `HashBuckets`, `GoldHashTab`):
  `gold_hash_tab` with collision chains by slot number, a freelist that runs through the
  erased elements, compaction, rehashing and the `risk_` operations that take a slot out of
  its chain. Every run answers as a finite map does.
- **LRU cache** (`LruProtocol`, `LruSafety`, `LruRing`, `LruCoupling`, `LruLoad`,
  `LruMap`): the locked sections of `lru_map_impl` are steps of a state machine for any number
  of clients. Over every interleaving a referenced slot is not evicted, freed or given another
  key, and the victim is the least recently released entry. The class on top of the table,
  ring pointers included, is proved to take these steps and no others.
- **Radix tree** (`Art*`): libart's adaptive radix tree with its four node layouts and with
  compressed paths of which only ten bytes are stored. Search, insertion and deletion are
  those of a map; iteration is in increasing key order.
- **Suffix array** (`Suffix*`): prefix doubling in three variants. All build the one suffix
  array of the text, if the first sort looks at one symbol or the symbols are positive; for
  every other text it is said exactly when.
- **Memory pool** (`Pool*`, `MemPool`): size-segregated free lists and a skip list, both
  stored inside the free blocks. Blocks tile the used memory, allocation takes the best fit
  while no stored size has wrapped, and no operation changes a word of another live block.
- **String map** (`Str*`, `Rearrange`): `hash_strmap` with all keys in one pool, freelists by
  slot length inside it, changing the number of freelists, in-place compaction, sorting and
  range search. Every run does and answers what a finite map does.
- **Record codec** (`Record*`): the store's encoding of BSON documents. Decoding gives the
  same bytes back iff the document is canonical.
- **Three-way quicksort** (`SortBase`, `Sort3`, `EqualRange`) and **packed integers**
  (`PackedBits`, `PackedInts`).

Where a promise does not hold for all inputs, the model keeps the code as it is, shows an
input that fails, and proves exactly when the promise holds:

- The load limit of a table is kept in 32 bits. `reserve(cap)` covers `cap` iff `cap` is at
  most 3003121660 (`DefaultReserveCovers`; for all load factors, `ReserveCovers`). Above that the table rehashes while it fills. Its
  limit covers the full table iff the capacity is at most 3422552035 or from 3422552041 to
  4294967288 (`RoomyExactly`); there the cache is safe. At the others a full cache with
  two victims unlinked rehashes when the first is done, and the second comes back
  (`VictimComesBack`).
- A node array of the string map computes its next size in 32 bits. It can grow iff it has
  fewer than 41698711 slots when full (`NodeCapFits`). Growing by insertion only, it stops at
  53828994 slots (`GrowthStops`).
- The string map's pool has a limit on its offsets that is checked against live bytes, or not
  at all without automatic compaction. `Insert` says exactly when a key is added, when the
  source stops, and when it would go past the limit.
- The cache can hold a key twice: keys stay unique throughout a run iff no insertion that
  dropped the lock to evict returns and finds its key there (`RunUnique`,
  `DuplicateIsReachable`).
- The suffix array's first sort by several symbols pads the text with zeros. What is built is
  the suffix array for all texts over symbols from `lo` on iff `lo` is positive
  (`BuiltNeedsPositive`), so for all appended characters that are not negative. For a single
  text it depends on the suffixes that begin earlier ones and end inside a window
  (`BuiltExactly`).
- The pool stores the size of a free huge block in one link. With four-byte links it wraps iff
  the block has 4 GiB or more (`StoredExact`). Such a block is not found again for a request
  of its own size (`AskAgain`), and when it serves a smaller one, what its size does not count
  is lost. A pool of up to 4 GiB, and every pool with eight-byte links, never gets there
  (`Facts`); in a larger one it is freeing such a block below the top that leads there
  (`FreeBlock`).
- The pool's counters of free bytes are too high after a block was split, by the sum of what
  was cut off (`Facts`).
- A document without regular expressions and DBRef values survives the codec iff it has no
  `MinKey`, no boolean byte other than 0 and 1, no NUL inside a string, and arrays whose items
  are named by their index (`RoundTrip`). Values of those two types are copied from the wrong
  place, and each survives only next to bytes that happen to fit (`RegExSurvives`,
  `DbRefSurvives`).
- The one-load read of a packed integer is right at every index iff the width is at most 58,
  or 60, or 64 (`FastGetReadsAll`).
- `sort_fast` compacts first and relinks only when two slots or more are left. It breaks the
  map, and loses the key, iff one slot is left and the first slot was free (`SortFast`,
  `SortLosesKey`).
- `equal_range3(prefix, prefixlen)` is offered for finding common prefixes. Its comparison
  looks at lengths when the prefix is as long as the search key, so it finds the key equal
  to the prefix and no other; the range is right iff no key extends the prefix
  (`EqualRangeOfPrefix`, `PrefixMissesLonger`).

Classes stand for the objects the library changes in place; their ghost fields (chains,
lists, blocks) are what the invariants speak of. `std::sort`, heap sort and the standard
bounds are represented by their contracts.

## Model

| member | source | states |
|---|---|---|
| `HashSizing.NextPrime` | src/terark/hash_common.cpp:8-58 | The chosen bucket count is at least the request, up to the largest table entry; a larger request gets that entry |
| `HashSizing.NextPrimeIsLeast` | src/terark/hash_common.cpp:8-58 | No entry is skipped: every request between `n` and its prime gets the same prime |
| `HashSizing.NextPrimeGrows` | src/terark/gold_hash_map.hpp:917-920 | Asking for one bucket more always moves on to a larger prime, until the table ends |
| `HashSizing.ReserveCovers` | src/terark/gold_hash_map.hpp:483-511 | For every capacity and load factor `reserve(cap)` raises the load limit to `cap` iff the load of the chosen prime survives the 32-bit store, or it is one of five reservations whose truncated load is large enough by chance |
| `HashSizing.DefaultReserveCovers` | src/terark/gold_hash_map.hpp:483-511 | With the default load factor `reserve(cap)` covers `cap` iff `cap` is at most 3003121660 |
| `HashChains.ChainUnique` | src/terark/gold_hash_map.hpp:911-915 | Head and links determine a collision chain: a walk sees one sequence of slots |
| `HashChains.ChainPush` | src/terark/gold_hash_map.hpp:921-924 | Linking at the head prepends to the chain and leaves it finite and free of repeats |
| `HashChains.ChainRemove` | src/terark/gold_hash_map.hpp:1310-1316 | Overwriting the field that points at a slot removes just this slot from the chain |
| `HashSlots.ContentsPut` | src/terark/gold_hash_map.hpp:921-924 | Constructing an element in an invisible slot adds one binding to the map and no other change |
| `HashSlots.ContentsTake` | src/terark/gold_hash_map.hpp:1300-1317 | Hiding or destroying a visible slot removes its binding and no other |
| `HashSlots.SieveContents` | src/terark/gold_hash_map.hpp:713-753 | Squeezing a table down to the elements that pass a test keeps exactly the bindings that pass it |
| `HashSlots.CompactionKeepsMap` | src/terark/gold_hash_map.hpp:1249-1280 | Compaction changes no binding and keeps keys unique |
| `HashSlots.SieveTwice` | src/terark/gold_hash_map.hpp:713-753 | Compacting first and then filtering is the same as filtering once |
| `HashSlots.ErasedInPlace` | src/terark/gold_hash_map.hpp:859-877 | Erasing in place the elements that fail a test filters the map |
| `HashBuckets.ChainsDisjoint` | src/terark/gold_hash_map.hpp:153-237 | No slot is in the chains of two buckets |
| `HashBuckets.LinkSlot` | src/terark/gold_hash_map.hpp:921-924 | Hooking a slot into the bucket of its hash keeps every chain sound and changes this one only |
| `HashBuckets.UnlinkSlot` | src/terark/gold_hash_map.hpp:1304-1317 | Unhooking a slot keeps every chain sound and takes out this slot only |
| `HashBuckets.FreePush` | src/terark/gold_hash_map.hpp:1283-1288 | An erased slot becomes the head of the freelist that runs through the element storage |
| `HashBuckets.FreePop` | src/terark/gold_hash_map.hpp:1066-1073 | Reusing the freelist head leaves the rest of the freelist |
| `HashBuckets.AllFree` | src/terark/gold_hash_map.hpp:662-684 | When every slot is on the freelist, every bucket is empty |
| `GoldHashTab.Table.constructor` | src/terark/gold_hash_map.hpp:129-151 | The empty table satisfies the invariant and stands for the empty map |
| `GoldHashTab.SqueezeDeleted` | src/terark/gold_hash_map.hpp:1249-1280 | The compaction loop leaves exactly the live elements, in slot order |
| `GoldHashTab.SqueezeSelected` | src/terark/gold_hash_map.hpp:713-753 | One pass leaves exactly the elements the predicate does not select, in order |
| `GoldHashTab.Table.Relink` | src/terark/gold_hash_map.hpp:153-237 | Every live slot ends in the chain of its hash, also one that had been unlinked; elements do not move |
| `GoldHashTab.Table.Rehash` | src/terark/gold_hash_map.hpp:483-505 | Buckets become the prime for the request; elements keep their slots; the load limit is that of the new count |
| `GoldHashTab.Table.Reserve` | src/terark/gold_hash_map.hpp:508-532 | Node capacity becomes `cap` unless the array is exactly full; buckets fit `cap`; the map stays |
| `GoldHashTab.Table.Find` | src/terark/gold_hash_map.hpp:1138-1151 | Returns the linked slot of the key, or the number of slots iff no linked slot has it |
| `GoldHashTab.Table.RiskSlotAlloc` | src/terark/gold_hash_map.hpp:1054-1077 | The new slot was free or is new; no other slot changes; the freelist loses its head or nothing |
| `GoldHashTab.DoublingFits` | src/terark/gold_hash_map.hpp:1060-1061 | Doubling a full node array passes the checks of the source iff the doubled number fits 32 bits below the reserved values |
| `GoldHashTab.Table.LazyInsert` | src/terark/gold_hash_map.hpp:908-931 | Inserts iff the key is absent, whenever a slot is free, unused, or can be had by doubling; the map gains this binding only; no element moves |
| `GoldHashTab.Table.RiskUnlink` | src/terark/gold_hash_map.hpp:1300-1317 | The slot leaves the map but stays constructed and is remembered as unlinked |
| `GoldHashTab.Table.FastSlotFree` | src/terark/gold_hash_map.hpp:1283-1295 | The slot goes on the freelist; past half free slots, with automatic compaction on, the table is squeezed |
| `GoldHashTab.Table.RevokeDeleted` | src/terark/gold_hash_map.hpp:880-887 | Compaction keeps live elements in order and every key findable; without free slots it does nothing |
| `GoldHashTab.Table.Erase` | src/terark/gold_hash_map.hpp:1198-1213 | Returns 1 iff the key was there; afterwards the map lacks it and nothing else |
| `GoldHashTab.Table.EraseIf` | src/terark/gold_hash_map.hpp:821-831 | The map keeps exactly the bindings the predicate does not select, whichever way slots are reused |
| `GoldHashTab.Table.KeepidEraseIf` | src/terark/gold_hash_map.hpp:859-877 | The same filter, with all slot numbers kept |
| `GoldHashTab.Table.EraseAll` | src/terark/gold_hash_map.hpp:662-684 | The map is empty; capacity and load factor stay |
| `GoldHashTab.Table.SetLoadFactor` | src/terark/gold_hash_map.hpp:534-541 | The load factor changes, the map does not |
| `GoldHashTab.Table.Run` | src/terark/gold_hash_map.hpp:430-1335 | Every run of table operations, up to the first that the source does not allow, answers and ends as the finite map does |
| `LruProtocol.StepKeeps` | src/terark/lru_map.hpp:72-249 | Every locked section and every store outside the lock keeps the invariant: counts equal holders, the ring is the unreferenced done entries by release time, one solver and one evictor per slot |
| `LruSafety.RunKeeps` | src/terark/lru_map.hpp:72-249 | The invariant holds after every interleaving of any number of clients |
| `LruSafety.RunHeld` | src/terark/lru_map.hpp:121-122 | Over every run, until a client gives its reference back, its slot is not evicted, freed or given another key, and a value it holds does not change |
| `LruSafety.ReferencedIsPinned` | src/terark/lru_map.hpp:103-107 | A referenced slot is in no ring, no victim, and visible through the table |
| `LruSafety.VictimIsOldest` | src/terark/lru_map.hpp:221-233 | The victim is the least recently released of all unreferenced entries |
| `LruSafety.QuiescentIsAllCached` | src/terark/lru_map.hpp:161-172 | With no call in flight and nothing held, every slot is in the ring: nothing leaks |
| `LruSafety.StuckMeansAllBusy` | src/terark/lru_map.hpp:244-248 | The cache gives up only when every slot is referenced or being evicted |
| `LruSafety.UniqueUnless` | src/terark/lru_map.hpp:114-118 | A step makes a key appear twice iff an insertion returns from eviction and finds its key inserted meanwhile |
| `LruSafety.RunUnique` | src/terark/lru_map.hpp:114-118 | Keys stay unique throughout a run iff the run has no such step |
| `LruSafety.RacingInsertionsDuplicate` | src/terark/lru_map.hpp:215-249 | Two insertions of one key that both evict leave the key in two visible slots |
| `LruSafety.DuplicateIsReachable` | src/terark/lru_map.hpp:215-249 | From the empty cache, at every capacity from two on, some run ends with a duplicated key |
| `LruRing.PushLinks` | src/terark/lru_map.hpp:177-195 | The pointer surgery of a release prepends to the circular list |
| `LruRing.RemoveLinks` | src/terark/lru_map.hpp:199-214 | The pointer surgery of a removal deletes one node of the circular list |
| `LruCoupling.TagsDecode` | src/terark/lru_map.hpp:24-28 | The reserved values of the next pointer tell the four phases of an entry apart |
| `LruLoad.StageStep` | src/terark/gold_hash_map.hpp:987-990 | On the way to such a capacity every insertion stays within the known bucket counts and slot numbers, rehashing or not |
| `LruLoad.StageFull` | src/terark/gold_hash_map.hpp:483-505 | A table filled to one of these capacities has a load limit that covers it, so it never rehashes again |
| `LruLoad.RoomyExactly` | src/terark/gold_hash_map.hpp:483-511 | Filled by insertion, a reserved table has a limit that covers its capacity iff that is at most 3422552035 or from 3422552041 to 4294967288; at the others the next insertion rehashes |
| `LruMap.Lru.constructor` | src/terark/lru_map.hpp:52-56 | At each of these capacities the reserved cache refines the initial state of the protocol |
| `LruMap.Lru.InsertAsNewHead` | src/terark/lru_map.hpp:177-195 | Does exactly the pointer surgery above on the value nodes and counts it |
| `LruMap.Lru.RemoveNode` | src/terark/lru_map.hpp:199-214 | Does exactly the removal above, moving the head on if it was the head |
| `LruMap.Lru.Get` | src/terark/lru_map.hpp:72-112 | The locked part of `lru_get` is a protocol step: miss, failed, join a solver, or take a reference |
| `LruMap.Lru.Add` | src/terark/lru_map.hpp:114-149 | The locked part of `lru_add` is a protocol step: hit, join, insert, or begin an eviction; or the cache is full with an empty ring and the source stops |
| `LruMap.Lru.EvictLeastRecent` | src/terark/lru_map.hpp:221-234 | Unhooks the tail of the ring from ring and table and marks it as being evicted |
| `LruMap.Lru.InsertNew` | src/terark/gold_hash_map.hpp:970-1003 | The insertion does not grow the nodes, and rehashes only while no victim is unlinked, so a victim is never hooked in again |
| `LruMap.VictimComesBack` | src/terark/gold_hash_map.hpp:983-1010 | A run from the reservation on: a table filled to its capacity, two victims unlinked, the first freed, and the load check of the next insertion makes the second visible again iff the capacity is one of the others |
| `LruMap.Lru.FinishEvict` | src/terark/lru_map.hpp:240-242 | Freeing the victim and inserting in the same locked section is the protocol's second half of an eviction |
| `LruMap.Lru.Solved` | src/terark/lru_map.cpp:76-81 | The store outside the lock is the protocol's solve step |
| `LruMap.Lru.Observed` | src/terark/lru_map.cpp:57-74 | A waiter leaves with a reference iff the solver succeeded |
| `LruMap.Lru.ReleaseFailed` | src/terark/lru_map.hpp:150-158 | The last reference to a failed entry erases it, an earlier one only counts down |
| `LruMap.Lru.Release` | src/terark/lru_map.hpp:161-172 | Giving back a reference is the protocol's release step; the last one threads the slot in at the front |
| `ArtNodes.Child` | 3rdparty/libart/art.c:135-220 | `find_child` in each of the four layouts yields a proper subtree |
| `ArtNodes.AddChildAdds` | 3rdparty/libart/art.c:383-523 | In every layout, growing included, adding a child adds one byte's child, keeps the others and the header, and keeps occupancy in range |
| `ArtNodes.Make48Layout` | 3rdparty/libart/art.c:463-471 | The indexed layout rebuilt from a list is sound |
| `ArtNodes.TakenSlots` | 3rdparty/libart/art.c:389-395 | Taken positions of the indexed layout belong to distinct bytes, so a free one is found |
| `ArtShrink.CollectedList` | 3rdparty/libart/art.c:650-742 | Shrinking to a smaller layout keeps every child |
| `ArtShrink.CollectList` | 3rdparty/libart/art.c:821-867 | In the list layouts the stored order is the byte order |
| `ArtTree.MinimumStep` | 3rdparty/libart/art.c:294-317 | The minimum leaf is that of the smallest byte's child, whatever the layout |
| `ArtTree.HasBelow` | 3rdparty/libart/art.c:262-291 | A key is held only below the byte it has after the node's path |
| `ArtSearch.CheckPrefixLoop` | 3rdparty/libart/art.c:231-239 | The loop counts the stored path bytes the key matches |
| `ArtSearch.ArtSearch` | 3rdparty/libart/art.c:262-291 | The loop computes the recursive lookup |
| `ArtSearch.SearchFinds` | 3rdparty/libart/art.c:262-291 | On a well-formed tree lookup returns a value iff the tree holds that binding, for every key, whatever lies past its end |
| `ArtInsertProof.MismatchOk` | 3rdparty/libart/art.c:528-547 | From ten stored bytes and the minimum leaf the comparison finds the exact byte where a key leaves the path |
| `ArtInsertProof.ForkPoint` | 3rdparty/libart/art.c:367-375 | Two keys neither of which begins the other part at a byte both have |
| `ArtInsertProof.CutWF` | 3rdparty/libart/art.c:594-615 | Splitting a compressed path leaves the old subtree under the rest of its path |
| `ArtInsertProof.InsertOk` | 3rdparty/libart/art.c:549-632 | Insertion yields a well-formed tree that holds the new binding and all others, and hands back the replaced value |
| `ArtDelete.Rehung` | 3rdparty/libart/art.c:719-741 | Collapsing a node with one child keeps the subtree under the joined path |
| `ArtDelete.DeleteOk` | 3rdparty/libart/art.c:759-799 | For every key deletion leaves a well-formed tree with exactly the other bindings and hands back the removed value |
| `ArtIter.WalkFeeds` | 3rdparty/libart/art.c:821-867 | The recursive walk with early exit is one pass over the list of bindings |
| `Art.Tree.constructor` | 3rdparty/libart/art.c:53-57 | The empty tree stands for the empty map |
| `Art.Tree.Get` | 3rdparty/libart/art.c:262-291 | Lookup is the map's lookup, for every key |
| `Art.Tree.Put` | 3rdparty/libart/art.c:643-648 | Insertion is map update and returns what was there |
| `Art.Tree.Remove` | 3rdparty/libart/art.c:809-817 | Deletion is map removal, also of an absent key, and returns what was there |
| `Art.Tree.Iterate` | 3rdparty/libart/art.c:879-881 | The callback gets every binding once in increasing key order, up to its first nonzero answer |
| `Art.Tree.Run` | 3rdparty/libart/art.c:262-881 | Every run answers and ends as the map does if each key fits the stored ones when it is inserted; lookups and deletions take any key |
| `SuffixOrder.CmpSplit` | obsoleted/obsoleted/suffix_tree.cpp:69-82 | Comparing `a + b` symbols is comparing `a`, then `b` more after a tie, also window by window |
| `SuffixOrder.CompKDoubles` | obsoleted/obsoleted/suffix_tree.cpp:56-92 | Inside a group that ties on `k` symbols the comparator decides by `2k` symbols, ends of text included |
| `SuffixOrder.CmpIsLex` | obsoleted/obsoleted/suffix_tree.cpp:56-92 | Untruncated, the comparison is lexicographic order |
| `SuffixOrder.SuffixArrayUnique` | obsoleted/obsoleted/suffix_tree.cpp:102-358 | There is one suffix array, so all three builders agree |
| `SuffixGroups.ExtendSorted` | obsoleted/obsoleted/suffix_tree.cpp:127-137 | Sorting one tied group by `2k` symbols extends the sorted part over it |
| `SuffixGroups.NamesRank` | obsoleted/obsoleted/suffix_tree.cpp:139-150 | Ranks given along a sorted array order the suffixes and identify ties |
| `SuffixGroups.AllCut` | obsoleted/obsoleted/suffix_tree.cpp:120 | When nothing ties the array is the suffix array |
| `SuffixGroups.CutToTheEnd` | obsoleted/obsoleted/suffix_tree.cpp:216 | Rounds left out because nothing ties would have changed nothing |
| `SuffixRound.CompKWeakOrder` | obsoleted/obsoleted/suffix_tree.cpp:84-91 | Inside a group the comparator is the strict weak order that sorting needs |
| `SuffixRound.SortGroup` | obsoleted/obsoleted/suffix_tree.cpp:129-137 | Sorts one group by `2k` symbols and leaves the rest of the array |
| `SuffixRound.CutNext` | obsoleted/obsoleted/suffix_tree.cpp:139-150 | Cuts off exactly the next group that ties on `2k` symbols |
| `SuffixRound.RoundDone` | obsoleted/obsoleted/suffix_tree.cpp:152-155 | A finished round is ready for twice as many symbols |
| `SuffixFirstN.SortSymbols` | obsoleted/obsoleted/suffix_tree.cpp:112 | The first sort orders suffixes by one symbol |
| `SuffixFirstN.DistinctSymbols` | obsoleted/obsoleted/suffix_tree.cpp:185-196 | One symbol separates all suffixes iff no symbol repeats |
| `SuffixFirstN.ComparesWindows` | obsoleted/obsoleted/suffix_tree.cpp:22-54 | On any text the comparator compares windows of the padded text |
| `SuffixFirstN.PaddingEndsText` | obsoleted/obsoleted/suffix_tree.cpp:198 | Over positive symbols a window of the padded text compares like the text with its end |
| `SuffixFirstN.BuiltIsSuffixArray` | obsoleted/obsoleted/suffix_tree.cpp:160-358 | What is built is the suffix array when the first sort looks at one symbol or the symbols are positive |
| `SuffixFirstN.BuiltNeedsPositive` | obsoleted/obsoleted/suffix_tree.cpp:160-358 | For all texts over symbols from `lo` on and every `FirstN`, every array that can be built is the suffix array iff `lo` is positive |
| `SuffixFirstN.TwoSymbols` | obsoleted/obsoleted/suffix_tree.cpp:198-216 | For two equal symbols that are not positive a wrong array can be built by two symbols, and no other can if they are negative; no round follows |
| `SuffixBorders.BuiltExactly` | obsoleted/obsoleted/suffix_tree.cpp:160-358 | For every text and every `FirstN`, every array that can be built is the suffix array iff each suffix that begins an earlier one ends with a window, or before a symbol above zero in it, or before zeros with a window to come |
| `SuffixBorders.WindowsTell` | obsoleted/obsoleted/suffix_tree.cpp:198-216 | Comparing windows orders an earlier and a later suffix as comparing symbols does, but for a suffix that begins the earlier one and does not end below it |
| `SuffixFirstN.SortFirstN` | obsoleted/obsoleted/suffix_tree.cpp:198-200 | On any text the first sort orders suffixes by their window of `FirstN` symbols |
| `SuffixParts.PartsSingles` | obsoleted/obsoleted/suffix_tree.cpp:216 | There are as many groups as suffixes iff nothing ties |
| `SuffixParts.PartsRound` | obsoleted/obsoleted/suffix_tree.cpp:216-260 | One round, group by group, leaves sorted, numbered and listed groups of `2k` symbols |
| `SuffixRanges.RangesRound` | obsoleted/obsoleted/suffix_tree.cpp:319-357 | One round over the listed ranges of two or more does the same, touching no other suffix |
| `SuffixArrays.StoredOrder` | obsoleted/obsoleted/suffix_tree.cpp:96-100 | Storing characters one higher changes no order |
| `SuffixArrays.SuffixArray.Append` | obsoleted/obsoleted/suffix_tree.cpp:96-100 | The text grows by the character, one higher |
| `SuffixArrays.SuffixArray.Build` | obsoleted/obsoleted/suffix_tree.cpp:102-158 | `sa` is the suffix array of the text; `rank` its inverse unless the text has one symbol |
| `SuffixArrays.SuffixArray.BuildN` | obsoleted/obsoleted/suffix_tree.cpp:160-262 | On any text the suffixes end sorted window by window; with one symbol or positive ones that is the suffix array, and `rank` its inverse unless `FirstN` is 1 and no symbol repeats |
| `SuffixArrays.SuffixArray.BuildO` | obsoleted/obsoleted/suffix_tree.cpp:266-358 | On any text the same; with one symbol or positive ones the suffix array, and `rank` its inverse, as `verify` checks |
| `SuffixArrays.DoublingRound` | obsoleted/obsoleted/suffix_tree.cpp:120-156 | One round doubles the symbols sorted by |
| `PoolSkip.LevelSplits` | src/terark/mempool_fixed_cap.hpp:256-261 | A position splits every level of the skip list where it splits level 0 |
| `PoolSkip.LevelsNest` | src/terark/mempool_fixed_cap.hpp:349-373 | Each level is a subsequence of the one below, sorted by size if level 0 is |
| `PoolSearch.Search` | src/terark/mempool_fixed_cap.hpp:253-262 | On any list the search stops before a node that says it is not smaller, or at the end, and finds the predecessor on every level; in a sorted list there is only one such place |
| `PoolLinks.PutNode` | src/terark/mempool_fixed_cap.hpp:358-370 | Linking a block in at a random level and any position keeps all levels linked, stores the size, and writes to list nodes only |
| `PoolTake.TakeNode` | src/terark/mempool_fixed_cap.hpp:267-271 | Unlinking removes the node from every level that holds it, drops empty top levels, and writes to list nodes only |
| `PoolBlocks.Covered` | src/terark/mempool_fixed_cap.hpp:282-287 | Every used word is in a block |
| `PoolBlocks.TiledSum` | src/terark/mempool_fixed_cap.hpp:282-287 | Block lengths add up to the used words |
| `PoolBins.BinExact` | src/terark/mempool_fixed_cap.hpp:237-239 | A small list holds blocks of one length, and a length has a list iff it is small |
| `PoolBooks.Conservation` | src/terark/mempool_fixed_cap.hpp:232-375 | Live and free words together are the used words |
| `PoolBooks.WordsFit` | src/terark/mempool_fixed_cap.hpp:83-85 | Rounding covers the request by the fewest alignment units |
| `PoolState.PushKeeps` | src/terark/mempool_fixed_cap.hpp:339-346 | Putting a block on its small list keeps the pool sound and every live word |
| `PoolState.PopKeeps` | src/terark/mempool_fixed_cap.hpp:240-247 | Taking the head of a small list keeps the pool sound and yields a block of the asked length |
| `PoolState.PutKeeps` | src/terark/mempool_fixed_cap.hpp:348-373 | Putting a block into the skip list keeps the pool sound and every live word |
| `PoolState.TakeKeeps` | src/terark/mempool_fixed_cap.hpp:262-277 | Taking a block out of the skip list keeps the pool sound and every live word |
| `PoolState.WriteKeeps` | src/terark/mempool_fixed_cap.hpp:225-229 | A client may write any word of its block without harm to lists or other blocks |
| `PoolSizes.StoredExact` | src/terark/mempool_fixed_cap.hpp:370 | The stored size, bytes modulo the range of a link, is the length iff that is below 2^30 words of four bytes or 2^61 of eight; otherwise it is too small |
| `PoolSizes.FourGigabytes` | src/terark/mempool_fixed_cap.hpp:370 | A free block of 4 GiB behind four-byte links says it is empty |
| `PoolSizes.SizesPut` | src/terark/mempool_fixed_cap.hpp:348-373 | Freeing a block keeps a sorted list of exact sizes so iff the size of the block does not wrap |
| `MemPool.HugeFit` | src/terark/mempool_fixed_cap.hpp:256-265 | While no stored size is wrapped, the node the search stops at is the smallest free block that fits, and if there is none nothing fits |
| `MemPool.Pool.constructor` | src/terark/mempool_fixed_cap.hpp:88-103 | The empty pool is sound, has no wrapped size and has a list for every size up to the limit |
| `MemPool.Pool.AllocBlock` | src/terark/mempool_fixed_cap.hpp:232-289 | A free block that says it is large enough, cut to size, or new words on top; no live word changes. For a small request, and while no size is wrapped for a huge one: fails iff no free block fits and the top has no room, and takes the best free block iff one fits |
| `MemPool.Pool.FreeBlock` | src/terark/mempool_fixed_cap.hpp:327-375 | The block is free afterwards, at the top by shrinking; no other live word changes; a pool without wrapped sizes stays one iff the block is at the top, small, or below 2^30 words of four bytes |
| `MemPool.Pool.Facts` | src/terark/mempool_fixed_cap.hpp:232-375 | Live blocks are aligned, apart and below the top; held, lost and free words are the used ones; nothing is lost and no size is wrapped while the pool has at most 2^30 words of four bytes; both counters exceed the free words by the cut-off remainders |
| `MemPool.AskAgain` | src/terark/mempool_fixed_cap.hpp:232-375 | With four-byte links, a client that frees a huge block and asks for as much again gets it iff it is below 2^30 words; otherwise new words on top, or failure when there are none |
| `MemPool.Pool.Alloc` | src/terark/mempool_fixed_cap.hpp:232-289 | A new block of the asked size apart from all live ones, whose contents stay, or failure without change |
| `MemPool.Pool.Free` | src/terark/mempool_fixed_cap.hpp:327-375 | Exactly this block leaves; all other contents stay |
| `MemPool.Pool.Alloc3` | src/terark/mempool_fixed_cap.hpp:291-325 | The resized block, moved or not, keeps the words both sizes have; all other blocks stay; fails only when growing |
| `MemPool.Pool.Perform` | src/terark/mempool_fixed_cap.hpp:232-375 | Every legal operation acts on the map from blocks to contents as its specification says |
| `MemPool.Pool.Run` | src/terark/mempool_fixed_cap.hpp:232-375 | Any client that keeps to the rules, for any number of steps: every step does as specified, and a block no step names keeps its words |
| `MemPool.RunKeeps` | src/terark/mempool_fixed_cap.hpp:232-375 | Over every run a block that no operation names keeps its words |
| `RecordBytes.SaveVarUint` | src/terark/io/var_int_inline.hpp:95-118 | The loop writes seven bits a byte, lowest first |
| `RecordBytes.LoadVarUint` | src/terark/io/var_int_inline.hpp:26-76 | Reads back every stored 32-bit value and stops right after it; fails when a fifth byte asks for more |
| `RecordBytes.FiveBytes` | src/terark/io/var_int_inline.hpp:26-76 | A value that needs a sixth byte does not fit 32 bits |
| `RecordEncode.ScanKinds` | mongo-terark/src/record_codec.cpp:91-104 | The scan finds the type all items share, or says mixed |
| `RecordEncode.Encoder.ElemVal` | mongo-terark/src/record_codec.cpp:24-88 | Appends the stored form of one value |
| `RecordEncode.Encoder.Array` | mongo-terark/src/record_codec.cpp:90-115 | Appends count, common type and items, without their names |
| `RecordEncode.Encoder.Object` | mongo-terark/src/record_codec.cpp:117-124 | Appends type, name and value of every element and the end mark |
| `RecordDecode.Decoder.ElemVal` | mongo-terark/src/record_codec.cpp:141-229 | Rebuilds the very bytes of a stored value iff it is canonical, and otherwise fails or writes a wrong byte |
| `RecordDecode.Decoder.Object` | mongo-terark/src/record_codec.cpp:231-250 | The same for a whole object, the length filled in last |
| `RecordDecode.Decoder.Array` | mongo-terark/src/record_codec.cpp:252-276 | The same for an array, whose names are made up from the index |
| `RecordCodec.EncodeRecord` | mongo-terark/src/record_codec.cpp:126-134 | The stored record is the encoded document and its end mark |
| `RecordCodec.DecodeRecord` | mongo-terark/src/record_codec.cpp:278-286 | Decoding a stored document gives its bytes back iff it is canonical |
| `RecordCodec.RoundTrip` | mongo-terark/src/terark_writting_record_store.cpp:260-275 | What the store checks on insertion holds iff the document is canonical |
| `RecordCopies.RegExSurvives` | mongo-terark/src/record_codec.cpp:71-79 | A regular expression survives iff its options are its pattern and the document goes on with that string once more: the encoder copies from behind the pattern |
| `RecordCopies.DbRefSurvives` | mongo-terark/src/record_codec.cpp:181-188 | A DBRef value survives iff its bytes and those after it repeat every four, and then its name is shorter than four: the decoder copies from four bytes further on |
| `RecordCodec.NotCanonical` | mongo-terark/src/record_codec.cpp:141-276 | Four well-formed documents that are not canonical, one per reason |
| `Sort3.Partition` | obsoleted/obsoleted/sort3.hpp:80-138 | A permutation with smaller elements, a non-empty run equal to the pivot, then greater elements |
| `Sort3.Med3` | obsoleted/obsoleted/sort3.hpp:54-63 | Orders three places of the array |
| `Sort3.InsertionSort` | obsoleted/obsoleted/sort3.hpp:29-52 | Sorts the range by permuting it; the unguarded inner search stays inside |
| `Sort3.Sort` | obsoleted/obsoleted/sort3.hpp:140-169 | Sorts the range by permuting it, for every budget of divisions |
| `Sort3.SortAll` | obsoleted/obsoleted/sort3.hpp:171-181 | The array ends sorted and a permutation of what it was |
| `EqualRange.Find` | obsoleted/obsoleted/sort3.hpp:183-220 | Elements before the range are smaller, in it equal, after it greater |
| `PackedBits.GetIsField` | src/terark/bitmap.hpp:498-511 | Reading across two words gives the bits of the field |
| `PackedBits.SetUint` | src/terark/bitmap.cpp:593-619 | Writing across two words overwrites the field and no other bit |
| `PackedInts.FastGetIsField` | src/terark/int_vector.hpp:209-223 | One unaligned load reads the field when it ends within the loaded 64 bits |
| `PackedInts.FastGetMisses` | src/terark/int_vector.hpp:209-223 | When it does not, a row of ones is misread |
| `PackedInts.FastGetReadsAll` | src/terark/int_vector.hpp:209-223 | The load reads every item of every row iff the width is at most 58, or 60, or 64 |
| `PackedInts.MemSuffices` | src/terark/int_vector.hpp:89-95 | Every word and every load of every index lies inside the allocated bytes |
| `PackedInts.UintBits` | src/terark/int_vector.hpp:97-104 | The fewest bits that hold the value |
| `PackedInts.PutThenField` | src/terark/int_vector.hpp:57-64 | A field written is read back, and no other field changes |
| `PackedInts.UintVec.SetWire` | src/terark/int_vector.hpp:57-64 | Sets one item and no other |
| `PackedInts.UintVec.Get` | src/terark/int_vector.hpp:179-223 | Returns the item, at the widths the fast load is safe for |
| `PackedInts.UintVec.GetBig` | src/terark/int_vector.hpp:250-261 | Returns the item at every width |
| `PackedInts.Build` | src/terark/int_vector.hpp:111-134 | The vector gives back every source value from the least one, in the fewest bits |
| `StrKeys.ByteWiseIsLess` | src/terark/hash_strmap.hpp:77-91 | Comparing a zero-padded integer prefix first, then lengths or the rest, is plain byte order for all strings |
| `Rearrange.ByIndex` | src/terark/hash_strmap.hpp:2526-2577 | Moving along cycles in place leaves at every place what its index named |
| `StrSlots.StoredKey` | src/terark/hash_strmap.hpp:1691-1698 | A key written with padding and pad count is read back as it was |
| `StrPieces.PieceWrite` | src/terark/hash_strmap.hpp:1692-1698 | Writing one slot of the pool changes no other slot and no offset |
| `StrBins.PutFree` | src/terark/hash_strmap.hpp:1974-1988 | A freed slot heads the list of its length; all lists stay exact |
| `StrBins.TakeFree` | src/terark/hash_strmap.hpp:2024-2065 | A slot taken from anywhere in a list leaves all lists exact |
| `StrCompact.Squeeze` | src/terark/hash_strmap.hpp:1528-1581 | In-place compaction leaves the live keys and values in order, gapless |
| `StrRelist.JoinList` | src/terark/hash_strmap.hpp:2194-2210 | Joining a list to the last one loses no slot |
| `StrRelist.SpreadMove` | src/terark/hash_strmap.hpp:2233-2252 | Moving a slot out of the last list to the list of its length loses none |
| `StrTable.SqueezedCounts` | src/terark/hash_strmap.hpp:1572-1573 | The two checks compaction makes of its counters never fail |
| `StrMaps.StrMap.constructor` | src/terark/hash_strmap.hpp:252-280 | The empty map is sound |
| `StrMaps.StrMap.PutToFreelist` | src/terark/hash_strmap.hpp:1974-1988 | The slot joins the list of its length; keys, values and chains stay |
| `StrMaps.StrMap.TakeFast` | src/terark/hash_strmap.hpp:2024-2039 | Yields a free slot of exactly the asked length and counts it out |
| `StrMaps.StrMap.TakeHuge` | src/terark/hash_strmap.hpp:2041-2065 | Yields a free slot of exactly the asked length iff one of the first five has it, and otherwise changes nothing |
| `StrMaps.StrMap.Relink` | src/terark/hash_strmap.hpp:398-471 | Every live slot ends in the chain of its hash |
| `StrMaps.StrMap.Rehash` | src/terark/hash_strmap.hpp:942-963 | Buckets become the prime for the request; slots stay |
| `StrMaps.StrMap.Find` | src/terark/hash_strmap.hpp:1906-1931 | Finds the slot of the key iff the map has it |
| `StrMaps.StrMap.ValueOf` | src/terark/hash_strmap.hpp:1906-1931 | Gives the value the map has for the key, iff it has one |
| `StrMaps.StrMap.Insert` | src/terark/hash_strmap.hpp:1669-1712 | Adds an absent key iff a fitting slot is free or both arrays can take it, and otherwise tells whether the source stops or overruns the pool; the map gains this binding only |
| `StrGrowth.NodeCapFits` | src/terark/hash_strmap.hpp:2007-2010 | The new node capacity, computed in 32 bits, passes its check iff the full array has fewer than 41698711 slots |
| `StrGrowth.GrowthStops` | src/terark/hash_strmap.hpp:2007-2010 | A map that grows by insertion only reaches 53828994 slots, and then the next capacity comes out as 19522174 |
| `StrMaps.StrMap.NodeRoom` | src/terark/hash_strmap.hpp:1004-1022 | A full node array grows iff the new capacity passes its check, after compaction where that is on; the map stays |
| `StrMaps.StrMap.PoolRoom` | src/terark/hash_strmap.hpp:2068-2087 | Afterwards the key fits the pool, by compaction or growth, iff the limit allows it; otherwise the source stops or goes past the limit unchecked; the map stays |
| `StrMaps.StrMap.Erase` | src/terark/hash_strmap.hpp:1253-1275 | Erases iff present; the map loses this key only, whatever happens to the freed slot |
| `StrMaps.StrMap.DisableFreelist` | src/terark/hash_strmap.hpp:2264-2274 | The lists go, the map stays |
| `StrMaps.StrMap.EnableFreelist` | src/terark/hash_strmap.hpp:2180-2255 | The lists become those for the asked length, exact again after building, joining or spreading; the map stays |
| `StrMaps.StrMap.RevokeNoRelink` | src/terark/hash_strmap.hpp:1528-1581 | Live elements move down in order, links stay where they are |
| `StrMaps.StrMap.RevokeDeleted` | src/terark/hash_strmap.hpp:1584-1590 | Compaction keeps the map and gives back exactly the free bytes |
| `StrTable.Dangling` | src/terark/hash_strmap.hpp:2758-2779 | When the first slot is free, the bucket of every key points at a later slot |
| `StrMaps.StrMap.SortFast` | src/terark/hash_strmap.hpp:2758-2779 | Keys end strictly ascending and the map stays, unless compaction leaves one slot and the first was free: then the bucket of the key points past the end |
| `StrMaps.SortLosesKey` | src/terark/hash_strmap.hpp:2758-2779 | Two keys in, the first out, then a sort: a lookup of the other key leaves the table, for every hash |
| `StrMaps.StrMap.Run` | src/terark/hash_strmap.hpp:942-2779 | Every run of operations, lookups and switching automatic compaction among them, up to the first that is not allowed, does to the map what it says and answers as the map |
| `StrSort.SortIndex` | src/terark/hash_strmap.hpp:2643-2671 | The index is a permutation along which keys ascend |
| `StrSort.SameTotal` | src/terark/hash_strmap.hpp:2621 | The length check of the rearranged pool never fails |
| `StrSort.NewPool` | src/terark/hash_strmap.hpp:2605-2625 | The new pool is the slots in node order with contiguous offsets |
| `StrSort.PickedContents` | src/terark/hash_strmap.hpp:2600-2603 | Another order of the elements is the same map |
| `StrSearch.PrefixCompare3` | src/terark/fstring.hpp:668-684 | The loop computes the recursive comparison |
| `StrSearch.Compare3Zero` | src/terark/fstring.hpp:668-684 | Two strings compare equal iff they are the same or both are longer than the prefix length and share that prefix |
| `StrSearch.Compare3Ascends` | src/terark/fstring.hpp:668-684 | Along ascending keys the sign of the comparison never goes back |
| `StrMaps.StrMap.EqualRange3` | src/terark/hash_strmap.hpp:2855-2902 | The range is exactly the keys that compare equal, also when no probe hits |
| `StrMaps.StrMap.EqualRangeOfPrefix` | src/terark/hash_strmap.hpp:2903-2906 | Asking for a prefix finds just the key equal to it, so the common-prefix range iff no key extends the prefix |
| `StrRange.PrefixMissesLonger` | src/terark/hash_strmap.hpp:2903-2906 | In a map of `a` and `ab`, the prefix `a` finds the first only |

## Left out

- LruMap.Lru.constructor: only capacities whose load limit covers the full table; `RoomyExactly` and `VictimComesBack` show what happens at the others.
- LruMap.Lru.Observed: waiting on a solver is one step that sees its result; the futex loop and the lock itself are not modelled.
- LRU: the hit counter, changing the capacity later, iteration over all slots, and the cache on top of the string map.
- GoldHashTab.Table.KeepidEraseIf: not with automatic compaction on, which would move the elements the loop still has to visit.
- Hash tables: the hash cache, iterators, sorting, copying, serialization and failing allocation.
- ArtInsertProof.InsertOk: the key must not begin a stored key nor be begun by one, as libart assumes of its callers.
- Art.Tree.Put: the same.
- ART: subtrees are values, so updates through parent pointers are not modelled as heap writes; the vector instructions for sixteen keys are modelled by the portable comparison; `art_iter_prefix`, maximum and the tree destructor are left out.
- Suffix array: integer overflow of symbols and of `k * 2`, and the suffix tree built from the array. Comparators with early exit are recursive functions.
- MemPool.Pool.Alloc: requests are unbounded integers, so the wrap-around of rounding up a request near 2^64 is not modelled; a request is positive, as the source asserts.
- Memory pool: memory is a sequence of link-sized words; the random level is any level; reserve, copying, serialization and the lock-free and mutex variants are left out.
- RecordCodec.RoundTrip: regular expressions and DBRef values are not part of the documents, `RegExSurvives` and `DbRefSurvives` are about them alone; lengths fit 31 bits.
- RecordEncode.Encoder.ElemVal: no regular expressions and DBRef values, see `RegExSurvives` and `DbRefSurvives`.
- RecordDecode.Decoder.ElemVal: the same.
- Record codec: reading past the end of the bytes is a failure in the model.
- StrMaps.StrMap.Insert: allocation never fails; after `Overrun` the model stops, where the source goes on with offsets that no longer fit.
- StrMaps.StrMap.EqualRange3: the map must be sorted and without free slots; the flag by which the source remembers a sort is not modelled.
- StrMaps.StrMap.SortFast: the sort itself is represented by its contract; the variant that sorts nodes instead of an index, and sorting by value, are left out.
- StrMaps.StrMap.constructor: alignments below four, which the source allows without freelists, are left out.
- String map: the hash cache, values stored inside nodes, erasing by predicate, the copy constructor and serialization.
- PackedInts.UintVec.Get: widths up to 58, as the source asserts.
- Packed integers: the incremental builder, run lengths in bitmaps and binary searches over packed vectors.
- Sort3.Sort: the heap sort it falls back on is represented by its contract.
- The rest of the library: I/O streams, RPC, tries, regular expressions, thread tools and the database glue around the codec.

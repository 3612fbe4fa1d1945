# Verification of reiser4progs' core in Dafny

This project models four connected cores of reiser4progs and proves properties of the models.

1. **The in-memory node cache with delayed block allocation** (`CacheState`, `CacheSteps`, `CacheWalk`, `CacheGrow`, `CacheShift`, `TreeCache`). New nodes carry fake block numbers and reserve space in the superblock's free count; a walk over the cache gives them real blocks, patches the links to them, writes them and unloads them. `CacheState.Inv` is the invariant of every operation: it ties node objects, hash table, parent places, lock counters, superblock, allocator and device to a logical tree of named nodes that does not change when a node merely moves, is written, loaded or unloaded.
2. **The balanced tree as a sorted sequence** (`SearchTree`, `TreeWalk`, `TreeKeys`, `FlowRead`). Data lies in leaves and, as extents between node pointers, in twigs. `FlatNode` is the in-order sequence of data items; lookup, neighbour search, iteration, key repair and reading are proved against it.
3. **The block bitmap and what is stored with it** (`Bitmap`, `Adler`, `Alloc40`, `Backup`): the cached count of marked blocks, the run-length form, the chunks of alloc40 with their checksums, and the placement of backup copies.
4. **The passes of fsck** (`BlockSet`, `Filter`, `Owners`, `Joining`, `Recovery`, `AddMissing`): the walk over an arbitrarily corrupt pointer graph, the screening and joining of extent units, and the hand-over of the used, met, twig, leaf, scan and allocator bitmaps from the filter to the insertion of nodes found outside the tree.

`Common` and `Arithmetic` hold what several of these use: an optional value, words of 32 and 64 bits, division.

Methods are proved against specification functions and predicates; ghost fields hold the logical tree, the pins, the list of accepted pointers, the set of blocks handed out and what became of each node dealt with. Input and output, failing reads, memory pressure and what the tree answers during the insertion pass are parameters of the methods, what it allocates and releases meanwhile are arbitrary choices.

`dafny verify dfyconfig.toml` checks the whole project.

## What the code does differently from what one might expect

Each of these is proved, as an exact condition wherever the table says "exactly when"; the members named after "at" state it at a concrete input.

- The twig scan joins the extent units of an item after screening them. A unit of zeroed or hole blocks is joined with the unit behind it when its width happens to be the block that unit begins at; the joined unit is a hole, and blocks that were just accepted, marked met and, in the tree, marked used are no longer pointed to (plugin/item/extent40/extent40_repair.c:26-47). Nothing is lost exactly when no unit stands directly behind a run of holes as wide as the block it begins at (`Joining.LosesNothing`, `Joining.LosesAtHoles`, `Joining.NothingLost`; at `Joining.AcceptedAndLost`, `Recovery.ScanLoses`).
- The widths of joined units are added in 64 bits; a joined unit is never empty while they do not wrap (`Joining.JoinedNotEmpty`; at `Joining.JoinedEmpty`).
- The loop that marks a region for the disk scan counts in 32 bits up to a 64-bit end (librepair/repair.c:204-224), so it does not end once a region it is given holds block 2^32 - 1 or a later one (`Recovery.Passes.DsPrepare`; at `Recovery.PrepareHangs`).
- Reading the packed form of a bitmap adds run lengths in 64 bits, so a stream whose runs do not sum to the announced length is accepted when the sum wraps and every test passes all the same, and a marked run that wraps is handed to the marking of a region that ends outside the map (libreiser4/bitmap.c:405-426; `Bitmaps.Unpack`; at `Bitmaps.WrappedStream`, `Bitmaps.OverrunStream`).
- The test of a region computes its last block in 64 bits; a region that begins inside and reaches past 2^64 passes (libreiser4/bitmap.c:159-182; `Bitmaps.Bitmap.TestRegion`; at `Bitmaps.WrappedRegion`).
- When a bitmap grows or is inverted, the bits behind its old end are cleared up to eight times its size in bytes, computed in 32 bits: from 2^29 bytes on they are not cleared (libreiser4/bitmap.c:288-293, 326-329). Inverting then leaves bits set behind the end, and growing counts wrongly if one of them was set (`Bitmaps.Bitmap.Invert`, `Bitmaps.Bitmap.Resize`; at `Bitmaps.Miscounted`, `Bitmaps.InvertedMiscounted`). A bitmap shrunk and enlarged again within its last byte shows the old bits again; its counter follows them.
- The filter pass tests the root pointer with `>` against the filesystem length (librepair/filter.c:623-624), so a root at the first block behind the end is accepted; only then the count of good nodes differs from the growth of the used bitmap (`Filter.NodesCounted`; at `Filter.RootBehindEnd`).
- A node pointer that holds the invalid block number ends the traversal of its node without being counted as a corruption (librepair/filter.c:211-212, libreiser4/tree.c:3138-3139; `Filter.SilentPointers`; at `Filter.SilentRun`).
- `reiser4_flow_read` steps from an extent in a twig to the item behind it without going down; when that is a node pointer, an operation is called that node pointers do not have (at `FlowRead.BlindTree`). The length of a step is kept in a signed 32-bit number (at `FlowRead.WideHole`). The hint's key and buffer are restored only when the read ends without an error, and its count is left at what was wanted when the last item was read; when the item behind the last one cannot be reached, the bytes of that last one are in the buffer without being accounted for (`FlowRead.ReadFlow`).
- `alloc40_layout` visits a chunk too many when a multiple of the blocks per bitmap block lies just behind the end of the filesystem (`Alloc40.LayoutExact`; at `Alloc40.ExtraChunk`).
- `alloc40_create` reserves no place for the checksum of a short last chunk, unlike open and unpack (`Alloc40.CreatedSumsSuffice`; at `Alloc40.NoSum`).
- Open and unpack compute the room for the checksums with a sum of 32-bit words; when it wraps there is room for fewer than there are chunks (plugin/alloc/alloc40/alloc40.c:142-143, plugin/alloc/alloc40/alloc40_repair.c:185-186; `Alloc40.OpenedSumsSuffice`; at `Alloc40.NoRoom`).
- A node allocation whose node object cannot be created has already taken a block off the free count (`CacheGrow.LostKeeps`).
- When the insertion of a node's items fails halfway, the items already inserted count as used while the node still waits; the other waiting nodes stay safe, and the node itself exactly if none of its regions has gone in (`AddMissing.Adding.CopyNode`; at `AddMissing.HalfCopied`).
- Disk scan is meant to cover the regions of broken bitmap blocks, but the callback gets the number of the bitmap block itself (plugin/alloc/alloc40/alloc40_repair.c:30-33, librepair/repair.c:317-320), so only that block counts as allocated (`Recovery.Passes.DsPrepare`).

## Model

| member | source | states |
|---|---|---|
| TreeCache.Tree.AdjustNode | libreiser4/tree.c:1280-1308 | Giving a real block to a node under a fake number never fails for lack of space, takes a block nobody uses, and keeps the whole invariant |
| CacheSteps.AdjustHasSpace | libreiser4/tree.c:1280-1308 | While a node carries a fake number some bit of the allocator is clear |
| CacheSteps.AdjustKeeps | libreiser4/tree.c:101-127 | Superblock root, parent's link and hash table follow the node to its new block: all of them, and the lock counters and free count, stay exact |
| TreeCache.Tree.Allocate | plugin/alloc/alloc40/alloc40.c:376-404 | One block is found exactly when one is free, the lowest one |
| TreeCache.Tree.AllocNode | libreiser4/tree.c:859-902 | A node is created exactly when the free count is positive and the object can be made; the free count plus the fake nodes plus the lost blocks stays the number of clear bits |
| CacheGrow.LostKeeps | libreiser4/tree.c:859-902 | A failed creation takes a block off the free count and keeps everything else |
| TreeCache.Tree.ReleaseNode | libreiser4/tree.c:904-929 | A released node gives back its reservation or its block, so space is conserved |
| CacheSteps.CreateKeeps | libreiser4/format.c:392-411 | A fresh fake number differs from all live ones and the free count pays for it |
| CacheSteps.ReleaseKeeps | libreiser4/format.c:378-390 | The free count and the allocator stay in balance |
| TreeCache.Tree.Lock | libreiser4/node.c:92-96 | The counter grows by one, as the only change |
| TreeCache.Tree.Unlock | libreiser4/node.c:98-102 | The counter falls by one, as the only change |
| CacheSteps.PinKeeps | libreiser4/node.c:92-108 | Explicit locks keep counters exact: connected children plus pins |
| TreeCache.Tree.UnloadNode | libreiser4/tree.c:582-605 | A written, unlocked node leaves table and memory, and its parent's counter falls with it |
| CacheSteps.UnloadKeeps | libreiser4/tree.c:443-479 | No unloaded node is anyone's parent, and everything that left is on the device |
| CacheSteps.NoChildren | libreiser4/tree.c:1327-1345 | A node whose counter is zero has no connected children |
| TreeCache.Tree.WriteNode | libreiser4/node.c:352-361 | A node is written only under a real number and with real links, and the device then holds its logical content |
| TreeCache.Tree.SettleNode | libreiser4/tree.c:1327-1345 | A node whose children are settled is kept if pinned, else written and unloaded |
| TreeCache.Tree.WalkNode | libreiser4/tree.c:1379-1447 | After the walk everything in the subtree is on real blocks, what is not pinned above is on the device and out of memory, and nothing outside the subtree but links and counters on its path changed |
| TreeCache.Tree.WalkItems | libreiser4/tree.c:1379-1447 | The items walked so far are settled and later ones do not disturb them |
| TreeCache.Tree.TreeAdjust | libreiser4/tree.c:1349-1375 | Memory pressure settles the tree; while it is being walked already, without a root or with an empty one nothing changes |
| TreeCache.Tree.TreeSync | libreiser4/tree.c:1590-1618 | With nothing pinned the cache ends empty, every node is on the device under a real number with real links, and reading the tree from the superblock's root gives the content it had in memory |
| CacheState.ReadBack | libreiser4/tree.c:1590-1618 | Reading the device from a block gives the logical content of the node stored there when the subtree is on the device |
| TreeCache.Tree.LoadRoot | libreiser4/tree.c:282-302 | The root in memory afterwards is the one the superblock names, whatever memory pressure unloads while it is connected |
| TreeCache.Tree.LoadNode | libreiser4/tree.c:553-579 | The node returned carries the content of the child asked for, whether it was cached or read, and whatever memory pressure unloads meanwhile |
| CacheSteps.LoadKeeps | libreiser4/tree.c:400-440 | Connecting a node read from the device keeps the invariant and locks its parent once |
| TreeCache.Tree.FindChildPos | libreiser4/tree.c:192-265 | The position found holds the link; none is reported only if there is none |
| TreeCache.Tree.Growup | libreiser4/tree.c:2059-2124 | It succeeds exactly when a node can be allocated; content stays, height grows by one, free count falls by one, the superblock names the new root |
| TreeCache.Tree.Dryout | libreiser4/tree.c:2128-2174 | It acts exactly when the height exceeds two; content stays, height falls by one, the block of the old root is free |
| CacheGrow.GrowKeeps | libreiser4/tree.c:1963-2054 | Detaching the old root, assigning the new one and attaching the old below it keeps the invariant and the content |
| CacheGrow.DryKeeps | libreiser4/tree.c:2013-2054 | Detaching the only child and discarding the root keeps the invariant and the content |
| CacheGrow.DryUndoesGrow | libreiser4/tree.c:2059-2174 | The tree after growing and drying is the tree before |
| CacheGrow.NameKeeps | libreiser4/tree.c:351-377 | Assigning a root sets number and height so that the superblock names it |
| TreeCache.Tree.GrowThenDry | libreiser4/tree.c:2059-2174 | Tree, height and free count are restored under any memory pressure in between |
| TreeCache.Tree.UpdateNode | libreiser4/tree.c:483-544 | Every loaded child behind the given items remembers a place in the node that holds its link, locks went over one by one, other children are untouched |
| CacheShift.RebindLocks | libreiser4/tree.c:483-544 | Handing a child over keeps the counters exact exactly when the child remembered a live parent |
| TreeCache.Tree.ShiftLeft | libreiser4/tree.c:2179-2265 | The first items of the right node end the left one; after the repair of both nodes the whole invariant holds and the two nodes read one after the other have the content they had |
| TreeCache.Tree.ShiftRight | libreiser4/tree.c:2179-2265 | The last items of the left node begin the right one; repairing the right node alone makes the whole invariant hold again, and the joint content is kept |
| CacheShift.ShiftKeeps | libreiser4/tree.c:2179-2265 | After a shift in either direction a child that was bound anew, or is linked from none of the repaired items, remembers the slot it hangs in, and the invariant holds |
| CacheShift.ShiftedContent | libreiser4/node.c:335-342 | Dealing out the joint items of two neighbours anew, at any cut, keeps their joint content |
| SearchTree.TreeLookup | libreiser4/tree.c:1768-1885 | PRESENT exactly when a data item of the flat sequence covers the key, and then the place is that item and unit; otherwise the place separates all smaller items from all larger ones, and it is an item with the unit behind its end exactly when that is a body item which ends at or before the key, in whose object the key lies, with nothing behind it in the node that begins at or before the key; each node on the way is one level below the one before |
| SearchTree.LookupUnique | libreiser4/tree.c:1768-1885 | What is said of the answer leaves no choice: result, place and unit are determined by tree and key |
| SearchTree.MaxPossIsLast | plugin/item/body40/body40.c:26-40 | The largest key an item can hold is the last one of its object |
| SearchTree.NodeLookup | libreiser4/node.c:210-275 | The answer inside one node, all edge cases of the position behind an item included |
| SearchTree.BinSearch | libaux/aux.c:14-52 | An equal key is found; otherwise the position separates smaller from larger keys |
| TreeWalk.NeigPlace | libreiser4/tree.c:636-665 | The nearest place up the path that has a neighbour on the asked side, with the number of steps |
| TreeWalk.LtrtNode | libreiser4/tree.c:669-719 | The neighbour node on the same level, or none |
| TreeWalk.RightIsAdjacent | libreiser4/tree.c:669-719 | The right neighbour is the node next in order on the level, in both directions of the equivalence |
| TreeWalk.LeftIsAdjacent | libreiser4/tree.c:669-719 | The same for the left neighbour |
| TreeWalk.NeighboursInverse | libreiser4/tree.c:669-719 | Right and left neighbour search are inverse to each other |
| TreeWalk.NextPlace | libreiser4/tree.c:758-809 | From a data item to the one with the next rank in the flat sequence; none exactly at the end |
| TreeWalk.FromPlace | libreiser4/tree.c:723-754 | A place at the end of a node goes on to the next data item in order |
| TreeWalk.VisitAll | libreiser4/tree.c:758-809 | Iteration enumerates the flat sequence: every data item once, in key order, across leaves, twigs and extents |
| TreeWalk.RankInjective | libreiser4/tree.c:758-809 | Different places of data items have different ranks, so iteration meets no place twice |
| TreeKeys.KeyedTree.UpdateKeys | libreiser4/tree.c:1912-1942 | The recursion sets the keys up the leftmost spine and stops at an equal key |
| TreeKeys.UpdateRestores | libreiser4/tree.c:1912-1942 | After it every pointer of the tree carries the leftmost key of its child, the early return included |
| TreeKeys.UpdateKeepsData | libreiser4/tree.c:1912-1942 | Data items, their order and the shape stay |
| TreeKeys.KeyedTree.RepairAbove | libreiser4/tree.c:2840-2878 | A changed first key of a node is carried up so that all delimiting keys are right |
| FlowRead.ReadFlow | libreiser4/flow.c:10-124 | Unless a block cannot be read it goes wrong exactly when the read starts in the blind spot and wants data behind it, or a single step is too long for 32 bits; otherwise the bytes are the file's, zeros in gaps, until the count or the end of the object, key and buffer of the hint are what they were, its count is what was wanted when the last item was read, and no item that was read gave trouble; after a failure the bytes in the buffer are the file's, and key, buffer and count stand in front of the first item whose data could not be read or behind which the way on failed |
| FlowRead.ReadUnique | libreiser4/flow.c:10-124 | Bytes and remaining count are determined by the tree: the statement about the result leaves no choice |
| FlowRead.BlindTree | libreiser4/flow.c:36-48 | A well-formed tree and a read that meets the blind spot |
| FlowRead.WideHole | libreiser4/flow.c:50-82 | A well-formed tree and a read with a step of 2^31 bytes, outside the blind spot |
| FlowRead.ReadStep | libreiser4/flow.c:50-118 | Each round makes progress, ends rightly, or is too long |
| FlowRead.Round | libreiser4/flow.c:81-118 | The count is set before an item is read, offset and buffer go on behind what was read, and a failure to read it or to go on from it leaves them where they were |
| Bitmaps.Bitmap.Mark | libreiser4/bitmap.c:21-34 | The set of marked blocks gains the block if it is inside; the counter stays exact |
| Bitmaps.Bitmap.Clear | libreiser4/bitmap.c:38-50 | The same for clearing |
| Bitmaps.Bitmap.Calc | libreiser4/bitmap.c:68-80 | The number of blocks in a region with the asked value, blocks outside counting as cleared, and none in a region that reaches 2^64 |
| Bitmaps.Bitmap.MarkRegion | libreiser4/bitmap.c:84-99 | A region inside is marked as a whole, another one changes nothing; the counter stays exact |
| Bitmaps.Bitmap.ClearRegion | libreiser4/bitmap.c:103-118 | The same for clearing |
| Bitmaps.Bitmap.Find | libreiser4/bitmap.c:121-155 | The first block with the asked value, or the invalid number exactly when there is none |
| Bitmaps.Bitmap.TestRegion | libreiser4/bitmap.c:159-182 | The answer is whether the region is inside with the asked value in every bit exactly when it does not begin inside and reach past 2^64; in that case the answer is yes |
| Bitmaps.Bitmap.FindRegion | libreiser4/bitmap.c:184-201 | The first run of the asked value, cut to the count, and as long as it can be |
| Bitmaps.Bitmap.CalcMarked | libreiser4/bitmap.c:204-210 | The counter becomes exact whatever it was |
| Bitmaps.Bitmap.CalcCleared | libreiser4/bitmap.c:213-218 | Counting the cleared blocks agrees with the counter |
| Bitmaps.Bitmap.Clone | libreiser4/bitmap.c:258-272 | A fresh bitmap with the same bits and counter |
| Bitmaps.Bitmap.Resize | libreiser4/bitmap.c:275-304 | Surviving blocks keep their state and what new blocks hold; the counter is exact exactly when no bytes are added, or the old map has less than 2^29 bytes, or nothing was set behind its end |
| Bitmaps.Bitmap.Invert | libreiser4/bitmap.c:318-332 | The marked blocks are those that were clear, with the counter; bits behind the end are clear afterwards below 2^29 bytes, and inverted from there on, so that a tidy map stays tidy exactly below that size or when it fills its bytes |
| Bitmaps.PopcountIsSize | libreiser4/bitmap.c:68-80 | The counter is the size of the set of marked blocks |
| Bitmaps.RegionCounts | libreiser4/bitmap.c:84-118 | Marking or clearing a region changes the number of marked blocks by what the region lacked or had |
| Bitmaps.Bitmap.Pack | libreiser4/bitmap.c:335-373 | The runs sum to the length, stand for the bits and none but the first is empty |
| Bitmaps.Unpack | libreiser4/bitmap.c:376-437 | Accepted are exactly the streams whose runs sum to the announced length, which give the bits they stand for, and those that reach 2^64 and pass every test by wrapping; marking goes outside the map exactly when a marked run begins inside and wraps |
| Bitmaps.PackThenUnpack | libreiser4/bitmap.c:335-437 | Unpacking what was packed gives the bits, the length and the counter back, for every bitmap |
| Bitmaps.WrappedStream | libreiser4/bitmap.c:405-426 | Eight bits announced, runs of 5, 2^64 - 2 and 5: accepted |
| Bitmaps.OverrunStream | libreiser4/bitmap.c:405-426 | Eight bits announced, runs of 5, 0, 2^64 - 2 and 5: the third is marked beyond the map |
| Bitmaps.WrappedRegion | libreiser4/bitmap.c:159-182 | Of eight clear blocks, 2^64 - 2 from the fifth on test as marked |
| Bitmaps.Miscounted | libreiser4/bitmap.c:275-304 | Shrinking and growing a large bitmap leaves a marked block uncounted |
| Bitmaps.InvertedMiscounted | libreiser4/bitmap.c:275-332 | Inverting and growing a bitmap of 2^32 + 1 blocks leaves seven set bits uncounted |
| Bitmaps.Bitmap.Run | libreiser4/bitmap.c:21-332 | On maps below 2^29 bytes the counter is the number of marked blocks after any sequence of marking and clearing blocks and regions, inverting and resizing |
| Bitmaps.OnesExpand | libreiser4/bitmap.c:405-426 | As long as sums do not wrap, the regions marked one by one are the bits the runs stand for |
| Bitmaps.PackedFormUnique | libreiser4/bitmap.c:335-437 | Packing what was unpacked gives the same runs exactly when no run but the first was empty |
| Adler.Adler32 | libaux/aux.c:176-203 | With the reduction put off for 5552 bytes the 32-bit loop computes the checksum for every seed and buffer |
| Adler.NmaxFits | libaux/aux.c:176-177 | 5552 bytes cannot wrap a register from any reduced or seed value, 5553 could |
| Adler.ModularIsSum | libaux/aux.c:179-203 | The two sums of section 2.2 of RFC 1950 in closed form |
| Adler.OneByteDetected | libaux/aux.c:179-203 | Changing any one byte changes the checksum |
| Alloc40.Layout | plugin/alloc/alloc40/alloc40.c:31-60 | The callback is called for the block of each chunk that begins before start plus length, in order |
| Alloc40.WhereChunksLie | plugin/alloc/alloc40/alloc40.c:31-60 | In plain numbers: the first chunk lies two blocks behind byte 65536, every other one on the first of the (size - 4) * 8 blocks it describes |
| Alloc40.ByteIsBinary | plugin/alloc/alloc40/alloc40.c:276-295 | The bytes the checksum is taken of are the bits of the map as binary numbers, the lowest bit first |
| Alloc40.LayoutExact | plugin/alloc/alloc40/alloc40.c:31-60 | Each chunk of the bitmap is visited once and nothing else exactly when no chunk would begin just behind the end |
| Alloc40.ExtraChunk | plugin/alloc/alloc40/alloc40.c:31-60 | 32736 blocks of 4096 bytes: one chunk, two visits |
| Alloc40.Allocator.Allocate | plugin/alloc/alloc40/alloc40.c:376-404 | The first free run, cut to the count and otherwise as long as it can be, becomes used; nothing is found exactly when everything is used |
| Alloc40.Allocator.Occupy | plugin/alloc/alloc40/alloc40.c:341-354 | The region becomes used |
| Alloc40.Allocator.Release | plugin/alloc/alloc40/alloc40.c:357-370 | The region becomes free |
| Alloc40.Allocator.Sync | plugin/alloc/alloc40/alloc40.c:246-325 | Every chunk is on its block behind its checksum, a short one filled with ones; other blocks are untouched |
| Alloc40.Allocator.Open | plugin/alloc/alloc40/alloc40.c:66-165 | Bits and checksums are those on the device, the counter is exact; it fails exactly when a block of the bitmap cannot be read |
| Alloc40.Allocator.Check | plugin/alloc/alloc40/alloc40.c:461-526 | Success exactly when every loaded checksum is that of its chunk |
| Alloc40.StoredLoads | plugin/alloc/alloc40/alloc40.c:246-325 | What was synced is opened with the same bits and passes the check |
| Alloc40.SyncThenOpen | plugin/alloc/alloc40/alloc40.c:66-526 | Sync, open and check one after the other: the same bits and counter, and the check passes |
| Alloc40.PackThenUnpack | plugin/alloc/alloc40/alloc40_repair.c:55-213 | Pack and unpack one after the other: the same length, bits, counter and checksums |
| Alloc40.DamageNoticed | plugin/alloc/alloc40/alloc40.c:461-513 | A changed checksum or a changed byte of a stored chunk is noticed; a change in the filling is not, and harms nothing |
| Alloc40.Allocator.Pack | plugin/alloc/alloc40/alloc40_repair.c:125-148 | The stream holds length, checksums and bits of all chunks |
| Alloc40.Allocator.Unpack | plugin/alloc/alloc40/alloc40_repair.c:151-213 | The allocator holds what the stream holds, with an exact counter; it fails on no packed allocator |
| Alloc40.PackedUnpacks | plugin/alloc/alloc40/alloc40_repair.c:55-213 | Packing and unpacking gives back length, bits and checksums |
| Alloc40.CreatedSumsSuffice | plugin/alloc/alloc40/alloc40.c:190-192 | A created allocator has room for all checksums exactly when its last chunk is full |
| Alloc40.OpenedSumsSuffice | plugin/alloc/alloc40/alloc40.c:142-143 | An opened or unpacked allocator has room for all checksums exactly when the 32-bit sum does not wrap |
| Alloc40.NoSum | plugin/alloc/alloc40/alloc40.c:190-192 | 100 blocks of 4096 bytes: one chunk, no place for its checksum |
| Alloc40.NoRoom | plugin/alloc/alloc40/alloc40.c:142-143 | 2^35 - 8 blocks of 4096 bytes: 1049602 chunks, no place for a checksum |
| Backup.Layout | libreiser4/backup.c:197-232 | It ends in 64-bit arithmetic; the first copy is on the seventh block from the master superblock on, the others follow in increasing order inside the filesystem, none of them on the format area or on a bitmap block |
| Backup.Second | plugin/alloc/alloc40/alloc40.c:533-557 | The second block of the chunk, or none in a chunk of one block |
| Backup.CopiesAreSafe | libreiser4/backup.c:197-232 | At least one copy, strictly increasing and inside; the first is block 65536 / size + 6, behind the master, format, first bitmap, two journal and status blocks, and none is a multiple of (size - 4) * 8, where the bitmap blocks lie |
| Backup.CopiesExactly | libreiser4/backup.c:190-232 | A block is a copy exactly when it starts the backup area, or is the second block of a later chunk that holds a tried number |
| Filter.Pass.NodeHandle | librepair/filter.c:64-116 | The bitmaps and counts for a node that is kept or rejected; twigs and leaves stay used and used blocks stay met |
| Filter.Pass.Examine | librepair/filter.c:195-358 | A pointer passes exactly when it leads inside, to a block not in the tree that opens, on the expected level, and the plugin and the keys are content with the node, its level is not zero, and a leaf has no pointers; a failed check leaves all bitmaps and the expected level as they were |
| Filter.Pass.TravNode | libreiser4/tree.c:3086-3171 | It terminates on any pointer graph; all pointers of kept nodes were kept or refused for a reason, and no node is kept that the plugin or the keys reject, on level zero, or a leaf with pointers; used and twig bitmaps and counters agree with what was kept |
| Filter.Pass.Traverse | librepair/filter.c:610-660 | The same from the superblock's pointer; nothing is kept exactly when that is out of bounds, in the format area, unreadable or leads to a node that fails a check |
| Filter.OneParent | librepair/filter.c:195-258 | Every kept block but the root has exactly one accepted pointer, from a node kept before it one level up |
| Filter.Reachable | librepair/filter.c:284-305 | Every kept node hangs on the root by as many pointers as its level is lower |
| Filter.NodesCounted | librepair/filter.c:64-116 | The good nodes are the growth of the used bitmap exactly when the root lies inside the bitmap |
| Filter.RootBehindEnd | librepair/filter.c:610-660 | A run whose root is the block behind the end: one good node, no growth, nothing fatal |
| Filter.SilentMeansKept | librepair/filter.c:178-190 | No fatal corruption is counted exactly when root and all followed pointers were kept |
| Filter.SilentPointers | libreiser4/tree.c:3138-3139 | If nothing was refused, all pointers of kept nodes were followed exactly when no node reachable from the root on the device has a pointer with the invalid number |
| Filter.SilentRun | libreiser4/tree.c:3138-3139 | A run that counts nothing fatal and keeps only the root, with a sound node below it |
| Filter.Pass.BuildRun | librepair/filter.c:64-116 | In the BUILD mode, after any sequence of events, every block stands where its events put it: a sound node is in the tree and a twig or leaf by its level, one on the wrong level or outside its keys is neither used nor met, so that it can be found later, one that is broken, empty or emptied is met only; twigs and leaves are used, used blocks met, and blocks inside |
| Filter.LastEvent | librepair/filter.c:64-190 | Where a block stands depends on the last event on it and where it stood before; events on other blocks change nothing |
| Recovery.AfterBuild | librepair/repair.c:127-205 | What the filter hands over after such a run meets the demands of the later passes |
| Recovery.Passes.RegionCheck | librepair/twig_scan.c:13-40 | A region is accepted exactly when it is inside and none of its blocks was met; a rejected one changes no bitmap |
| Recovery.Passes.CheckUnits | plugin/item/extent40/extent40_repair.c:54-121 | Exactly the units that point outside, to met blocks or to blocks of earlier units are zeroed; met grows by what stays; then neighbouring units are joined |
| Owners.ScreenedExactly | plugin/item/extent40/extent40_repair.c:54-121 | In plain numbers: a unit is kept, or only its start becomes zero; kept are holes, unallocated and empty units, and those that end inside and have no block that was met or lies in an earlier kept unit |
| Joining.JoinUnits | plugin/item/extent40/extent40_repair.c:11-52 | The loop that shrinks the item in place is a fold over its units, and its result consists of runs of them: each as wide as the units of the run together, in 64 bits, and starting where the first of them does, the others meeting what is before them or empty; no two neighbouring results are both holes or begin where the other ends |
| Joining.JoinCuts | plugin/item/extent40/extent40_repair.c:11-52 | The fold has that form for every sequence of units of 64-bit words |
| Joining.JoinedNotEmpty | plugin/item/extent40/extent40_repair.c:11-52 | While the widths do not wrap no joined unit is empty, and it is as wide as its run |
| Joining.JoinedEmpty | plugin/item/extent40/extent40_repair.c:11-52 | Two holes of 2^63 blocks are joined to an empty unit |
| Joining.JoinLoses | plugin/item/extent40/extent40_repair.c:11-52 | A join points to exactly the blocks the units pointed to, less those of units taken in by a hole |
| Joining.LosesNothing | plugin/item/extent40/extent40_repair.c:26-47 | Nothing is lost exactly when no unit is taken in by a hole before it |
| Joining.LosesAtHoles | plugin/item/extent40/extent40_repair.c:26-47 | Without unallocated units something is lost exactly when a unit stands directly behind a run of holes as wide as the block it begins at |
| Joining.AcceptedAndLost | plugin/item/extent40/extent40_repair.c:54-121 | Units (500, 300) and (300, 5) with block 500 met: five blocks are accepted and then lost |
| Recovery.Passes.TwigScan | librepair/twig_scan.c:129-194 | Met, and used if asked, grow by exactly the blocks the twigs point to once screened, none of them met before, each owned by one item; the twigs on the device are those, joined |
| Joining.JoinedExtents | librepair/twig_scan.c:129-194 | After the join the twigs point to exactly what they did not lose, each block owned by one item |
| Joining.NothingLost | librepair/twig_scan.c:129-194 | The twigs point to no more than what was accepted, and to all of it exactly when no unit is taken in by a hole |
| Recovery.ScanLoses | librepair/twig_scan.c:129-194 | A check of one item after which blocks are used and met and nothing points to them |
| Owners.ScreenedApart | librepair/twig_scan.c:13-40 | Accepted regions are pairwise disjoint, disjoint from what was met, and inside |
| Owners.ScannedInside | librepair/twig_scan.c:13-40 | Everything a scan accepts lies inside the filesystem |
| Recovery.Passes.DsPrepare | librepair/repair.c:204-365 | It ends exactly when no region that is taken holds block 2^32 - 1 or a later one, and then a block is to be scanned exactly when it was not met and is allocated, or shares a bitmap block with a met block that is not allocated |
| Recovery.PrepareHangs | librepair/repair.c:204-224 | A filesystem of 2^32 blocks on which the loop over a region does not end |
| Recovery.Passes.DiskScan | librepair/disk_scan.c:66-166 | Met grows by the scanned blocks that open; twigs and leaves by the savable ones |
| Owners.SavableExactly | librepair/tree.c:14-22 | Worth saving is a sound leaf of data items other than extents, or a sound twig of extents and pointers, not empty |
| Recovery.Passes.Collect | librepair/repair.c:758-778 | It gets to the end exactly when the region loop ends and the twigs of the tree can be read. Then used has grown by exactly the blocks accepted in the tree's twigs, of which the twigs keep what the join leaves them; the nodes that wait lie outside the used blocks, with what they point to met and owned once; below 2^32 blocks the loop ends |
| Recovery.FoundKept | librepair/twig_scan.c:129-194 | Zeroing extents does not change which nodes are savable |
| Joining.JoinSavable | librepair/twig_scan.c:129-194 | Neither does joining |
| AddMissing.Adding.InsertItem | librepair/add_missing.c:11-24 | It succeeds exactly on an item that is no node pointer and that the tree takes; the regions that go in are in the tree and used from then on, unless the tree gives them up; what is left of the node and all others stay safe |
| AddMissing.AllTaken | librepair/add_missing.c:11-24 | Regions apart from each other that lie in the item all go in |
| AddMissing.Adding.Prepare | librepair/repair.c:404-447 | The allocator takes over the met blocks, so no waiting node and nothing it points to can be handed out |
| AddMissing.Adding.Allocate | libreiser4/alloc.c:226-243 | Allocated blocks are none that is held, and the hook marks them used |
| AddMissing.Adding.Release | librepair/repair.c:103-125 | Released blocks leave allocator and used bitmap together |
| AddMissing.Adding.InsertNode | librepair/add_missing.c:131-209 | It succeeds exactly if the node can be read and, should it have data, is not refused: freed if it has none, attached with its block and extents used if it fits, and waiting on without node pointers if there is no place; all waiting nodes stay safe whatever the tree allocates or releases |
| Owners.BranchesGo | librepair/add_missing.c:72-109 | Preparing a node takes the node pointers out and nothing else; nothing is left exactly when it has no data |
| AddMissing.Adding.CopyNode | librepair/add_missing.c:211-290 | It succeeds exactly if the node can be read and every item is inserted, each of them then is, and its block is freed; a waiting node is never used; on failure the other nodes are safe, and the node itself exactly if none of its blocks has gone in |
| AddMissing.HalfCopied | librepair/add_missing.c:211-290 | A twig with one of two extents inserted waits while a block of it is used |
| AddMissing.Adding.Run | librepair/add_missing.c:294-377 | It succeeds exactly if every waiting node gets through. Then nothing waits: a node without data was freed, one that fits attached, any other one copied with all its items; no block of such a node, its own or one it points to, had been handed out before it went into the tree or the node was dealt with; all blocks of an attached node went in, and what went in is used unless the tree gave it up; what was handed out stays known |
| AddMissing.DropWaiting | librepair/add_missing.c:111-125 | A node that leaves takes nothing away from those that wait |
| AddMissing.Recover | librepair/repair.c:748-786 | The whole BUILD pipeline after the filter gets to the end exactly if the region loop ends, the twigs of the tree can be read and every found node gets through: then every savable node in a scanned block outside the tree is dealt with as it should be, and until then nothing is allocated over it or over what it points to |

## Left out

- Node, item, key and object plugins: they enter as contracts (what a node holds, whether it is sound, what an item points to); the space arithmetic of expand, shift and split is not modelled.
- Node objects are records in a map from identities, with fields reassigned by the methods; a node pointer item has one unit, as in nodeptr40, so an item is one link; sibling pointers between cached nodes are not modelled.
- TreeCache.Tree.UnloadNode: a node that is still dirty, which the source unloads after a warning, is not modelled: its content would be lost.
- TreeCache.Tree.FindChildPos: searches all items; the cached position and the lookup by key that the source tries first give the same slot.
- TreeCache.Tree.TreeSync: the flush of unformatted blocks and the device's own sync are not modelled.
- TreeCache.Tree.LoadRoot: a device that cannot be read is not modelled; nor is it in TreeCache.Tree.LoadNode.
- TreeCache.Tree.Dryout: the case of an old root that somebody else has locked is not modelled.
- TreeCache.Tree.UpdateNode: positions are bytes in the source, so nodes have at most 255 items.
- TreeCache.Tree.ShiftLeft: the update of delimiting keys, the merge of two items into one and the movement of the insertion point are not modelled; nor are they in TreeCache.Tree.ShiftRight.
- TreeCache.Tree.ShiftRight: the same.
- TreeCache.Tree.Growup: levels and heights are bytes in the source and unbounded here; attaching and detaching nodes elsewhere than at the root is not modelled.
- TreeCache.Tree.AllocNode: fake numbers are distinct for the first 2^60 - 1 allocations of a process.
- SearchTree.TreeLookup: trees with colliding keys and the search on a level above the leaves are not modelled.
- SearchTree.NodeLookup: the lookup inside directory items is not modelled.
- TreeWalk.LtrtNode: the sibling pointers that the source sets on the way are not modelled.
- TreeKeys.KeyedTree.RepairAbove: the parent places of the children are not modelled here; CacheShift does so.
- FlowRead.ReadFlow: object offsets and buffers are unbounded, the sums of 64-bit offsets do not wrap, and the bytes are returned instead of being written to the buffer's address.
- Bitmaps.Bitmap.MarkRegion: requires that a region which begins inside does not reach past 2^64; the source would write outside the map.
- Bitmaps.Bitmap.ClearRegion: the same.
- Bitmaps.Bitmap.Resize: lengths above 2^35 - 8, whose size in bytes does not fit its field, are not modelled; nor is a lack of memory.
- Bitmaps.Unpack: announced lengths above 2^35 - 8 are not modelled, streams are sequences of whole words behind a magic, and a partial last word reads as the end; what an overrun writes outside the map is not described.
- Bitmaps.Bitmap.FindRegion: the bit searches of libaal, which is not part of this repository, are modelled by what they find.
- Alloc40.Layout: block sizes are below 2^29, so that the blocks of a chunk can be computed in 32 bits, and the length is one a bitmap can have.
- Alloc40.Allocator.Sync: requires that the layout visits each chunk once, since the source reads outside the map otherwise; failing writes are not modelled.
- Alloc40.Allocator.Open: requires the same, and room for every checksum as computed in 32 bits, since the source would write outside the map or the checksums.
- Alloc40.Allocator.Occupy: requires that a region which begins inside does not reach past 2^64.
- Alloc40.Allocator.Release: the same.
- Alloc40.SyncThenOpen: requires what Sync and Open require.
- Alloc40.Allocator.Check: requires the same, and room for every checksum, since the source would read outside the checksums.
- Alloc40.Allocator.Pack: requires the same; streams are sequences of fields rather than bytes.
- Alloc40.Allocator.Unpack: requires that the layout for the announced length visits each chunk once, and room for every checksum as computed in 32 bits.
- Backup.Layout: the callback does not fail, the allocator is as long as the filesystem, and three times its length is below 2^64, far above what a bitmap can hold; the older layout is not modelled.
- Filter.Pass.Examine: the BUILD mode, in which bad pointers are removed on the way, is covered by Filter.Pass.BuildRun only: the handlers' effect on the bitmaps in any order of events.
- Filter.Pass.TravNode: the same; failing item access and statistics other than good nodes and fatal corruptions are not modelled.
- Filter.Pass.Traverse: the same.
- Recovery.Passes.CheckUnits: the modes that do not write are not modelled.
- Recovery.Passes.DsPrepare: the bitmap read from a file is not modelled.
- Recovery.Passes.DiskScan: the repairs made to a node while it is checked are not modelled.
- AddMissing.Adding.InsertItem: while items are inserted the tree allocates freely, releases only blocks of its own, and hands each region of the item over at most once; whether it takes an item, and which regions, are parameters (AddMissing.Answers), an item left out for another one under its keys counting as taken.
- repair_bitmap_compare, the byte edits of bitmaps without recounting, the semantic pass, cleanup, and everything printed or asked: not modelled.
- Plugin factory, profiles, master, status and format blocks, hashes: thin tables and wrappers with easy claims.

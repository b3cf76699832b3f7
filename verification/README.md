# Verified model of an accelerator platform's allocator, data movers, lookup pipeline and trace path

The repository builds near-memory accelerators: data reorganisation units that load, store and look up data for a host,
a heap in physically contiguous memory that the host and the units share, and a trace path that ships bus events over
Ethernet. This project models the parts whose correctness is hard to see from the code and proves what they promise, for
every input, every run and every interleaving.

The model keeps the form of the source. Objects whose methods update fields are classes with frames and an invariant
(`Heaps.Heap`, `BinStore.Bins`, `EthernetFramer.Framer`, `ByteStreamer.TxStreamer`, `StreamFifo.Ring`, ...); concurrent
units are state machines over their steps; index arithmetic, layouts and tries are functions with lemmas.

## What is modelled

**The boundary-tag allocator** (`shared/dlmalloc.c` as configured in `shared/dlmalloc.h`): 8-byte `size_t`, alignment 64,
minimal chunk 64, overhead 8, foot area 176, pages of 4096, granularity and mapping threshold 256 KiB; no `MORECORE`,
`MERGE`, `MREMAP`, `FOOTERS` or locks; the portable branches of the index and bit macros.
The layers, from the bottom:

* bit maps and size classes: `Words`, `BinMaps`, `SizeClasses`, `TreeIndexing`, `ChunkHeads`;
* the tries as values (`Trie`, `TrieBits`), their pointer form (`TreeLinks`, `TreeEdits`, `TreeUnlink`, `Cycles`), all bins
  together (`BinState`, `BinSteps`, `BinOrder`, `BinStore`) and the best-fit searches (`TreeSearch`);
* chunks as tiles of segments (`Tiling`), their tags (`Tags`), the whole state (`HeapState`, `HeapSteps`) and what each
  operation does to it (`Coalescing`, `Taking`, `Growing`, `DirectMapping`, `Resizing`, `Alignment`);
* the allocator as an object (`Heaps`), the order in which it prefers chunks (`Policy`), conservation of bytes
  (`Conservation`), what clients may rely on (`HeapClaims`) and may write (`ClientMemory`), and whole sessions (`Sessions`).

`HeapState.Sound` gathers the debug checks of the source as one invariant: tiles fill each segment without gap or overlap,
heads and feet agree with them, no two neighbours are idle, every free chunk is in exactly one of its bin and the designated
victim, bin-map bits are set exactly for non-empty bins, mapped chunks are not small, fill whole pages and are followed by
their two markers, mapped regions and segments are disjoint, and the chunks that clients hold are exactly the tiles in use
and the mapped chunks, so that no chunk can leak. All operations keep it. The checks of the source (`RTCHECK` and the debug
checks) are asserted in the methods where they stand; in the bin macros `ok_address` becomes membership among the binned
chunks, which `HeapClaims.BinnedAbove` puts at or above `least_addr`.

Memory is a map of heads, a map of feet and a map of link records keyed by chunk address. `ClientMemory` places them in a
flat address space and shows that no word that matters belongs to a client, wherever in their blocks clients write
(`ClientWrites`). The bytes of clients are an object of their own, which only `memcpy` in `dlrealloc` writes. The system is a
parameter: each call takes the answers to the two requests it may make, and each answer is a failure or a region of whole
words clear of everything in use, as the comment at line 256 of `shared/dlmalloc.c` demands. (`cm_alloc` itself returns
`NULL` on failure, `shared/linux/accmem.c:44-47`; the code would take that for a region.) Releasing a region always
succeeds, as `dlmunmap` does. `Sessions` drives the allocator through any number of calls against any such system.

**The key-value lookup pipeline** (`ip/sysc`): the ring FIFO, the register slices, the fork and the twelve-stage hash
pipeline are classes with one method per clock edge, each proved to refine a queue under every stall pattern
(`StreamFifo`, `HashPipeline`). `KvsPipeline` composes units that behave like such queues and proves a fact about every
interleaving: what comes out is a prefix of the sequential lookups.

**The load-store unit** (`ip/sysc/lsu.h`): the two DMA engines as a state machine with separate command, transaction and
response steps, memory included (`DmaEngines`), and the commands that `lsu_smemcpy` sends, cut to the widths of their fields
(`LsuCommands`). The data stream is 64 bits wide; the engines count in 8-byte words. Progress is proved for every depth
of the FIFOs, safety for every run.

**The hash** (`short.c`): both forms as imperative methods over arrays, proved equal to one specification (`ShortHash`,
`HashForms`). In the software form one expression reads and assigns the same variable without sequencing; the model takes
the meaning that the pipelined form spells out. Seeds are 64-bit words already extended.

**The Ethernet framer** (`eth_fifo_interface.cpp`): `Framing`, `EthernetFramer`. Byte `k` of a word is abstract. The reader
does not ask for data while the machine is idle.

**The byte streamer** (`xstreamer.c`): `ByteStreamer`. The FIFO is a sequence of bytes moved in whole words; buffer addresses
are parameters, so that every alignment is covered.

**Trace compression and parsing** (`compress.cpp`, `compress.hpp`, `parser.c`): `TraceCompress`, `TraceParser`, the bit
layouts that both read (`TraceFormat`), and the way from entries to words, bit by bit (`TraceWords`).

## Findings

* In `add_segment` the branch in which the segment record replaces the old top is never taken: the foot area always leaves
  at least a minimal chunk before the record (`Growing.RecordFits`).
* In the compressor, the valid bit of the last record of an event stays set. The state of the write-out stage is the number
  of valid bits exactly while records are left, or when the event read last has none (`TraceCompress.StateExact`);
  `TraceCompress.StaleBit` is a run that ends idle with a bit set. No record is written twice for that.
* The compressor stamps the time since reset, as the sum of all differences modulo 2^30 (`compress.cpp:46`). The first part
  of its test bench expects that, the second the difference alone (`compress_tb.cpp:264-271`). The model follows the code.
* The parser's default table has nine flags a slot (`trace/def_config.c:5-6`), the entries of the compressor seven
  (`compress.hpp:104-133`). `TraceWords.ParseEntry` holds for every number of flags, and agrees with the compressor for
  seven (`TraceWords.ParsedEvent`).
* `lsu_smemcpy` does not copy all blocks for all operands. The size field of a DMA command has 24 bits, the increment and
  repetition fields of the command registers have 30, and a load transaction names its address with 32 while a store uses
  all bits. `LsuCommands.SmemcpyExact`: for aligned operands whose blocks start inside 32 bits and do not overlap, all
  blocks arrive exactly when the block size is below 16 MiB, for more than one block both increments are below 1 GiB, and
  the last source block ends inside 32 bits. `LsuCommands.WholeBlockLost` is a 16 MiB block that gives an empty command, so
  that no status comes and the caller waits for ever; `LsuCommands.StrideLost` is an increment of 1 GiB that acts as 0;
  `LsuCommands.AddressLost` is a block that is read on from address 0.
* A probe window of the lookup pipeline is that of the table exactly when it ends inside 32 bits of address
  (`KvsPipeline.WindowExact`); otherwise it is read on from address 0 (`KvsPipeline.WindowLost`). The 30 bits of the index
  register are no further limit (`KvsPipeline.CutHarmless`).
* The framer's occupancy counter has 14 bits and the buffer holds 2^14 bytes: a full buffer counts as empty. No byte is lost
  by this; the counter equals the occupancy modulo 2^14.

## Model

| member | source | states |
|---|---|---|
| BinMaps.MarkHas | shared/dlmalloc.c:1540-1546 | marking a bin sets its bit and no other |
| BinMaps.ClearHas | shared/dlmalloc.c:1541-1545 | clearing a bin clears its bit and no other |
| BinMaps.IdxOfBit | shared/dlmalloc.c:1586-1597 | the shift-and-mask index of a single bit is the position of that bit |
| BinMaps.FirstBin | shared/dlmalloc.c:3134-3136 | for every bit map, `least_bit` and `compute_bit2idx` select the bin that a linear scan finds first |
| BinMaps.NextBin | shared/dlmalloc.c:3088-3096 | for every bit map, `left_bits` and `least_bit` select the next non-empty bin above `idx`, and give 0 exactly when there is none |
| BinMaps.SmallBits | shared/dlmalloc.c:3205-3209 | the two low bits tell whether the bin of the request or the next one is in use, and which to take |
| BinMaps.NextSmall | shared/dlmalloc.c:3221-3228 | past an empty bin, the shifted and masked bits select the next non-empty small bin as a scan would |
| SizeClasses.PaddingFits | shared/dlmalloc.c:846-855 | below `MAX_REQUEST` padding never wraps, covers request and overhead, is aligned, wastes less than a unit, and small requests give small chunks exactly |
| SizeClasses.BinMonotone | shared/dlmalloc.c:1528-1531 | bins partition the large sizes monotonically |
| SizeClasses.BinRange | shared/dlmalloc.c:1519-1531 | the sizes of a bin share all bits above the ones its trie branches on |
| TreeIndexing.ComputeTreeIndex | shared/dlmalloc.c:1499-1516 | the branch-free index is the unique bin with minsize(i) <= s < minsize(i+1), or the last bin |
| Trie.InsertRefines | shared/dlmalloc.c:2267-2316 | insertion keeps the bit order and is insertion behind the ring of its size in the map from sizes to rings |
| Trie.InsertHolds | shared/dlmalloc.c:2267-2316 | the sizes held afterwards are the old ones and the new one |
| Trie.RemoveRefines | shared/dlmalloc.c:2335-2404 | removal, with a removed node replaced by its rightmost leaf, keeps the bit order and is removal of the one chunk from the ring of its size |
| Trie.RemoveHolds | shared/dlmalloc.c:2335-2404 | no other size appears or disappears |
| Trie.FitIsLeast | shared/dlmalloc.c:3059-3104 | the fit of a trie is the least size it holds that is large enough |
| TrieBits.ShiftIn | shared/dlmalloc.c:1523-1526 | the initial shift puts the first bit to branch on into the sign bit |
| TrieBits.ShiftOn | shared/dlmalloc.c:2283-2288 | each further shift does so for the next level: the descent has as many steps as bits remain |
| BinState.OkScribble | shared/dlmalloc.c:1920-2003 | the bins do not depend on the memory of chunks that are not binned |
| BinOrder.BehindByAge | shared/dlmalloc.c:2300-2306 | a chunk that joins a ring is the newest of its size |
| BinOrder.WithoutByAge | shared/dlmalloc.c:2335-2345 | a chunk that leaves a ring leaves the others in the order of age, with the oldest in the trie |
| BinOrder.LargeEnqueued | shared/dlmalloc.c:977-982 | insertion puts a chunk behind all others of its size and touches no other size |
| BinOrder.LargeDeparted | shared/dlmalloc.c:977-982 | removal takes this chunk out of the line of its size and touches no other size |
| BinOrder.OldestHangs | shared/dlmalloc.c:977-980 | the tree chunks with a parent are the oldest of their sizes: tree bins are first in, first out |
| BinStore.Bins.InitBins | shared/dlmalloc.c:2530-2537 | the initialisation leaves well-formed empty bins |
| BinStore.Bins.InsertSmall | shared/dlmalloc.c:2189-2205 | the four link writes add exactly this chunk to the binned chunks, as the next one of its size; all bins stay well formed; the run-time check holds |
| BinSteps.SmallNeighbours | shared/dlmalloc.c:2212-2220 | the neighbours of a chunk in its small bin are binned or the header, and link back |
| BinStore.Bins.UnlinkSmall | shared/dlmalloc.c:2208-2231 | removes exactly this chunk, from anywhere in its ring, and clears the bit when the bin runs empty; the run-time checks hold |
| BinStore.Bins.UnlinkFirstSmall | shared/dlmalloc.c:2234-2249 | removes the next chunk of the size of the bin and no other; the run-time check holds |
| BinStore.Bins.Descend | shared/dlmalloc.c:2280-2314 | the walk by shifted sizes ends at the node of the size or at the empty child link where it belongs |
| BinStore.Bins.InsertLarge | shared/dlmalloc.c:2267-2316 | on pointers: adds exactly this chunk, as a root, a new leaf or a ring member, and as the last one of its size; tries stay ordered and linked both ways; the run-time checks hold |
| BinStore.Bins.FindLeaf | shared/dlmalloc.c:2350-2357 | the walk for a replacement ends at the rightmost leaf below the node |
| BinStore.Bins.UnlinkLarge | shared/dlmalloc.c:2335-2404 | on pointers: removes exactly this chunk, whether ring member, leaf, interior node or root; all others of its size keep their order; the run-time checks hold |
| BinStore.BinnedLinks | shared/dlmalloc.c:1897-1898 | every binned chunk is linked both ways |
| BinStore.Bins.InsertChunk | shared/dlmalloc.c:2408-2410 | dispatches by size and adds exactly this chunk |
| BinStore.Bins.UnlinkChunk | shared/dlmalloc.c:2412-2414 | dispatches by size and removes exactly this chunk |
| TreeSearch.WrappedRemainder | shared/dlmalloc.c:3061-3075 | comparing wrapped unsigned remainders is comparing sizes, with too small ones last |
| TreeSearch.FindFit | shared/dlmalloc.c:3059-3105 | returns the oldest chunk of the least size >= nb among all tree chunks, and 0 exactly when there is none |
| TreeSearch.FindSmallest | shared/dlmalloc.c:3130-3145 | the leftmost walk from the first non-empty bin finds the oldest of the smallest tree chunks |
| ChunkHeads.UnpackPacked | shared/dlmalloc.c:868-894 | size and flag bits packed into a head word are read back |
| Tiling.LayTiled | shared/dlmalloc.c:2042-2070 | replacing neighbouring tiles by one or two new ones keeps segments tiled without gap or overlap |
| Tags.Retagged | shared/dlmalloc.c:1872-1903 | the tag writes that go with it keep heads, feet and the no-two-idle-neighbours rule right for every tile |
| HeapSteps.Relaid | shared/dlmalloc.c:2074-2100 | both together keep the tiles and tags of the whole heap |
| Coalescing.FreedSound | shared/dlmalloc.c:2988-3054 | merging with idle neighbours on either side, top and victim included, keeps every invariant; only the freed chunk leaves the clients |
| Taking.TakenSound | shared/dlmalloc.c:3148-3159 | taking a free chunk whole or split keeps every invariant |
| Taking.TopTakenSound | shared/dlmalloc.c:3283-3293 | so does taking the front of the top |
| Growing.RecordFits | shared/dlmalloc.c:2605-2617 | for every alignment of the segment end, record and fenceposts fit behind the old top, with at least a minimal chunk before them |
| Growing.GrownSound | shared/dlmalloc.c:2603-2653 | a new segment, the rest of the old top, the record and the fenceposts keep every invariant |
| Growing.InitSound | shared/dlmalloc.c:2797-2808 | the first segment makes a sound heap |
| DirectMapping.RegionSizeFits | shared/dlmalloc.c:2673-2675 | unless it wraps, which the test sees exactly, the region is the least multiple of 262144 bytes that holds request, foot area and alignment loss |
| DirectMapping.DirectSizeFits | shared/dlmalloc.c:2446-2452 | the same in pages for directly mapped requests |
| DirectMapping.MapSound | shared/dlmalloc.c:2453-2470 | a mapped chunk in a fresh region keeps every invariant |
| DirectMapping.UnmapSound | shared/dlmalloc.c:3332-3336 | releasing a mapped chunk keeps every invariant and gives its whole region back |
| DirectMapping.RemapSound | shared/dlmalloc.c:3555-3558 | moving a mapped chunk up inside its region keeps every invariant and the region |
| Resizing.ResizedSound | shared/dlmalloc.c:3446-3507 | rewriting a chunk in use and what it has swallowed behind it keeps every invariant |
| Heaps.Heap.constructor | shared/dlmalloc.c:1254 | the zeroed state is sound and empty |
| Heaps.Heap.MergeBack | shared/dlmalloc.c:2990-3016 | the backward half of consolidation yields the merged chunk, or finishes when the victim takes it in |
| Heaps.Heap.MergeAhead | shared/dlmalloc.c:3017-3048 | the forward half writes exactly the fields of the merged layout |
| Heaps.Heap.Dispose | shared/dlmalloc.c:2988-3054 | the chunk leaves the clients, every other one keeps place and size, the heap stays sound, the run-time checks hold |
| Heaps.Heap.ReplaceVictim | shared/dlmalloc.c:2253-2262 | the old victim is binned with its size, the new one takes its place |
| Heaps.Heap.TakeSmall | shared/dlmalloc.c:3207-3218 | hands out a chunk of exactly the size of the bin |
| Heaps.Heap.SplitSmall | shared/dlmalloc.c:3228-3244 | hands out the front of a chunk of that bin; the remainder becomes the victim |
| Heaps.Heap.TMallocSmall | shared/dlmalloc.c:3130-3165 | splits a smallest of all tree chunks, with less than a minimal chunk to spare |
| Heaps.Heap.TMallocLarge | shared/dlmalloc.c:3059-3127 | takes a best fitting chunk; returns 0, with nothing changed, exactly when none fits or the victim fits at least as well |
| Heaps.Heap.FromVictim | shared/dlmalloc.c:3263-3281 | the victim serves, whole or split |
| Heaps.Heap.FromTop | shared/dlmalloc.c:3283-3293 | the front of the top serves, the rest stays the top |
| Heaps.Heap.SegmentHolding | shared/dlmalloc.c:1320-1329 | finds a segment that holds the address exactly when there is one |
| Heaps.Heap.InitTop | shared/dlmalloc.c:2515-2527 | the top starts at the first aligned chunk address and ends at the foot area |
| Heaps.Heap.Fences | shared/dlmalloc.c:2631-2641 | at least two fenceposts, and no head outside their range changes |
| Heaps.Heap.WriteSegment | shared/dlmalloc.c:2603-2650 | every tag that the new segment needs, and nothing else touched |
| Heaps.Heap.AddSegment | shared/dlmalloc.c:2603-2653 | the heap stays sound, no client block changes, the new region becomes the top |
| Heaps.Heap.FirstSegment | shared/dlmalloc.c:2797-2808 | first-time initialisation |
| Heaps.Heap.Grow | shared/dlmalloc.c:2792-2853 | a granted region becomes the first segment of the list and is added to the footprint; largest footprint and lowest address follow |
| Heaps.Heap.MmapAlloc | shared/dlmalloc.c:2445-2474 | fails, with nothing changed, exactly on wrap-around or refusal; otherwise an aligned chunk at the first chunk address of the region, with an offset below 64, 16 bytes beyond `nb`, and the whole region accounted for |
| Heaps.Heap.SysAlloc | shared/dlmalloc.c:2658-2868 | if the system grants the region the request is always served, for every base; it fails, with nothing changed, exactly on refusal or wrap-around |
| Heaps.Heap.SmallPath | shared/dlmalloc.c:3200-3252 | the bins serve a small request exactly when `Policy.BinsPass` does not hold, and then with the next chunk of a best fitting size |
| Heaps.Heap.FromBins | shared/dlmalloc.c:3200-3261 | the same for every request size |
| Heaps.Heap.FromRest | shared/dlmalloc.c:3263-3295 | victim, then top, then system; the exact failure condition |
| Heaps.Heap.Malloc | shared/dlmalloc.c:3169-3303 | fails, with nothing changed, exactly under `Policy.Refuses`; otherwise the chunk that the documented order of preference selects, and among binned chunks of its size the one that is next, aligned to 64, with the bytes asked for, less than a minimal chunk to spare unless mapped, and 16 bytes of overhead if mapped; all other blocks unchanged; segments, footprint, largest footprint and lowest address change exactly by what the system granted |
| Heaps.Heap.Free | shared/dlmalloc.c:3307-3414 | exactly this block is given back; the footprint falls exactly by a mapped region, and nothing else that the system granted changes |
| Heaps.Heap.SplitUsed | shared/dlmalloc.c:3446-3454 | a block in use becomes two, by two `set_inuse` in either order |
| Heaps.Heap.ExtendIntoTop | shared/dlmalloc.c:3456-3467 | grows to exactly `nb` at the expense of the top |
| Heaps.Heap.ExtendIntoVictim | shared/dlmalloc.c:3468-3489 | grows into the victim with less than a minimal chunk to spare |
| Heaps.Heap.ExtendIntoFree | shared/dlmalloc.c:3490-3507 | grows into the free chunk behind and gives a useful remainder back |
| Heaps.Heap.ReallocTile | shared/dlmalloc.c:3446-3507 | succeeds in place exactly when the chunk and the idle one behind it have room |
| Heaps.Heap.TryRealloc | shared/dlmalloc.c:3436-3513 | succeeds in place exactly under `Policy.InPlace`, else nothing changes |
| Heaps.Heap.CopyBlock | shared/dlmalloc.c:3845-3846 | every byte of the old block but 8 of a tile or 16 of a mapped chunk, as far as asked for, is at the new place; no other byte of a client changes |
| Heaps.Heap.MoveBlock | shared/dlmalloc.c:3843-3848 | a fresh block with these bytes, and the old one given back; on failure, whose condition is exact, nothing changes |
| Heaps.Heap.Realloc | shared/dlmalloc.c:3810-3853 | the block stays exactly when it can, else moves with these bytes; a tile has less than a minimal chunk to spare; a mapped block stays unchanged if its size is from 80 bytes above the request to 2 units and 8 bytes above it, and only if from 16 bytes above it to less than 2 units and 72 bytes; on failure, whose condition is exact, nothing changes |
| HeapFacts.LeadLeavesLarge | shared/dlmalloc.c:3546-3558 | giving up the leader of a mapped chunk never leaves a small one, for every alignment |
| Heaps.Heap.AlignFront | shared/dlmalloc.c:3537-3565 | the aligned spot leaves a leader of at least a minimal chunk and enough behind it; the leader is given back or the mapping moved |
| Heaps.Heap.MoveMapped | shared/dlmalloc.c:3555-3558 | only offset and size of the mapped chunk change; region and footprint stay, and every check of a mapped chunk still holds |
| Heaps.Heap.TrimTail | shared/dlmalloc.c:3567-3577 | spare room beyond a minimal chunk is given back |
| Heaps.Heap.AlignBlock | shared/dlmalloc.c:3537-3583 | an over-allocated block becomes an aligned one with room for the request; no other block changes place, size or kind |
| Heaps.Heap.AlignedMalloc | shared/dlmalloc.c:3515-3587 | aligned to 2^k, large enough, at most a minimal chunk too large unless mapped, nothing lost; the exact failure condition, and what a success costs |
| Heaps.Heap.Memalign | shared/dlmalloc.c:3886-3891 | the same for every alignment up to 2^63, rounded up to a power of two |
| Heaps.Heap.ClientWrites | shared/dlmalloc.c:1838-2100 | clients may overwrite every head, foot and link entry with a byte in their blocks; the heap stays sound and stands for the same chunks |
| Conservation.StartInuse | shared/dlmalloc.c:2048-2050 | the first chunk of a segment has nothing free before it |
| Heaps.Heap.WalkSegment | shared/dlmalloc.c:2047-2067 | the walk meets the checks of the source at every chunk, links included, and ends at the top or the fenceposts |
| Heaps.Heap.Traverse | shared/dlmalloc.c:2042-2070 | the total is blocks, records, free chunks, top and foot area, each counted once; with fenceposts, gaps and mapped regions it is the footprint |
| Heaps.FirstRequest | shared/dlmalloc.c:3169-3303 | from the zeroed state, whatever region the system grants serves the first request at its first chunk address |
| Sessions.Serve | shared/dlmalloc.c:3169-3891 | one call of any kind by a client that keeps its blocks in slots |
| Sessions.Session | shared/dlmalloc.c:3169-3891 | any number of calls against any honest system: every state on the way is sound, the client holds distinct blocks, and what happens to them is a run as `KeptThroughout` presumes |
| Sessions.EveryState | shared/dlmalloc.c:2042-2100 | in every state of a session blocks are disjoint and all granted bytes accounted for |
| Sessions.GrantingHonest | shared/dlmalloc.c:256-258 | a system that grants fresh memory as long as there is any is honest |
| Policy.SplitChoice | shared/dlmalloc.c:3220-3251 | once the own bins are empty and the victim too small: the next small bin, else a smallest tree chunk, is a best fit over all bins, else nothing fits |
| Policy.SmallPasses | shared/dlmalloc.c:3207-3252 | what the bit tests find empty has no chunk that fits |
| Policy.NoTrees | shared/dlmalloc.c:3247-3257 | an empty tree map means that no large chunk is binned |
| Policy.RoomIs | shared/dlmalloc.c:3446-3507 | the tests on top, victim and in-use bit ask exactly whether the chunk behind is idle and large enough |
| Policy.MappedStays | shared/dlmalloc.c:2477-2485 | the sizes between which a mapped block is kept, in bytes of the request |
| Policy.RequestSurvives | shared/dlmalloc.c:3845-3846 | all bytes that a client asked for survive a move, up to the new size |
| Conservation.Conserved | shared/dlmalloc.c:2042-2100 | in every sound state, blocks, free chunks, top, foot area, records, fenceposts, gaps and mapped regions add up to the footprint |
| Conservation.FromIs | shared/dlmalloc.c:2047-2067 | from any tile on, the tiles of its segment fill it up to its end |
| HeapClaims.LiveApart | shared/dlmalloc.c:1872-1880 | blocks of clients never overlap |
| HeapClaims.LiveInside | shared/dlmalloc.c:1838-1841 | every block lies inside a segment or its own mapped region |
| HeapClaims.NoIdleNeighbours | shared/dlmalloc.c:1883-1903 | no two neighbouring chunks are idle, top included |
| HeapClaims.FreeExactlyOnce | shared/dlmalloc.c:2054-2062 | a chunk is free exactly when it is in one, and only one, of the bins and the victim |
| HeapClaims.BinnedAbove | shared/dlmalloc.c:2196-2215 | every binned chunk passes `ok_address` |
| Heaps.Heap.UsableSize | shared/dlmalloc.c:4009-4016 | the size of the block less 8 bytes for a tile and 16 for a mapped chunk |
| ClientMemory.ReachesUsable | shared/dlmalloc.c:4009-4016 | the bytes that a client may write are exactly the usable ones |
| ClientMemory.RecordsApart | shared/dlmalloc.c:2437-2443 | the heads, feet and links of different chunks never share a byte |
| ClientMemory.TileUnreached | shared/dlmalloc.c:1872-1903 | no client reaches a head of a tile, a foot that matters or the links of a free chunk |
| ClientMemory.MappedUnreached | shared/dlmalloc.c:1858-1869 | nor the head, the offset and the markers of a mapped chunk |
| ClientMemory.ScribbleSound | shared/dlmalloc.c:1838-2100 | the heap stays sound whatever clients write, wherever in their blocks |
| HeapClaims.KeptThroughout | shared/dlmalloc.c:3169-3414 | over any run, a block keeps address, size and kind until a call concerns it |
| HeapClaims.OffersRequest | shared/dlmalloc.c:914-915 | over any run, a block has the bytes asked for and its overhead, 16 bytes for a mapped chunk and 8 for any other, as long as it is held |
| Alignment.PowerTest | shared/dlmalloc.c:3519 | `a & (a-1)` is 0 exactly for powers of two |
| Alignment.RoundAlignment | shared/dlmalloc.c:3517-3523 | the result is the least power of two that is at least 64 and at least the alignment asked for |
| Alignment.NextAligned | shared/dlmalloc.c:3546-3552 | the spot is aligned, at least a minimal chunk away and within the over-allocation |
| ShortHash.NotFlips | ip/2018.2/llnl.gov_user_axis_hash_1.0.1/short.c:31-32 | the complement differs in every bit |
| ShortHash.RotlIs | ip/2018.2/llnl.gov_user_axis_hash_1.0.1/short.c:5-8 | the two shifts are a rotation by k bits |
| ShortHash.RoundInverse | ip/sysc/shash.h:33-47 | each round is a bijection on the four-word state |
| ShortHash.RoundsInverse | ip/sysc/shash.h:77-89 | so are the eleven rounds: distinct states never collide |
| HashForms.MixSoft | ip/2018.2/llnl.gov_user_axis_hash_1.0.1/short.c:80-92 | the eleven software steps are the eleven rounds |
| HashForms.AddTail | ip/2018.2/llnl.gov_user_axis_hash_1.0.1/short.c:33-72 | the fall-through cases add the zero-padded words, for every length |
| HashForms.SoftHash | ip/2018.2/llnl.gov_user_axis_hash_1.0.1/short.c:18-97 | the software form computes the hash of every key, length and seed |
| HashForms.MixStaged | ip/2018.2/llnl.gov_user_axis_hash_1.0.1/short.c:134-146 | the eleven staged steps are the eleven rounds |
| HashForms.StagedHash | ip/2018.2/llnl.gov_user_axis_hash_1.0.1/short.c:110-151 | the pipelined form computes the same hash as the software form |
| HashPipeline.Pipe.Clock | ip/sysc/shash.h:49-93 | under every stall pattern the results leave in order, once each, and are the eleven rounds of the blocks that entered |
| HashPipeline.FlightMoves | ip/sysc/shash.h:57-93 | one advance keeps the results in flight and their order |
| HashPipeline.PipeIsHash | ip/sysc/hsu.h:77-93 | for keys of 1 to 16 bytes the pipeline computes the software hash |
| StreamFifo.Ring.Outputs | ip/sysc/sfifo_cc.h:58-67 | valid exactly when not empty, with the oldest element; ready exactly when not full |
| StreamFifo.Ring.Clock | ip/sysc/sfifo_cc.h:69-99 | for every depth, one clock edge is one step of a bounded queue, simultaneous read and write included |
| StreamFifo.Ring.Move | ip/sysc/sreg.h:153-183 | the flags never claim both full and empty and follow the number of elements |
| StreamFifo.Slice.Clock | ip/sysc/sreg.h:82-99 | the forward slice is a one-deep queue that accepts in the cycle in which it is emptied |
| StreamFifo.Fork.Clock | ip/sysc/spsel.h:35-42 | both branches deliver the accepted sequence, and accept in lockstep |
| KvsPipeline.KeyLoads | ip/sysc/hsu.h:83-91 | a key is its eight bytes as a little-endian word, both ways |
| KvsPipeline.IndexIsHash | ip/sysc/hsu.h:95-103 | the masked low word that leaves the hash pipeline is the masked hash of the bytes of the key |
| KvsPipeline.SoftSlot | ip/sysc/hsu.h:102-103 | for every key, software that hashes its bytes and masks the first word of the result finds the slots that the pipeline looks at |
| KvsPipeline.StepKeeps | ip/sysc/kvs.h:134-201 | every step of every unit keeps the words that each pending key is owed |
| KvsPipeline.WordsMove | ip/sysc/lsu.h:105-122 | hashing, indexing and loading hand on exactly the window of each key, in order |
| KvsPipeline.CompareOwes | ip/sysc/indel.h:66-114 | the comparator answers with the first match of the window, else 0, once per key |
| KvsPipeline.CutHarmless | ip/sysc/lsu.h:62 | the 30 bits of the index register leave the probe window alone, for every index |
| KvsPipeline.WindowExact | ip/sysc/lsu.h:111-113 | a probe window has the addresses of the table if and only if it ends inside 32 bits |
| KvsPipeline.LookupIsTable | ip/sysc/kvs.h:134-201 | for a table whose windows lie inside 32 bits, the pipeline looks up what the table says |
| KvsPipeline.WindowLost | ip/sysc/lsu.h:111-113 | a window that reaches beyond is read on from address 0 |
| KvsPipeline.LookupAnswers | ip/sysc/indel.h:66-114 | told by words of memory: the low half of the second word of the first slot whose first word is the key and whose second word is at least 2^32, or 0 if there is none |
| KvsPipeline.EmitsPrefix | ip/sysc/kvs.h:134-201 | for every interleaving, every mask and every table address, what has come out is a prefix of the sequential lookups of the keys, and each value is such an answer from the window that the masked hash of its key selects |
| KvsPipeline.AnswersAll | ip/sysc/kvs.h:134-201 | a run that cannot go on has answered every key |
| DmaEngines.StepKeeps | ip/sysc/lsu.h:308-641 | every step of either engine keeps the words still to come and the words already copied |
| DmaEngines.StatusKept | ip/sysc/lsu.h:416-424 | no step loses or adds a status |
| DmaEngines.SplitWords | ip/sysc/lsu.h:322-375 | cutting at 128-byte boundaries covers the same words in the same order |
| DmaEngines.CutWords | ip/sysc/lsu.h:365-371 | cutting the address of a load transaction to 32 bits cuts that of each of its words |
| DmaEngines.NeverStuck | ip/sysc/lsu.h:521-641 | until all is copied some step is possible and finds room, whatever the two cuts are and for every depth of the FIFOs |
| DmaEngines.WorkFalls | ip/sysc/lsu.h:308-641 | every step reduces the work that is left, so every run ends |
| DmaEngines.CopiedHas | ip/sysc/lsu.h:546-561 | every destination word holds its source word |
| DmaEngines.EveryRunCopies | ip/sysc/lsu.h:308-641 | every run that cannot go on has copied all words in order, from source addresses cut to 32 bits, and reported each flagged command once, for every interleaving and every depth of the FIFOs |
| LsuCommands.Smove | ip/sysc/lsu.h:90-104 | command i has address + i * increment, modulo 2^32, the cut size and the last mark exactly on the last; there are as many as the cut repetition count |
| LsuCommands.ExpandIs | ip/sysc/lsu.h:58-104 | without wrap-around of addresses, the commands are the strided blocks of the cut operands |
| LsuCommands.RunTraced | ip/sysc/lsu.h:308-641 | whatever the commands, every value in the stream or written to memory was in a source word at the start, and nothing outside the destination changes |
| LsuCommands.SmemcpyCopies | shared/lsu_cmd.c:89-121 | when the operands fit, every interleaving ends with every word of block i of the source in block i of the destination and one status from each engine |
| LsuCommands.SmemcpyMisses | shared/lsu_cmd.c:89-121 | when they do not, no run brings the last word of the last block |
| LsuCommands.SmemcpyExact | shared/lsu_cmd.c:89-121 | all blocks arrive if and only if the size is below 2^24, for more than one block both increments are below 2^30, and the last source block ends inside 2^32 |
| LsuCommands.WholeBlockLost | shared/lsu_cmd.c:98-118 | a block of 16 MiB gives a command that moves nothing and asks for no status |
| LsuCommands.StrideLost | ip/sysc/lsu.h:60-61 | an increment of 1 GiB sends both blocks to the same place |
| LsuCommands.AddressLost | ip/sysc/lsu.h:366-406 | a source block across 2^32 is read on from address 0 |
| Framing.FrameLayout | ip/hls/eth_fifo_interface/eth_fifo_interface.cpp:105-219 | addresses, length field, payload, padding, ID and marks of a whole frame, byte by byte |
| Framing.DataSent | ip/hls/eth_fifo_interface/eth_fifo_interface.cpp:177-195 | sending a trace byte keeps every invariant; padding starts only after whole words |
| Framing.ZeroSent | ip/hls/eth_fifo_interface/eth_fifo_interface.cpp:196-207 | padding keeps every invariant |
| Framing.FrameStarts | ip/hls/eth_fifo_interface/eth_fifo_interface.cpp:105-122 | a frame starts with enough bytes for its length, or is minimal; with 1488 counted bytes, or after 16000 quiet calls |
| Framing.FrameReason | ip/hls/eth_fifo_interface/eth_fifo_interface.cpp:107-122 | every finished frame was begun with 1488 counted bytes and then has length 1489, or after 16000 idle calls without a new byte; it carries every whole word counted at its start |
| Framing.Tells | ip/hls/eth_fifo_interface/eth_fifo_interface.cpp:107-128 | the counter measures the idle calls since a byte was buffered, up to 16000 |
| Framing.NoLongWait | ip/hls/eth_fifo_interface/eth_fifo_interface.cpp:113-128 | with bytes buffered and none coming, the machine is idle for at most 16001 calls |
| Framing.FrameDone | ip/hls/eth_fifo_interface/eth_fifo_interface.cpp:208-219 | the ID completes a whole frame; IDs count up modulo 256 |
| Framing.ByteBuffered | ip/hls/eth_fifo_interface/eth_fifo_interface.cpp:221-283 | buffering a byte moves it from the word to the buffer |
| EthernetFramer.Framer.Arrive | ip/hls/eth_fifo_interface/eth_fifo_interface.cpp:285-290 | an arriving word joins the flow |
| EthernetFramer.Framer.WaitForData | ip/hls/eth_fifo_interface/eth_fifo_interface.cpp:105-128 | the idle state is left exactly when a packet is counted, or the quiet time is over and there is a byte |
| EthernetFramer.Framer.Advance | ip/hls/eth_fifo_interface/eth_fifo_interface.cpp:104-219 | the state machine sends one symbol exactly when asked, never reads an empty buffer, loses no byte; modes follow each other as listed, with the data-ready signal up from the first destination byte to the source address |
| EthernetFramer.Framer.Refill | ip/hls/eth_fifo_interface/eth_fifo_interface.cpp:221-298 | the filler loses no byte and takes one whenever there is one and room; the counter is the occupancy modulo 2^14 |
| EthernetFramer.Framer.Cycle | ip/hls/eth_fifo_interface/eth_fifo_interface.cpp:68-298 | bytes sent, pending, buffered and unread are the bytes that arrived; the symbols on the port are whole frames, consecutively numbered, and a prefix of the next; a byte is buffered, and a frame begun, exactly when it should be |
| EthernetFramer.Play | ip/hls/eth_fifo_interface/eth_fifo_interface.cpp:68-298 | the same over runs of any length, with what each call did, as `NoLongWait` and `FrameReason` presume |
| ByteStreamer.TxStreamer.Write | shared/linux/xllfifo/xstreamer.c:427-510 | for every alignment and fill state, exactly these bytes are appended |
| ByteStreamer.TxStreamer.SetLen | shared/linux/xllfifo/xstreamer.c:389-405 | the frame holds exactly the bytes written |
| ByteStreamer.RxStreamer.GetLen | shared/linux/xllfifo/xstreamer.c:263-271 | the next frame becomes readable |
| ByteStreamer.RxStreamer.Read | shared/linux/xllfifo/xstreamer.c:292-372 | exactly the next bytes of the frame arrive, and nothing else in the buffer changes; the loop ends |
| ByteStreamer.WriteFrame | shared/linux/xllfifo/xstreamer.c:389-510 | any cutting of the data into writes gives the same frame |
| ByteStreamer.ReadFrame | shared/linux/xllfifo/xstreamer.c:263-372 | any cutting of the reads gives the same bytes |
| ByteStreamer.Transfer | shared/linux/xllfifo/xstreamer.c:263-510 | the reader gets exactly the bytes of the writer |
| TraceCompress.StampedFour | ip/hls/compress/compress.cpp:122-134 | the accumulated time and the overflow flag go into the first flagged record of an event and no other |
| TraceCompress.PackedRecords | ip/hls/compress/compress.cpp:17-145 | the flagged records of a pack are the records of the event, in order |
| TraceCompress.TakeFirst | ip/hls/compress/compress.cpp:196-231 | taking the first valid record leaves the others |
| TraceCompress.Compressor.Convert | ip/hls/compress/compress.cpp:17-145 | no record of the event is lost on the way into the buffer; the time is the sum of all differences so far, modulo 2^30 |
| TraceCompress.Compressor.WriteOut | ip/hls/compress/compress.cpp:150-251 | under any back-pressure: one record per call while any is left, in order; a pack is read exactly when the stage runs idle |
| TraceCompress.StateExact | ip/hls/compress/compress.cpp:150-251 | the state is the number of valid bits if and only if records are left or the event read last has none |
| TraceCompress.StaleBit | ip/hls/compress/compress.cpp:171-195 | a run that ends idle with a valid bit set |
| TraceCompress.Compressor.Drain | ip/hls/compress/compress.cpp:150-251 | without back-pressure all records of all events leave |
| TraceFormat.FieldAt | ip/hls/compress/compress.hpp:173-194 | for every table of widths, the slice from the offset of a field to the next reads the field back |
| TraceFormat.RecordRoundTrip | ip/hls/compress/compress.hpp:173-194 | unpacking a 128-bit output record inverts packing it, field by field, time and overflow flag included |
| TraceFormat.OutRoundTrip | ip/hls/compress/compress.hpp:152-195 | every output word, software or not, says what record it is |
| TraceFormat.EntryFits | ip/hls/compress/compress.hpp:97-136 | every record of every 320-bit entry fits the fields of its word |
| TraceFormat.PackRoundTrip | ip/hls/compress/compress.hpp:203-229 | taking the 516 bits of a pack apart gives its four words and valid bits back |
| TraceWords.RecordsAre | ip/hls/compress/compress.cpp:48-120 | which words an entry leads to, told by its flag bits |
| TraceWords.WordSays | ip/hls/compress/compress.hpp:97-193 | which bits of the entry a word carries and where, bit by bit, for software entries and for both channels of both ports, with zeros in between |
| TraceWords.TimeIs | ip/hls/compress/compress.cpp:46 | the time of an entry as a sum over the bits of the entries before it |
| TraceWords.Compress | ip/hls/compress/compress.cpp:17-251 | from 320-bit entries to 128-bit words, for every interleaving and every back-pressure: the words say in order, once each and bit by bit, what the entries say |
| TraceWords.CompressAll | ip/hls/compress/compress.cpp:17-251 | without back-pressure they say all of it |
| TraceWords.ParseSlot | trace/parser.c:93-102 | every field is the value of its bits, for every number of flags and every width of IDs; addresses as hexadecimal digits |
| TraceWords.ParseEntry | trace/parser.c:146-167 | mark, time, overflow flag, and the software word or both slots, each from where the one before it ends |
| TraceWords.ParsedEvent | trace/parser.c:146-167 | with seven flags a slot, parser and compressor read the same event from every 320-bit entry |
| TraceParser.ValueOfBits | trace/parser.c:54-63 | reading a field least significant bit first inverts writing it |
| TraceParser.NextUint | trace/parser.c:54-63 | the value of the next bits, for up to 32 bits |
| TraceParser.NextHex | trace/parser.c:65-76 | the digits stand for the value of the next bits, for every width |
| TraceParser.Walk | trace/parser.c:93-100 | the field walk inverts packing for every table of widths |

## Left out

- `sys_trim` and `release_unused_segments`: `MORECORE_CANNOT_TRIM` switches the first off, and the second is due only after 2^64 - 1 frees of large chunks.
- mspaces, locks, `FOOTERS`, `MORECORE`, footprint limits, `mallinfo` and the `calloc`, `ialloc` and `bulk_free` wrappers: disabled, unused or thin.
- Error actions of failed run-time checks: the checks are proved to hold instead.
- The segment list is a sequence instead of records linked through the segments; the bytes of a record are part of its tile.
- Heaps.Heap.Memalign: alignments above 2^63 are not modelled, because rounding them up does not terminate.
- KvsPipeline.EmitsPrefix: registers are fixed during a run, 1 to 1024 probes, as the 10-bit register counts them, the same number of slots loaded as probed, keys of 8 bytes, slots of 16; the control switch is an order-preserving channel; termination of the pipeline is not claimed.
- Heaps.Heap.Realloc: that the tags which the allocator writes lie outside the bytes of blocks that stay is not part of the contracts of the operations; the bytes of clients are a separate object, and the footprint is an unbounded number.
- DmaEngines.EveryRunCopies: addresses and sizes are in whole 8-byte words, source and destination are disjoint. Transaction queues and the data stream may grow without bound in a run, which allows more interleavings than the FIFOs of the source; that a run can go on is proved for FIFOs of every depth. Statuses are assumed to be taken.
- Timing in the SystemC code, TLM payloads, throttling and the memory model: no functional result.
- Reset during operation of the clocked units, and the `BYPASS` slice, which is a wire.
- EthernetFramer.Play: the reader does not ask for a byte while the machine is idle; how long it waits for the reader is not bounded.
- The parser's output lines and the sum of its time stamps.
- Reading trace files, CSV formatting, FIFO register access, clock and cache control, FatFs, device tree code and the bump allocators.

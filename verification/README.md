# Verification of the cos kernel core and its JPEG decoder

This project models the data structures of the cos kernel and the entropy decoding and row pipeline of
the JPEG decoder it ships, and proves what callers rely on. The models follow the code, branch by branch
and constant by constant; where the code and its comments differ, the code is followed.

| part | modules |
|---|---|
| Red-black tree that indexes priorities and timers | RbShape (trees as values), RbTies (repeated keys), RbTree (links, parents, sentinel) |
| Page allocator and slab heap | Pages, SizeClass, Slab (the steps), SlabInv (the invariant), SlabRun (whole runs), SlabEffect (what a call changes), SlabAlign (alignment), SlabHeap (the fields and loops) |
| Huffman tables, bit buffer, symbol decoding | Bits, Huffman, HuffTables, BitReader, HuffDecode |
| Sequential MCU decoding and its suspension | ZigzagOrder, McuDecode, McuChunks, McuMeaning, McuDecoder, Encoding, McuEncode (the round trip) |
| AC refinement and its undo path | AcRefine, AcRerun, AcOverrun, AcRefiner, AcEncode (the round trip) |
| Context rows by funny pointers | ContextPointers, ContextRows, ContextMain |
| Merged upsampling against the plain path | ColorConvert, MergedUpsample |
| Message queue as a concurrent protocol | MessageQueue, QueueContents, QueueObject |

Code that computes is a function; code that updates fields or loops is a method with invariants, proved
against a function or a step of a state machine, and the promises are lemmas about those. The decoder
follows ITU-T T.81: Figures C.1, C.2, F.15 and F.16, sections F.2.2.1, F.2.2.2 and G.1.2.3, and section
B.1.1.5 for stuffed bytes. The repository has no encoder; those of sections F.1.2 and G.1.2.3 are defined
here to say what the decoders give back. A data source that can suspend is the sequence of bytes delivered so far; data
that arrives later extends it. Calls into other modules that may fail or stop early (decompress_data, the
postprocessor, read_restart_marker) are parameters of the step that makes them.

Six promises do not hold as stated, and the exact conditions are proved instead:

- insert keeps the red-black rules exactly when the node is red or the tree empty (`InsertRedBlackIff`).
  A node taken out of a tree can be black (`ReuseUnbalances`).
- remove takes out exactly its node if and only if the key comparisons of leave find the right side
  (`RbTree.Tree.Remove`, `TiedLoses`). They do exactly when none of three kinds of ties is at hand
  (`ClashCases`); distinct keys rule all of them out (`DistinctRemovable`). Otherwise a subtree is lost
  (`TieExample`), or adjustLeave reads through a null link (`FailsWhere`, `FailExample`).
- A power-of-two block is aligned to its size exactly when it is at most a page or comes from an aligned
  page (`AlignedIff`); every size above a page can fail (`MisalignedEvery`).
- A refinement scan changes only its band exactly when no run outlasts the zeros left in it, or the
  coefficient stored past the band fits there by chance (`OnlyRefinedIff`, `OverrunExample`).
- A full row group of context is there for every group exactly when the last iMCU row begins with a full
  row group or is the only one (`ContextIff`, `FullContextIff`, `ShortContext`); the nearest rows are always
  right.
- What a receiver gets is the message sent exactly when it asks for no more bytes than were sent
  (`ReceivedIsSent`); behind them are bytes that an earlier message left in the slot (`Leftover`).

## Model

| member | source | states |
|---|---|---|
| `RbShape.InsertInOrder` | components/stdlib/coslib/rbtree.hpp:200-211 | Insertion puts the node behind all entries with a key at most its own and before all with a greater key; the in-order sequence is otherwise the same and stays weakly sorted |
| `RbShape.InsertRedBlackIff` | components/stdlib/coslib/rbtree.hpp:163-211 | After insertion no red node has a red child and all paths have equal black height exactly when the given node is red or the tree was empty: insert never sets the colour |
| `RbShape.AdjustInsertRedBlack` | components/stdlib/coslib/rbtree.hpp:163-198 | Wherever one red node hangs under a red parent in an otherwise right tree, the result satisfies both red-black rules |
| `RbShape.BlackLeafUnbalances` | components/stdlib/coslib/rbtree.hpp:163-198 | A black node hung into a balanced tree leaves it unbalanced whatever adjustInsert does |
| `RbShape.RotateInOrder` | components/stdlib/coslib/rbtree.hpp:137-161 | A rotation keeps the in-order sequence |
| `RbShape.LeaveInOrder` | components/stdlib/coslib/rbtree.hpp:224-296 | leave takes exactly its own entry out of the in-order sequence and keeps the order of all others |
| `RbShape.LeaveRedBlack` | components/stdlib/coslib/rbtree.hpp:224-348 | leave keeps both red-black rules |
| `RbShape.AdjustLeaveRedBlack` | components/stdlib/coslib/rbtree.hpp:298-348 | adjustLeave pays back a missing black node from any position: it always finds a neighbour, and the result satisfies both red-black rules |
| `RbShape.KeysFitIff` | components/stdlib/coslib/rbtree.hpp:91-94 | In a weakly sorted tree the key comparisons that leave uses to choose sides are all right exactly when no tie of one of three forms is at hand |
| `RbShape.DistinctKeysFit` | components/stdlib/coslib/rbtree.hpp:91-94 | With pairwise distinct keys every comparison of leave finds the right side |
| `RbShape.FindComplete` | components/stdlib/coslib/rbtree.hpp:213-222 | lookup finds a node exactly when the key is in the tree |
| `RbShape.FirstInOrder` | components/stdlib/coslib/rbtree.hpp:131-136 | searchMin ends at the first entry in order |
| `RbTree.Tree.Rotate` | components/stdlib/coslib/rbtree.hpp:137-161 | The link steps of rotate turn the linked subtree into its rotation, with all parent links right, and touch no node outside the tree |
| `RbTree.Tree.AdjustInsert` | components/stdlib/coslib/rbtree.hpp:163-198 | The linked tree becomes the repaired tree of RbShape.AdjustInsert; uncle and grandparent are real nodes whenever they are used |
| `RbTree.Tree.InsertBelow` | components/stdlib/coslib/rbtree.hpp:200-211 | The walk down ends at the free place that RbShape.Insert names and the node is linked there before the repair |
| `RbTree.Tree.Insert` | components/stdlib/coslib/rbtree.hpp:404-416 | The links form the tree with the node added, in weak search order; the red-black rules hold exactly when the node was red or the tree empty; no other record changes |
| `RbTree.Tree.FixNeighbor` | components/stdlib/coslib/rbtree.hpp:326-347 | The sibling part of adjustLeave on the links, with every sibling and nephew it reads being a real record |
| `RbTree.Tree.AdjustLeave` | components/stdlib/coslib/rbtree.hpp:298-348 | On the links, in any tree: it ends well exactly when there is a neighbour wherever it looks for one, and the links then form the repaired tree; otherwise it comes to read the null links of the sentinel |
| `RbTree.Tree.SwapDown` | components/stdlib/coslib/rbtree.hpp:256-294 | The exchange of the node with the last node of its left subtree, link by link: the exchanged tree with all parent links right, hanging on the other side of the parent after a tie |
| `RbTree.Tree.Leave` | components/stdlib/coslib/rbtree.hpp:224-296 | All three cases of leave on the links, whatever the keys are: the tree that LeaveTied names, the node unlinked with its key and the colour it then had |
| `RbTree.Tree.Remove` | components/stdlib/coslib/rbtree.hpp:418-431 | For any valid tree and node: exactly the given entry leaves the in-order sequence if and only if all key comparisons of leave find the right side, and then order, red-black rules, parent links and sentinel stay; false and no change for a null node or one in no tree. It fails exactly where adjustLeave looks for a neighbour that is not there |
| `RbTree.ReuseUnbalances` | components/stdlib/coslib/rbtree.hpp:404-431 | A node that was alone in a tree stays black when removed; inserted again beside another node it breaks the red-black rules |
| `RbTies.FitLeaves` | components/stdlib/coslib/rbtree.hpp:224-296 | Where the comparisons find the right side, leave with ties is the leave that takes out one node |
| `RbTies.TiedLoses` | components/stdlib/coslib/rbtree.hpp:224-296 | leave takes out exactly one entry if and only if the comparisons find the right side, and more than one otherwise |
| `RbTies.FailsWhere` | components/stdlib/coslib/rbtree.hpp:298-322 | Where adjustLeave fails: the node that takes over ties with the parent, the lowered node is a black leaf, and the shortage climbs to that parent, whose left link is nil by then |
| `RbTies.TieExample` | components/stdlib/coslib/rbtree.hpp:241-255 | Four nodes with one key in a red-black tree: removing one leaves two |
| `RbTies.FailExample` | components/stdlib/coslib/rbtree.hpp:256-322 | Seven black nodes with one key in a red-black tree: removing one fails |
| `RbTree.DistinctRemovable` | components/stdlib/coslib/rbtree.hpp:418-431 | With pairwise distinct keys the comparisons find the right side for every node |
| `RbTree.ClashCases` | components/stdlib/coslib/rbtree.hpp:91-94 | The comparisons go wrong exactly for three kinds of ties between equal keys: the only child, or the node that takes over, ties with the parent of a left child; or the left child takes over while its own left child equals it |
| `RbTree.Tree.Min` | components/stdlib/coslib/rbtree.hpp:440-445 | None for an empty tree, otherwise the object of an entry with a least key |
| `RbTree.Tree.Lookup` | components/stdlib/coslib/rbtree.hpp:395-402 | An object is returned exactly when the key is present, and it is the object of an entry with that key |
| `Pages.CanonicalUnique` | kernel/slab.cpp:151-252 | A set of free pages has exactly one sorted, disjoint, fully coalesced list |
| `Pages.TakeCorrect` | kernel/slab.cpp:151-188 | page_alloc fails exactly when no npages contiguous free pages exist; otherwise it takes the lowest such run and the list stays coalesced |
| `Pages.GiveCorrect` | kernel/slab.cpp:200-252 | page_free of a disjoint range adds exactly that range and keeps the list sorted, disjoint and coalesced |
| `Pages.TakeGive` | kernel/slab.cpp:151-252 | Allocating and then freeing restores the list exactly |
| `Pages.GiveCommutes` | kernel/slab.cpp:200-252 | The order of two frees does not matter |
| `Pages.PageList.PageAlloc` | kernel/slab.cpp:151-188 | The list walk computes Take; zero pages and no fit return null without a change |
| `Pages.PageList.PageFree` | kernel/slab.cpp:200-252 | The list walk computes Give, including the merge of three runs into one |
| `Pages.PageList.constructor` | kernel/slab.cpp:257-264 | page_init leaves one run with all pages |
| `SizeClass.ZoneIndexFits` | kernel/slab.cpp:326-384 | For sizes 1..16383 the index is below 72, the chunk holds the request, wastes under 8 bytes or under an eighth of the request, and is the chunk size of its index |
| `SizeClass.IndexIffChunk` | kernel/slab.cpp:326-384 | Two sizes have the same index exactly when they have the same chunk size, across all ranges |
| `SizeClass.ZoneIndexMonotone` | kernel/slab.cpp:326-384 | Chunk size and index grow with the request |
| `SizeClass.ZoneIndexLeast` | kernel/slab.cpp:326-384 | No smaller class holds the request |
| `SizeClass.ZoneSize` | kernel/slab.cpp:299-302 | The doubling loop ends at 32, 64 or 128 KiB by the size of the heap |
| `SizeClass.ZoneHolds` | kernel/slab.cpp:547-562 | Behind the header every zone has room for at least three chunks and counts as many as fit; the chunk area is the first one aligned to power-of-two chunk sizes, or to 8 |
| `SizeClass.PowerOfTwoTest` | kernel/slab.cpp:554-557 | The bit trick is true of exactly the powers of two among the chunk sizes |
| `SlabInv.MallocOk` | kernel/slab.cpp:398-590 | kmalloc keeps the invariant; it returns null exactly when the size is zero, wraps when rounded, or no pages are left for it, and then nothing changes; otherwise the block is new and has the requested size |
| `SlabInv.MallocZoneOk` | kernel/slab.cpp:460-497 | Handing out a chunk of a listed zone never pops an empty chunk list and yields an address that is not live |
| `SlabInv.OpenZoneOk` | kernel/slab.cpp:507-577 | Laying out a cached zone for a size class keeps the invariant and hands out its first chunk |
| `SlabInv.MallocLargeOk` | kernel/slab.cpp:413-441 | The large path: rounding in 32 bits, usage entry, and exactly when it fails |
| `SlabInv.FreeOk` | kernel/slab.cpp:692-825 | kfree of a live block or null keeps the invariant and takes exactly that block from the live ones |
| `SlabInv.UsageOf` | kernel/slab.cpp:714-748 | The usage table entry of the page of a live block leads back to its zone or gives its page count |
| `SlabInv.PutChunkOk` | kernel/slab.cpp:751-765 | A freed chunk goes to the front of its zone list; an exhausted zone is listed again |
| `SlabInv.RetireOk` | kernel/slab.cpp:773-820 | Moving an idle zone to the cache or the pages keeps the invariant; no live block is affected |
| `SlabInv.ZoneFull` | kernel/slab.cpp:773-774 | A zone whose free count is its maximum has every handed-out chunk on its list |
| `SlabRun.InvSafe` | kernel/slab.cpp:398-590 | The invariant implies: no byte of a live block belongs to another block, a zone header, a chunk on a free list, the usage table or a free page, and every block is as big as requested |
| `SlabRun.ZoneCount` | kernel/slab.cpp:460-497 | Free count plus chunks in the hands of callers is the maximum of the zone: no chunk is ever lost |
| `SlabRun.InvAccounted` | kernel/slab.cpp:460-571 | Free count is never-used chunks plus listed chunks, and a zone is on the list of its own index exactly when that is positive |
| `SlabRun.RunSafe` | kernel/slab.cpp:398-825 | After every run of kmalloc and kfree of live pointers: safety, accounting, used_mem equal to the rounded sizes of the live blocks and within the heap, page conservation, at most two cached zones |
| `SlabRun.UsedBound` | kernel/slab.cpp:436-438 | used_mem never exceeds the heap, so its 32-bit sum does not wrap |
| `SlabRun.FreshOk` | kernel/slab.cpp:272-320 | The state after system_heap_init satisfies the invariant whatever the usage table holds |
| `SlabEffect.KfreeChunk` | kernel/slab.cpp:745-820 | kfree of a chunk: the chunk is first on its zone list, and a zone that was exhausted is listed again in front. If it was the last chunk of the zone in use and another zone of the class has room, the zone is on no list any more: it is first in the cache when fewer than two zones are cached, otherwise its pages are free again, their usage entries say so, and it is no zone. In every other case cache, free pages and usage table stay; all other zones keep record and place |
| `SlabEffect.KfreePages` | kernel/slab.cpp:716-741 | kfree of a large block: exactly its pages become free, its usage entry has size 0, zones, lists and cache stay |
| `SlabEffect.KmallocPages` | kernel/slab.cpp:413-441 | A request of at least 8 KiB, or 16 KiB with larger zones, gets the least number of whole pages, the lowest that fit; the free pages lose exactly those, zones stay, and max_mem is the largest used_mem so far |
| `SlabEffect.KmallocChunk` | kernel/slab.cpp:444-577 | A smaller request gets a chunk of the first listed zone of its class, the next never used one or else the one freed last; without a listed zone the zone cached last is laid out anew, and without a cached one the lowest free pages; the free pages, usage table, cache and lists change by exactly that |
| `SlabAlign.Aligned` | kernel/slab.cpp:550-557 | Every small block is 8-byte aligned, and a power-of-two chunk is aligned as its zone is |
| `SlabAlign.SmallFrom` | kernel/slab.cpp:458-577 | A small block comes from the first listed zone, else the first cached one, else the pages that page_alloc gives, with the chunk size of its class |
| `SlabAlign.AlignedIff` | kernel/slab.cpp:66-67 | A power-of-two request of any size gets an address aligned to it exactly when it is at most a page, or the page it comes from (first listed zone, first cached zone, or the pages to be taken) is aligned |
| `SlabAlign.MisalignedEvery` | kernel/slab.cpp:66-67 | Every power of two above a page has a fresh heap in which the block is not aligned, against the comment |
| `SlabHeap.Heap.Kmalloc` | kernel/slab.cpp:398-590 | The method computes the kmalloc step and keeps the invariant, zone_free_cnt being the length of the cache |
| `SlabHeap.Heap.Kfree` | kernel/slab.cpp:692-825 | The method computes the kfree step and keeps the invariant |
| `SlabHeap.Heap.MallocPages` | kernel/slab.cpp:413-441 | The large path on the fields |
| `SlabHeap.Heap.MallocListed` | kernel/slab.cpp:460-497 | The listed-zone path on the fields |
| `SlabHeap.Heap.MallocFresh` | kernel/slab.cpp:510-542 | Taking a zone from the cache or the pages, with the loop that fills the usage table |
| `SlabHeap.Heap.MarkZone` | kernel/slab.cpp:534-541 | The loop writes type and offset of every page of the zone and no other entry |
| `SlabHeap.Heap.ClearZone` | kernel/slab.cpp:804-810 | The loop clears the entries of the zone and no other |
| `SlabHeap.Heap.Unlink` | kernel/slab.cpp:781-784 | The pointer walk removes the zone from its list and keeps the order of the rest |
| `SlabHeap.Heap.FreeZone` | kernel/slab.cpp:773-820 | Caching or releasing an idle zone on the fields |
| `SlabHeap.SystemHeapInit` | kernel/slab.cpp:272-320 | No heap exactly when no whole page lies between the addresses; otherwise a valid heap with all whole pages between them and the usage table, 4 bytes a page rounded up to pages, in its first pages |
| `Huffman.PrefixFree` | components/gui/GUI/JPEG/jdhuff.c:193-211 | No code of an accepted table is a prefix of another one |
| `Huffman.NotAllOnes` | components/gui/GUI/JPEG/jdhuff.c:204-208 | No code is the string of all ones |
| `Huffman.CodeRange` | components/gui/GUI/JPEG/jdhuff.c:193-211 | Every code fits its length and lies in the range of that length |
| `Huffman.LengthIff` | components/gui/GUI/JPEG/jdhuff.c:180-191 | Code lengths ascend, with as many symbols of each length as the table says |
| `Huffman.NextCode` | components/gui/GUI/JPEG/jdhuff.c:193-211 | The code of the next symbol is one more than the code before, with zeros behind it when it is longer |
| `HuffTables.FirstCode` | components/gui/GUI/JPEG/jdhuff.c:193-195 | The first code is zeros |
| `Huffman.LegalIff` | components/gui/GUI/JPEG/jdhuff.c:180-211 | A table is a code with the all-ones string left free exactly when it has at most 256 symbols and its codes take up less than the 65536 words of 16 bits |
| `Huffman.NextInverts` | components/gui/GUI/JPEG/jdhuff.c:397-433 | Data that starts with the code of a symbol decodes to that symbol with exactly its length |
| `Huffman.NextFails` | components/gui/GUI/JPEG/jdhuff.c:414-430 | Data that starts with no code stops at length 17 with symbol 0 |
| `Huffman.SerialSound` | components/gui/GUI/JPEG/jdhuff.c:397-433 | Whatever symbol is decoded has its code at the front of the data |
| `Huffman.LookAgrees` | components/gui/GUI/JPEG/jdhuff.c:237-251 | An entry of the lookahead table is the bit-serial answer, and an empty entry means the bit-serial decoder reaches 9 bits |
| `HuffTables.MakeDerived` | components/gui/GUI/JPEG/jdhuff.c:148-266 | A table is accepted exactly when it has at most 256 symbols, its codes take up less than all 16-bit words, and for DC it holds only symbols up to 15; then all derived tables are right |
| `HuffTables.MakeSizes` | components/gui/GUI/JPEG/jdhuff.c:180-191 | Code lengths of Figure C.1, or rejection exactly when there are more than 256 symbols |
| `HuffTables.MakeCodes` | components/gui/GUI/JPEG/jdhuff.c:193-211 | Codes of Figure C.2, or rejection exactly when the counts are no code |
| `HuffTables.MakeLimits` | components/gui/GUI/JPEG/jdhuff.c:213-228 | maxcode and valoffset of Figure F.15 with the sentinel |
| `HuffTables.MakeLookahead` | components/gui/GUI/JPEG/jdhuff.c:237-251 | An entry is filled exactly when a code of at most 8 bits starts the byte, with its length and symbol |
| `BitReader.Unstuff` | components/gui/GUI/JPEG/jdhuff.c:317-354 | Reading stuffed bytes up to a marker gives the data bits back, then the marker |
| `BitReader.FillKeeps` | components/gui/GUI/JPEG/jdhuff.c:291-389 | A fill leaves the bits to come unchanged, provides the bits asked for, keeps bits_left in 0..32, and never suspends once a marker is ahead |
| `BitReader.FillExact` | components/gui/GUI/JPEG/jdhuff.c:291-389 | A fill suspends exactly when no marker is ahead and fewer than 25 bits are there; it sets insufficient_data exactly when a marker is ahead and fewer bits than asked for, and a marker it meets is the first one of the data |
| `BitReader.GetSpent` | components/gui/GUI/JPEG/jdhuff.h:119-137 | CHECK_BIT_BUFFER and GET_BITS set insufficient_data exactly when more bits are taken than the segment has, and wait only when no marker is ahead and fewer than 25 bits are there |
| `BitReader.PeekDrop` | components/gui/GUI/JPEG/jdhuff.h:136-143 | PEEK_BITS is the value of the next bits and DROP_BITS removes exactly those |
| `BitReader.GetKeeps` | components/gui/GUI/JPEG/jdhuff.h:130-137 | CHECK_BIT_BUFFER and GET_BITS hand out the next bits of the stream, zeros past a marker |
| `BitReader.ServeStream` | components/gui/GUI/JPEG/jdhuff.c:291-389 | Any sequence of requests gets the stream bit by bit whatever the request sizes |
| `BitReader.SegmentBits` | components/gui/GUI/JPEG/jdhuff.c:291-389 | From the start of a segment these are its unstuffed data bits, then zeros |
| `BitReader.FillMore` | components/gui/GUI/JPEG/jdhuff.c:291-389 | A fill that succeeded is the same with more data behind |
| `BitReader.FillBitBuffer` | components/gui/GUI/JPEG/jdhuff.c:291-389 | The loop of jpeg_fill_bit_buffer computes Fill, a suspended call changing nothing |
| `BitReader.ReadItem` | components/gui/GUI/JPEG/jdhuff.c:310-354 | One data byte or marker: padding FFs skipped, FF 00 a data byte |
| `HuffDecode.SlowFacts` | components/gui/GUI/JPEG/jdhuff.c:414-432 | The loop stops by 17 bits, and a code found indexes a defined symbol |
| `HuffDecode.DecodeAgrees` | components/gui/GUI/JPEG/jdhuff.h:168-188 | HUFF_DECODE returns the bit-serial symbol and takes exactly its bits for every accepted table, stream and buffer fill; it sets insufficient_data exactly when the segment has fewer bits, and suspends only when no marker is ahead and fewer than 25 bits are there behind the code |
| `HuffDecode.DecodeMore` | components/gui/GUI/JPEG/jdhuff.h:168-188 | A symbol decoded stays the same with more data behind |
| `HuffDecode.JpegHuffDecode` | components/gui/GUI/JPEG/jdhuff.c:397-433 | The loop of jpeg_huff_decode computes the slow path |
| `HuffDecode.DecodeSymbol` | components/gui/GUI/JPEG/jdhuff.h:168-188 | The macro with its two paths computes Fetch |
| `McuDecode.ExtendMeans` | components/gui/GUI/JPEG/jdhuff.c:437-461 | HUFF_EXTEND of n bits is a number with n bits and either sign, negative ones having been coded one less |
| `McuDecode.McuInside` | components/gui/GUI/JPEG/jdhuff.c:540-616 | No stream makes decode_mcu store outside the 64 entries of a block of the MCU, and every value fits 16 bits |
| `McuDecode.DecodeSmall` | components/gui/GUI/JPEG/jdhuff.c:253-265 | A DC table only yields symbols up to 15, so the bits asked for stay within bounds |
| `ZigzagOrder.ZigzagNatural` | components/gui/GUI/JPEG/jutils.c:53-64 | The zigzag order names 64 different places |
| `ZigzagOrder.NaturalWalks` | components/gui/GUI/JPEG/jutils.c:53-64 | The table is the zigzag walk from corner to corner, and its extra entries all name the last place |
| `McuChunks.McuMore` | components/gui/GUI/JPEG/jdhuff.c:516-627 | A finished MCU is the same with more data; a suspended one has made the first of the assignments the finished one makes |
| `McuChunks.McuStop` | components/gui/GUI/JPEG/jdhuff.c:341-353 | When decoding suspends, unread_marker and insufficient_data are as before although they are not saved |
| `McuChunks.ApplyTwice` | components/gui/GUI/JPEG/jdhuff.c:510-513 | Making the first of the assignments again changes nothing |
| `McuChunks.ChunkedIsWhole` | components/gui/GUI/JPEG/jdhuff.c:516-627 | Under any cutting of the input, with repeated calls after each suspension, coefficients, predictions, bit state and position equal those of decoding it whole |
| `McuMeaning.McuMeans` | components/gui/GUI/JPEG/jdhuff.c:534-620 | A finished MCU is what the bits of the segment say when read code by code, and the reader ends behind the bits used, insufficient_data set exactly when there were fewer; once it is set every MCU is left alone; decoding waits only when no marker is ahead and fewer than 25 bits would be left behind the MCU |
| `Encoding.AppendedBack` | components/gui/GUI/JPEG/jdhuff.c:437-461 | HUFF_EXTEND undoes the magnitude bits of an encoder for every nonzero value |
| `McuEncode.McuRound` | components/gui/GUI/JPEG/jdhuff.c:534-620 | The bits that an encoder of section F.1.2 makes of an MCU decode to its coefficients at their places, its DC values as predictions, and a reader behind those bits; before that the decoder can only wait for data |
| `McuEncode.ScanRoundTrip` | components/gui/GUI/JPEG/jdhuff.c:516-627 | A whole scan of MCUs, encoded, packed into bytes, stuffed and with a marker behind it: every coefficient that is wanted comes back and nothing else is stored, however the data is cut |
| `McuDecoder.Decoder.DecodeMcu` | components/gui/GUI/JPEG/jdhuff.c:516-627 | The method with restart handling: suspended during coefficient decoding it leaves all saved state as it was, finished it commits bit state, position and predictions; where a restart is due it starts from zero predictions and a full interval |
| `McuDecoder.Decoder.ProcessRestart` | components/gui/GUI/JPEG/jdhuff.c:467-498 | Bits dropped at once, also when the marker reader has to wait wherever it has got to; only after the marker was found is every prediction 0, the counter the interval, and the out-of-data flag clear unless another marker is in the way |
| `McuDecoder.DecodeBlocks` | components/gui/GUI/JPEG/jdhuff.c:540-616 | The loop over the blocks computes the MCU function and makes its assignments in place |
| `McuDecoder.DecodeAc` | components/gui/GUI/JPEG/jdhuff.c:567-615 | The AC loop computes AcFrom and makes its assignments in place |
| `AcRefine.CorrectTwice` | components/gui/GUI/JPEG/jdphuff.c:567-576 | Appending the same correction bit again changes nothing and a nonzero coefficient stays nonzero, in 16-bit arithmetic |
| `AcRefine.Undo` | components/gui/GUI/JPEG/jdphuff.c:627-630 | The undo loop zeroes exactly the recorded places |
| `AcEncode.KnownStep` | components/gui/GUI/JPEG/jdphuff.c:567-576 | The correction bit turns a coefficient known to al + 1 low bits, of either sign, into the one known to al |
| `AcEncode.RefineRound` | components/gui/GUI/JPEG/jdphuff.c:490-633 | The bits that an encoder of section G.1.2.3 makes of a block turn the band without its al + 1 low bits into the band without its al low bits, leave all other coefficients, set EOBRUN to the number of blocks the end of band still covers, and leave the reader behind those bits |
| `AcEncode.ScanRoundTrip` | components/gui/GUI/JPEG/jdphuff.c:490-633 | A whole refinement scan, encoded, packed into bytes, stuffed and with a marker behind it, refines every block by one bit and changes nothing outside the band, however the data is cut |
| `AcRerun.RefineAgain` | components/gui/GUI/JPEG/jdphuff.c:490-633 | Calling the routine again on the undone block with more data gives the block, EOBRUN and position of a first call on the original block |
| `AcRerun.RefineMore` | components/gui/GUI/JPEG/jdphuff.c:490-633 | A finished call is the same with more data behind |
| `AcRerun.ChunkedIsWhole` | components/gui/GUI/JPEG/jdphuff.c:490-633 | However the data is cut and however often the routine suspends, all blocks, EOBRUN and position are those of one uncut pass |
| `AcRerun.AgainOnlyCorrects` | components/gui/GUI/JPEG/jdphuff.c:525-531 | After a suspension exactly the coefficients that were zero at entry are zero, and the others differ at most by a correction bit |
| `AcOverrun.RefineRefines` | components/gui/GUI/JPEG/jdphuff.c:561-612 | A finished call gives each coefficient of the band at most one correction bit or makes it one at the coded bit, and keeps all others; only a code whose run outlasts the zeros left in the band stores its coefficient at jpeg_natural_order[Se + 1] |
| `AcOverrun.OnlyRefinedIff` | components/gui/GUI/JPEG/jdphuff.c:584-590 | The band is refined and nothing else changed exactly when no code of the data has such a run, or the coefficient stored past the band is one that may stand there |
| `AcOverrun.OverrunExample` | components/gui/GUI/JPEG/jdphuff.c:584-590 | One data byte in a scan over the first AC coefficient changes place 8, which is outside the band |
| `AcRerun.GoEnd` | components/gui/GUI/JPEG/jdphuff.c:536-615 | Past a marker the routine never suspends |
| `AcRefiner.RefineBlock` | components/gui/GUI/JPEG/jdphuff.c:513-632 | The nested loops on the block in place compute Refine, with the undo path on suspension |
| `AcRefiner.ReadBand` | components/gui/GUI/JPEG/jdphuff.c:536-591 | The code loop with its record of newly nonzero places |
| `AcRefiner.Advance` | components/gui/GUI/JPEG/jdphuff.c:565-582 | The inner loop over nonzero and zero coefficients |
| `AcRefiner.FinishBand` | components/gui/GUI/JPEG/jdphuff.c:593-615 | The loop after the end of band |
| `AcRefiner.UndoNew` | components/gui/GUI/JPEG/jdphuff.c:627-630 | The loop computes Undo |
| `ContextPointers.MakeFunny` | components/gui/GUI/JPEG/jdmainct.c:194-234 | The loops build the plain list, the list with its last four groups swapped, and the repeated row on top |
| `ContextPointers.SetWraparound` | components/gui/GUI/JPEG/jdmainct.c:237-262 | Both lists get their last group on top and their first group below |
| `ContextPointers.WrapPlain` | components/gui/GUI/JPEG/jdmainct.c:237-262 | Applied to the plain lists this gives the normal, wrapped state |
| `ContextPointers.SetBottom` | components/gui/GUI/JPEG/jdmainct.c:277-298 | The last real row is repeated for two row groups and nothing else changes |
| `ContextRows.SameCount` | components/gui/GUI/JPEG/jdmainct.c:285-290 | Every component gives the same number of row groups in the last iMCU row |
| `ContextRows.ImageFits` | components/gui/GUI/JPEG/jdmaster.c:144-158 | With total_iMCU_rows and downsampled_height computed from any image height, all components have the same number of row groups and fill the same iMCU rows |
| `ContextRows.FilledHeld` | components/gui/GUI/JPEG/jdmainct.c:392-398 | Reading an iMCU row through the other list keeps the last two groups of the one before in place |
| `ContextRows.ProcessShows` | components/gui/GUI/JPEG/jdmainct.c:417-434 | Each of the first M-1 groups is seen between its true neighbour rows |
| `ContextRows.PostponedShows` | components/gui/GUI/JPEG/jdmainct.c:406-412 | The postponed last group is seen through the new list between its true neighbours |
| `ContextRows.BottomShows` | components/gui/GUI/JPEG/jdmainct.c:417-434 | At the bottom each remaining group is seen with the last real row repeated below |
| `ContextRows.NearRowsTrue` | components/gui/GUI/JPEG/jdmainct.c:53-59 | The rows of a group and the rows just above and below are always image rows, with edge rows repeated |
| `ContextRows.ContextIff` | components/gui/GUI/JPEG/jdmainct.c:53-59 | A group is shown between a whole row group of image rows on either side, edge rows repeated, unless it is the last one before a last iMCU row with less than a row group; then the rows below are padding rows |
| `ContextRows.FullContextIff` | components/gui/GUI/JPEG/jdmainct.c:53-59 | Every group has its whole context exactly when there is one iMCU row or the last one begins with a full row group |
| `ContextRows.ShortContext` | components/gui/GUI/JPEG/jdmainct.c:53-59 | Five sample rows in groups of two: the second row below the postponed group is padding |
| `ContextMain.Controller.ProcessData` | components/gui/GUI/JPEG/jdmainct.c:384-447 | For any M >= 2 and any pattern of missing data and short output: the groups passed on so far are groups 0, 1, 2, ... each once and in order with the rows around them right; how many a call passes on, from the postponed group to the end of the iMCU row, and when the buffer counts as used up |
| `ContextMain.Controller.RunPass` | components/gui/GUI/JPEG/jdmainct.c:384-447 | Any sequence of calls, as many of them with data and room as there are row groups: all groups of the image have been passed on, in order |
| `ContextMain.Controller.BottomLists` | components/gui/GUI/JPEG/jdmainct.c:265-299 | The row group count of the bottom and the lists of all components |
| `ContextMain.Controller.constructor` | components/gui/GUI/JPEG/jdmainct.c:306-335 | The start of a pass with context rows |
| `ColorConvert.Nearest` | components/gui/GUI/JPEG/jdcolor.c:90-104 | The red and blue table entries are the nearest integers to 1.402 Cr and 1.772 Cb, and the green offset is within 0.502 of -0.34414 Cb - 0.71414 Cr |
| `ColorConvert.RowShows` | components/gui/GUI/JPEG/jdcolor.c:119-157 | Samples 3i, 3i + 1 and 3i + 2 of a row are red, green and blue of pixel i: its luma and the offsets above, limited to 0..255 |
| `ColorConvert.BuildTables` | components/gui/GUI/JPEG/jdcolor.c:69-105 | The loop fills the four tables |
| `ColorConvert.PrepareLimit` | components/gui/GUI/JPEG/jdmaster.c:248-273 | The part of the limit table that conversion uses clamps to 0..255 |
| `ColorConvert.InTable` | components/gui/GUI/JPEG/jdcolor.c:148-153 | No pixel indexes the limit table outside that part |
| `ColorConvert.ConvertRow` | components/gui/GUI/JPEG/jdcolor.c:119-157 | The pixel loop computes the row of converted pixels |
| `MergedUpsample.BoxRow` | components/gui/GUI/JPEG/jdsample.c:238-259 | Pairwise stores give each sample twice, also for an odd width |
| `MergedUpsample.BoxGroup` | components/gui/GUI/JPEG/jdsample.c:267-293 | Both rows of the group are the box-upsampled row |
| `MergedUpsample.MergedIsTwoStep` | components/gui/GUI/JPEG/jdmerge.c:228-361 | A merged row has exactly the pixels of box upsampling followed by colour conversion, for every width |
| `MergedUpsample.MergeRow` | components/gui/GUI/JPEG/jdmerge.c:228-283 | The h2v1 loop computes the merged row |
| `MergedUpsample.MergeGroup` | components/gui/GUI/JPEG/jdmerge.c:290-361 | The h2v2 loop computes both merged rows |
| `MergedUpsample.Merged.Upsample` | components/gui/GUI/JPEG/jdmerge.c:143-190 | For any non-empty room per call the rows returned so far are the first rows of the image, each once and in order, through the spare row and at an odd height; row 2g shows the first luma row of group g, row 2g + 1 the second, pixel i with chroma samples i / 2 |
| `MergedUpsample.Separate.Upsample` | components/gui/GUI/JPEG/jdsample.c:88-141 | The plain path returns the same rows in the same order |
| `MergedUpsample.Merged.RunPass` | components/gui/GUI/JPEG/jdmerge.c:143-190 | A whole pass: with as many calls as the image has rows, and any room at each, all rows come out once and in order |
| `MergedUpsample.Separate.RunPass` | components/gui/GUI/JPEG/jdsample.c:88-141 | The same for the plain path |
| `MergedUpsample.BothPaths` | components/gui/GUI/JPEG/jdmerge.c:143-361 | Whatever room each of the two paths finds at its calls, both give the same rows, which are all rows of the image |
| `MessageQueue.StartOk` | kernel/ipc/messagequeue.cpp:84-104 | Taking a free slot keeps the invariant; a message that is too long or a full pool changes nothing |
| `MessageQueue.LinkTailOk` | kernel/ipc/messagequeue.cpp:112-127 | Linking at the tail keeps the invariant and appends the message |
| `MessageQueue.LinkHeadOk` | kernel/ipc/messagequeue.cpp:195-206 | Linking at the head keeps the invariant and prepends the message |
| `MessageQueue.TakeOk` | kernel/ipc/messagequeue.cpp:331-344 | Taking the head keeps the invariant and pops the first message |
| `MessageQueue.ReturnOk` | kernel/ipc/messagequeue.cpp:349-355 | Putting a slot back keeps the invariant |
| `MessageQueue.CopyInOk` | kernel/ipc/messagequeue.cpp:106-109 | A byte copied in outside the sections disturbs no other slot, message or caller |
| `MessageQueue.CopyOutOk` | kernel/ipc/messagequeue.cpp:346-347 | A byte copied out is a byte of the slot the receiver holds |
| `MessageQueue.Drain` | kernel/ipc/messagequeue.cpp:383-401 | A reset returns every queued slot, keeps the invariant, and leaves the callers that hold slots alone |
| `MessageQueue.RunSafe` | kernel/ipc/messagequeue.cpp:75-405 | After every run each slot is queued, free or held by one caller, entry_ is the queue length, and every queued slot holds its message |
| `MessageQueue.FreshOk` | kernel/ipc/messagequeue.cpp:42-57 | The constructed object satisfies the invariant |
| `QueueContents.StepRefines` | kernel/ipc/messagequeue.cpp:75-405 | On what the links lead to from the head, with the bytes stored there, every step of every interleaving is append, prepend, pop, clear or nothing; an appended or prepended slot starts with the message sent |
| `QueueContents.ContentsSent` | kernel/ipc/messagequeue.cpp:111-127 | Walking the links gives as many slots as entry_ says, each with its message in front |
| `QueueContents.StepByte` | kernel/ipc/messagequeue.cpp:106-109 | A byte of a slot changes only when the sender that holds the slot copies in its byte of that number |
| `QueueContents.ReceivedIsSent` | kernel/ipc/messagequeue.cpp:346-347 | A receiver gets the first bytes of its slot, as many as it asked for when that is at most msg_size_ and msg_size_ otherwise; they are bytes of the message exactly when it asked for no more than was sent |
| `QueueContents.Leftover` | kernel/ipc/messagequeue.cpp:346-347 | For any two messages: the longer one sent and received, then the shorter one; a receiver that asks for the length of the longer one gets the end of it behind the shorter one |
| `QueueObject.Queue.constructor` | kernel/ipc/messagequeue.cpp:46-57 | The loop threads every slot onto the free list |
| `QueueObject.Queue.TakeFree` | kernel/ipc/messagequeue.cpp:83-104 | The first section of send and urgent, with its error results |
| `QueueObject.Queue.AppendSlot` | kernel/ipc/messagequeue.cpp:111-127 | The last section of send is the append step |
| `QueueObject.Queue.PrependSlot` | kernel/ipc/messagequeue.cpp:194-206 | The last section of urgent is the prepend step |
| `QueueObject.Queue.TakeFirst` | kernel/ipc/messagequeue.cpp:331-344 | The first section of recv where it does not wait: empty exactly when no message is queued, otherwise the first one is taken |
| `QueueObject.Queue.PutFree` | kernel/ipc/messagequeue.cpp:349-355 | The last section of recv |
| `QueueObject.Queue.ResetQueue` | kernel/ipc/messagequeue.cpp:375-405 | The loop of control computes the reset step |

## Left out

- RbTree.Tree.Remove: tells a node in a tree from one in none; a node of another tree, which the code would take out of that one, is not modelled.
- SlabInv.FreeOk: only null and live pointers; the assertions that catch other pointers are not modelled.
- SlabHeap.SystemHeapInit: a heap whose first page is page 0 is left out, since page_free asserts an address other than null.
- McuDecoder.Decoder.ProcessRestart: the outcome of read_restart_marker, where it has got to and the marker it holds, is a parameter; jdmarker.c and resynchronisation are not modelled.
- QueueObject.Queue.TakeFirst: waiting for a message, timeouts and wake-up are left out; a receiver that finds no message makes no step.
- Tree nodes, zones and message slots are records in a map or sequence indexed by their address or number, not heap objects; headers, chunk links and page run headers that the kernel keeps inside the memory they describe are kept beside it, and linked lists of zones, chunks and page runs are sequences.
- Heap locking: heap_sem is dropped and retaken around the page allocator; the allocator is modelled for one caller at a time.
- krealloc, kcalloc, get_zeroed_pages and the memory statistics: thin layers over the core.
- Addresses are unbounded integers below 2^32 by the configuration; the subtraction of two addresses is not modelled as 32-bit arithmetic.
- RBTree max, size and the destructors: easy members beside min, and the destructor frees caller-owned nodes.
- The comment in slab.cpp that a zero-size request returns a non-null pointer: the code returns null, and the model follows the code.
- DC predictions are unbounded integers; the C int wraps only after more than 65000 blocks of extreme differences.
- decode_mcu_DC_first, decode_mcu_AC_first, decode_mcu_DC_refine and the restart handling of the progressive decoder: easier relatives of the modelled routine.
- The fancy upsamplers, int_upsample, merged_1v_upsample and the other colour conversions.
- process_data_simple_main and the two-pass crank of jdmainct.c: no context, no state machine.
- Virtual arrays, backing store and marker parsing: memory manager and I/O of the decoder.
- QueueObject.Queue.constructor: slots are numbered and have the message size; the source allocates msg_size bytes for a pool of pool_size / (msg_size_ + header) slots, so that slots can lie outside the allocation.
- Waiting lists, timeouts, priorities and scheduling of kernel/ipc, kernel/thread.cpp and kernel/timer.cpp.
- kernel/sysheap.cpp is compiled out.
- McuEncode.ScanRoundTrip, AcEncode.ScanRoundTrip: one entropy-coded segment; restart intervals are in McuDecoder.Decoder.DecodeMcu only.
- DCTs, colour quantisers, drivers, boot code, GUI and network glue.

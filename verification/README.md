# A verified model of the Hurd/L4 runtime

This project models the parts of the Hurd on L4 where a mistake would be hard to see, and proves what
they promise:

- **The task server's allocator** (`deva/malloc.c`, configured by `deva/malloc-wrap.c`): boundary tags,
  fastbins, the unsorted list, sorted bins with a binmap, and a top chunk that is replaced behind
  fenceposts. `Malloc*.dfy`.
- **The futex locks** (`hurd/mutex.h`, `hurd/rmutex.h`) as step relations over any number of threads.
  `Mutex.dfy`, `RecursiveMutex.dfy`.
- **Streaming MD5** (`libc-parts/md5.c`) against RFC 1321. `Md5Spec.dfy`, `Md5.dfy`, `Md5Vectors.dfy`.
- **Memory placement**: the boot loader's region table (`laden/loader.c`) and the page-wise ELF loader
  (`libc-parts/loader.c`). `BootRegions.dfy`, `ElfImage.dfy`.
- **Capabilities and packed encodings**: capability copying, capability addresses, the bit allocator, and
  RPC messages (`hurd/cap.h`, `hurd/addr-trans.h`, `hurd/addr.h`, `libbitarray/bit-array.h`, `hurd/rpc.h` with
  `libl4/l4/ipc.h`).
  `Capability.dfy`, `Address.dfy`, `BitArray.dfy`, `Rpc.dfy`.

`dafny verify dfyconfig.toml` checks everything.

## How the allocator is modelled

The class `MallocArena.Arena` holds what `struct malloc_state` holds: memory as a map of 32-bit words, the
fastbins, the unsorted list and bins with the fd and bk pointers that form them, the binmap, top, the last remainder
and the flag bits. Its methods read and write tags in that memory at the offsets the C code uses; no method looks at
the ghost fields to decide anything. Beside them the class keeps three ghost or bookkeeping fields: the *shape* (which
chunk starts where, how long it is and what it is used for), the *segments* that mmap has handed out, and the *views*
(the live, fast and free chunks with their sizes).

`MallocRelease.StateOk` is the invariant: what the `do_check_*` routines assert, for all chunks at once. Chunks
tile every segment; every tag, footer and `PREV_INUSE` bit agrees with the shape; no free chunk is followed by
a free chunk or by top; every free chunk is on exactly one list, the unsorted one or the bin of its size; bins
are sorted; a clear binmap bit means an empty bin; top is unique and ends its segment; the flag bits promise
what they should. The lemmas named `...State` show that each kind of change of layout, with the words it
writes, keeps this invariant and leaves every other live block's words alone (`BlocksKept`), although tags and
user data share words. The methods then only assign. `Malloc`, `Free`, `Realloc`, `Memalign` and `Store` are
proved against the map of live blocks, and `MallocClient.Session` ties any sequence of them to a plain map
from blocks to contents.

What the allocator holds apart from live blocks, the fastbins, the free chunks and top, is its *pool*
(`MallocReuse.Pool`). `NoneLost` says that everything that was in the pool is in it still, merged or not; `Exhausted`
that nothing in it can hold a request; `Rule` which chunk a request is given. Freeing and consolidating lose nothing, and
an allocation fails or maps memory only if the pool is exhausted.

A block is named by its chunk address p; the user's pointer is p + 8. What mmap answers is a parameter (`brk`,
-1 for a failure): fresh, page-aligned memory that overlaps no segment in use.

## Where code and comments differ

The model follows the code.

- `hurd/mutex.h:100-104` explains the decrement by the old value; the test is that the new value is 0.
- `hurd/addr-trans.h:50-54` speaks of 21 guard bits; the field has 22 and the check allows 22.
- `laden/loader.c:205` moves one byte more than the half-open region has (`end - start + 1`). The search keeps
  clear of other regions' end addresses too, so the extra byte never lands in one.
- `deva/malloc.c:4236-4241` rounds the alignment up in a loop that shifts in 32 bits, and accepts every size_t. For
  alignments above 2^31 it never ends: `MallocAlign.RoundingEndsIff` is the exact condition,
  `MallocAlign.RoundingIsEntered` shows that none of them is spared the loop, and `MallocAlign.RoundingNeverEnds` is
  the case of 2^31 + 1.
- `deva/malloc.c:4253` adds alignment and padding without a wrap-around check, so the promise of mEMALIGn does
  not hold for all requests. `MallocAlign.PaddedRequestHoldsBlock` gives the exact condition and
  `MallocAlign.PaddedRequestWraps` a request that breaks it.
- `deva/malloc.c:4065` asks mALLOc for nb - MALLOC_ALIGN_MASK bytes, which is out of range for the largest requests that
  rEALLOc itself accepts (`MallocArena.RetryOutOfRange`): it then fails without looking for memory.
- `laden/loader.c:196-199` calls it an overlap, and moves the region, if an established region starts where the new one
  ends, although regions are half-open: `BootRegions.ConflictsIffNear`.
- `hurd/rmutex.h:80` forgets other sleepers when a woken thread takes the lock with a count of 1.
  `RecursiveMutex.NoLostWakeUpIff` shows that wake-ups are safe for up to two threads and for no more.
- `hurd/rmutex.h:190-194` returns from trylock with the meta-lock held. `RecursiveMutex.TrylockLeaksIff` says
  exactly when, `RecursiveMutex.TrylockLeaks` is a run in which it happens, and `RecursiveMutex.LeakReachableIff` shows
  that two threads are enough and necessary.
- `libc-parts/loader.c:135-146` allocates a page that a segment fills without looking it up. If an earlier segment
  shares that page, or is empty and lies inside it, the page is allocated twice: `ElfImage.Loader.Load` says exactly
  when, and `ElfImage.SharedPageAllocatedTwice` gives both cases.
- `hurd/rpc.h:229-242` appends argument words without a limit, and `libl4/l4/ipc.h:1005-1007` counts them in six bits:
  the 64th word is lost and the count starts again at 0. A request is therefore accepted exactly up to 63 words and a
  reply up to 62 words of arguments (`Rpc.SendRoundTrip`, `Rpc.ReplyRoundTrip`). `Rpc.OversizedRequest` and
  `Rpc.OversizedReply` are the cases of one word too many; in the latter the caller takes the first word of its own
  request for the error code. Method ids that do not fit the 16-bit label are refused as well.
- `hurd/addr.h:65` shifts the int 1 by 63 - depth to assert that the bits behind the prefix are clear, which is undefined
  for depths below 32. The model leaves that assertion out; the one on line 66 is `Address.InRange`.

## Model

| member | source | states |
|---|---|---|
| `MallocSizes.Request2SizeIsLeast` | deva/malloc.c:1974-1991 | the padded size is the least aligned size of at least MINSIZE with room for the request and its header, and the range check refuses only requests that bring it within 2 * MINSIZE of 2^32 and keeps the others more than MINSIZE away |
| `MallocSizes.RetryRequestsSameSize` | deva/malloc.c:2900-2904 | asking again for nb - MALLOC_ALIGN_MASK bytes pads to nb again, for every padded size |
| `MallocSizes.BranchFreeLog2Correct` | deva/malloc.c:2171-2204 | the branch-free shifting computes the exact logarithm of every nonzero 16-bit value |
| `MallocSizes.LargebinGroup` | deva/malloc.c:2171-2204 | a large bin index is four per power of two plus the quarter the size falls in |
| `MallocSizes.BinIndexRange` | deva/malloc.c:2162-2208 | every chunk size has a bin from 2 to 95, a small one exactly below MIN_LARGE_SIZE |
| `MallocSizes.BinIndexMonotone` | deva/malloc.c:2162-2208 | bin indices never decrease with size, across the small, large and last bins |
| `MallocShape.ChunksTileSegments` | deva/malloc.c:2551-2593 | every byte of a segment lies in exactly one chunk, and no chunk leaves its segment |
| `MallocTags.FreeHasInusePredecessor` | deva/malloc.c:2601-2631 | a free chunk, and top, always follow a chunk in use |
| `MallocTags.PreviousChunk` | deva/malloc.c:2003-2050 | a clear PREV_INUSE bit and prev_size lead back to the free chunk that ends here |
| `MallocTags.LocalWritesSpareBlocks` | deva/malloc.c:2051-2065 | tag writes inside a span of chunks change no word a user of another block may use, although tags overlay user words |
| `MallocTags.FuseTags` | deva/malloc.c:3771-3822 | the words written when neighbouring chunks are merged leave all tags, footers and in-use bits consistent |
| `MallocTags.SplitTags` | deva/malloc.c:3576-3585 | the words written when a chunk is split leave all tags, footers and in-use bits consistent |
| `MallocTags.FenceTags` | deva/malloc.c:3211-3249 | shrinking the old top and writing two fenceposts leaves all tags consistent, for old tops of 16, 24 and more bytes |
| `MallocTags.UserWritesTags` | deva/malloc.c:1845-1935 | stores into any usable word of a live block, the one that overlays the next chunk's prev_size included, disturb no tag |
| `MallocLists.OnExactlyOneList` | deva/malloc.c:2784-2822 | every free chunk is on one list and on no other |
| `MallocLists.UnlinkKeeps` | deva/malloc.c:2132-2137 | unlinking a chunk keeps all lists duplicate-free, complete and sorted for the remaining chunks |
| `MallocLists.PopIsUnlink` | deva/malloc.c:3644-3648 | taking the last chunk off a list is the same as unlinking it |
| `MallocLists.InsertKeeps` | deva/malloc.c:3513-3548 | inserting a chunk at a place that fits its size keeps every bin sorted and every chunk on one list |
| `MallocLists.MarkBinKeeps` | deva/malloc.c:2286-2288 | or-ing in the bit of a bin keeps "clear bit means empty bin" for all 96 bins |
| `MallocLists.ClearBinKeeps` | deva/malloc.c:3633-3637 | clearing the bit of an empty bin keeps it, too |
| `MallocLists.FastPushKeeps` | deva/malloc.c:3755-3758 | every fast chunk is in the fastbin of its size exactly once after a push |
| `MallocLists.FastDrained` | deva/malloc.c:3922-3972 | emptying the fastbins up to that of max_fast leaves no fast chunk anywhere |
| `MallocRelease.NeighboursFromTags` | deva/malloc.c:3765-3787 | the tags of a live block lead to its true neighbours and tell whether each is free |
| `MallocRelease.ReleaseListState` | deva/malloc.c:3771-3808 | merging a block with its free neighbours onto the unsorted list keeps the whole invariant and every other block's words |
| `MallocRelease.ReleaseTopState` | deva/malloc.c:3771-3820 | merging a block, and a free chunk before it, into top keeps the whole invariant and every other block's words |
| `MallocTake.TakeWholeState` | deva/malloc.c:3570-3574 | handing out a whole free chunk keeps the whole invariant and every block's words |
| `MallocTake.TakeFrontState` | deva/malloc.c:3576-3585 | splitting a free chunk keeps the whole invariant; the remainder may overwrite the unsorted list because that list is then empty |
| `MallocTake.TakeTopState` | deva/malloc.c:3690-3699 | cutting a block off top keeps the whole invariant and leaves top at least MINSIZE bytes |
| `MallocTake.FastTakeState` | deva/malloc.c:3413-3418 | taking the head of a fastbin keeps the whole invariant without touching a tag |
| `MallocTake.FastPutState` | deva/malloc.c:3755-3758 | putting a block on its fastbin keeps the whole invariant without touching a tag |
| `MallocResize.NewSegmentState` | deva/malloc.c:3052-3075 | a new segment with fenceposts over the old top keeps the whole invariant and every block's words |
| `MallocResize.CutLiveState` | deva/malloc.c:4130-4136 | cutting a live block in two keeps the whole invariant and the words of the front part |
| `MallocResize.AbsorbNextState` | deva/malloc.c:4054-4061 | a block that takes in the chunk behind it keeps the whole invariant and its own words |
| `MallocResize.GrowTopState` | deva/malloc.c:4044-4052 | a block that grows into top keeps the whole invariant and its own words |
| `MallocResize.CopyWords` | deva/malloc.c:4084-4111 | the unrolled and the looping copy both copy all words, for the odd counts that chunk sizes give, and write nothing else |
| `MallocSearch.FindPlace` | deva/malloc.c:3513-3541 | the place found for a chunk in its bin keeps the bin sorted, though the compared tags carry PREV_INUSE; in a large bin it is behind all chunks if none is smaller, and otherwise in front of those of the same size |
| `MallocSearch.NextBin` | deva/malloc.c:3599-3640 | the binmap scan terminates and finds the lowest non-empty bin above a given one if there is one, clearing only bits of empty bins |
| `MallocSearch.LastFit` | deva/malloc.c:3559-3567 | scanning a bin from its end finds its smallest chunk that fits, the last one of that size |
| `MallocSearch.Choose` | deva/malloc.c:3559-3672 | best fit: no free chunk that fits is smaller than the one chosen, which is the last that fits in its bin, and none is chosen only if no free chunk fits |
| `MallocSearch.OwnBinFitsBest` | deva/malloc.c:3559-3567 | the smallest fitting chunk of the request's own bin beats every chunk of every bin |
| `MallocSearch.HigherBinFitsBest` | deva/malloc.c:3588-3645 | otherwise the last chunk of the lowest non-empty higher bin does |
| `MallocConserve.Conservation` | deva/malloc.c:3075-3249 | live, fast, listed and top bytes plus fencepost waste are exactly the mapped bytes |
| `MallocConserve.ChunksFillSegments` | deva/malloc.c:2551-2593 | the chunk sizes of any well-formed layout add up to the segment sizes |
| `MallocArena.BytesAccounted` | deva/malloc.c:3075 | in every valid arena that sum is sbrked_mem |
| `MallocReuse.ReleaseToListLosesNothing` | deva/malloc.c:3779-3804 | merging a block with its free neighbours loses no free chunk, and its bytes are in the merged one |
| `MallocReuse.ReleaseToTopLosesNothing` | deva/malloc.c:3814-3818 | the same for merging into top, which keeps its end |
| `MallocReuse.NewTopLosesNothing` | deva/malloc.c:3065-3249 | the free and fast chunks survive a change of top |
| `MallocReuse.NoneLostTrans` | deva/malloc.c:3905-3977 | losing nothing composes, so that it holds for whole consolidations |
| `MallocReuse.ExhaustedBefore` | deva/malloc.c:2895-2904 | if nothing was lost and nothing fits a request now, nothing did before |
| `MallocReuse.ChosenFits` | deva/malloc.c:3469-3672 | whatever the rule chooses is a free chunk that holds the request |
| `MallocAlign.RoundedIsLeastPower` | deva/malloc.c:4228-4241 | the alignment used is the least power of two that is at least MINSIZE and the alignment asked for |
| `MallocAlign.RoundingEndsIff` | deva/malloc.c:4236-4241 | in 32-bit arithmetic the loop reaches a value of at least the alignment if and only if the alignment is at most 2^31 |
| `MallocAlign.RoundingIsEntered` | deva/malloc.c:4236 | every alignment above 2^31 enters the loop |
| `MallocAlign.RoundingNeverEnds` | deva/malloc.c:4236-4241 | for 2^31 + 1 the loop is entered and no value it computes ends it |
| `MallocAlign.RoundAlignment` | deva/malloc.c:4230-4241 | for every 32-bit alignment: endless exactly above 2^31, otherwise the rounded alignment |
| `MallocAlign.AlignedSpotFits` | deva/malloc.c:4262-4275 | the masked address is aligned, at least MINSIZE above the block, and at most alignment + 8 |
| `MallocAlign.PaddedRequestHoldsBlock` | deva/malloc.c:4243-4253 | the block obtained can hold nb bytes if and only if nb + alignment + MINSIZE does not wrap |
| `MallocAlign.PaddedRequestWraps` | deva/malloc.c:4253 | for 2^31 bytes aligned to 2^31 the request wraps and asks for a 32-byte chunk |
| `MallocArena.SegmentSizeFits` | deva/malloc.c:3000-3053 | a segment size that passes the wrap-around test is the least number of pages with room for the request and MINSIZE bytes and for MMAP_AS_MORECORE_SIZE |
| `MallocArena.Arena.constructor` | deva/malloc.c:2397-2459 | the zero-initialized state satisfies the invariant and holds no blocks |
| `MallocArena.Arena.InitState` | deva/malloc.c:2471-2502 | initialization keeps the invariant |
| `MallocArena.Arena.Release` | deva/malloc.c:3762-3822 | a block given back ends up, from its start to its end, inside one free chunk of the returned size, or in top; nothing free is lost; every other block keeps its words |
| `MallocArena.Arena.Consolidate` | deva/malloc.c:3905-3977 | terminates, empties every fastbin, loses nothing free, keeps the invariant (so nothing free is adjacent) and every live block |
| `MallocArena.Arena.Free` | deva/malloc.c:3715-3849 | removes exactly the freed block, keeps the invariant and every other block's words; the block can be handed out again and nothing free is lost; a small block becomes the head of the fastbin of its size and nothing else changes |
| `MallocArena.Arena.FreeLarge` | deva/malloc.c:3762-3849 | the fastbins are consolidated exactly if the chunk the block ends up in has 128 KiB or more; nothing free is lost |
| `MallocArena.Arena.TakeFast` | deva/malloc.c:3412-3419 | the head of the fastbin is handed out, and no other |
| `MallocArena.Arena.FreeThenMalloc` | deva/malloc.c:3744-3758 | fastbins are last-in first-out: a small block that is freed is what the next request for its size gets, with all words, blocks and fastbins as before |
| `MallocArena.Arena.SortUnsorted` | deva/malloc.c:3469-3549 | the pass over the unsorted list takes the last exact fit whatever the size, or splits the last remainder for a small request if there is none and it heads the list, or leaves the list empty with every chunk in its bin; what is split off stays free |
| `MallocArena.Arena.TakeBest` | deva/malloc.c:3559-3672 | what is served from the bins is the best fit, what is split off stays free as the only unsorted chunk and, for small requests, the last remainder; if nothing is served, no free chunk fits |
| `MallocArena.Arena.UseTop` | deva/malloc.c:3674-3708 | serves from top whenever it has nb + MINSIZE bytes, otherwise from the system; if no free chunk fits, memory is mapped, or the request fails, only if no fast chunk fits either |
| `MallocArena.Arena.Search` | deva/malloc.c:3469-3708 | if a free chunk fits one is handed out: the last exact fit of the unsorted list, else the last remainder under its conditions, else the best fit; otherwise top serves if it can; memory is mapped, or the request fails, only if the whole pool is exhausted |
| `MallocArena.Arena.Malloc` | deva/malloc.c:3362-3709 | a new block of at least the padded size and less than MINSIZE more, no other block touched; it comes from the fastbin of its size, else is what the rule says; memory is mapped, or the request fails, only if no free, fast or top chunk can hold it; it fails only if it is out of range, mmap fails, or the segment size wraps; the retry happens at most once |
| `MallocArena.Arena.MallocBinned` | deva/malloc.c:3427-3708 | the rule behind the fastbins: the last chunk of the small bin, else as Search, for a large request after consolidation |
| `MallocArena.Arena.Sysmalloc` | deva/malloc.c:2865-3284 | the same for the system path, with the assertions of lines 2901 and 2994 proved; exactly the segment asked for is mapped; after a successful mmap the allocation always succeeds |
| `MallocArena.Arena.NewSegment` | deva/malloc.c:3065-3249 | the new top has the whole segment, no live block changes, nothing free is lost, and the old top can be handed out but for the fenceposts |
| `MallocArena.Arena.MapSegment` | deva/malloc.c:3065-3236 | sbrked_mem grows by the segment's size, and what is left of the old top between the fenceposts is a block that can be freed |
| `MallocArena.LiveBlocksApart` | deva/malloc.c:2706-2732 | live blocks never overlap |
| `MallocArena.Arena.Trim` | deva/malloc.c:4120-4137 | gives back the end of a block, which can be handed out again, if it is a chunk of its own, keeping the rest |
| `MallocArena.Arena.Absorb` | deva/malloc.c:4054-4080 | a block grows by exactly the chunk behind it |
| `MallocArena.Arena.GrowIntoTop` | deva/malloc.c:4044-4052 | a block that borders top grows to exactly nb bytes |
| `MallocArena.Arena.Relocate` | deva/malloc.c:4063-4116 | the allocate, copy, free path keeps all old words, also when the new block is the one behind the old; the old block can be handed out again |
| `MallocArena.Arena.Realloc` | deva/malloc.c:3986-4140 | on every path the first min(old, new) usable words are kept, every other block is untouched, and a failure changes nothing; it fails, or maps memory, only if the pool is exhausted or the retry is out of range |
| `MallocArena.Arena.Resize` | deva/malloc.c:4026-4140 | a block that is long enough, or that top or a free chunk behind it can make so, is resized in place without new memory; what is given up can be handed out again |
| `MallocArena.Arena.Memalign` | deva/malloc.c:4212-4309 | for every 32-bit alignment and every request: endless exactly for alignments above 2^31; a block returned is aligned to the rounded alignment, touches no other block, and holds nb bytes if and only if the padded request did not wrap; tags are written behind the block, or for less than a chunk, only if it wrapped; null only for a request out of range, or if the pool is exhausted and mmap fails or the segment size wraps |
| `MallocArena.PaddedBlock` | deva/malloc.c:4253-4275 | a block for the padded request has room for nb bytes behind any aligned spot, and after a wrap not even nb bytes |
| `MallocArena.Arena.AlignBlock` | deva/malloc.c:4257-4308 | with enough room the result is aligned and has at least nb bytes, whatever the position of the block; what lies in front and behind can be handed out again |
| `MallocArena.Arena.CutLead` | deva/malloc.c:4260-4293 | the leading piece is a chunk of at least MINSIZE and is freed to be handed out again; the rest starts aligned and keeps every other byte of the block |
| `MallocArena.Arena.CutTail` | deva/malloc.c:4296-4306 | exactly a block of more than nb + MINSIZE bytes is cut to nb, and the rest can be handed out again |
| `MallocArena.Arena.Store` | deva/malloc.c:1845-1935 | a user store keeps the invariant and changes no other block |
| `MallocClient.Perform` | deva/malloc.c:3362-4309 | one operation of a program has exactly its effect on a map from blocks to contents |
| `MallocClient.Session` | deva/malloc.c:3362-4309 | after any sequence of operations, everything stored and neither overwritten nor given back is still there, in aligned blocks that do not overlap |
| `MallocClient.ResizeAgrees` | deva/malloc.c:4033-4140 | realloc moves the stored words that fit |
| `MallocResize.LinkWritesState` | deva/malloc.c:1845-1935 | writing the fd and bk words of a free or fast chunk disturbs no tag and no word of a live block |
| `MallocLinks.UnlinkRing` | deva/malloc.c:2132-2137 | the two pointer writes of unlink remove exactly one node from a circular doubly linked list |
| `MallocLinks.LinkRing` | deva/malloc.c:3544-3547 | the four pointer writes insert a node at exactly one place |
| `MallocLinks.EmptyLinks` | deva/malloc.c:2479-2483 | headers that point at themselves are empty lists |
| `MallocLinks.EndsOfList` | deva/malloc.c:2128-2129 | fd and bk of the header are the first and last chunk, or the header if there is none |
| `MallocLinks.UnlinkLists` | deva/malloc.c:2132-2137 | unlink on the pointers is removal from the lists, and no other list notices |
| `MallocLinks.InsertLists` | deva/malloc.c:3544-3547 | linking between neighbours is insertion into the lists |
| `MallocLinks.PushLists` | deva/malloc.c:3795-3801 | freed chunks go to the front of the unsorted list |
| `MallocLinks.ReplaceLists` | deva/malloc.c:3489-3492 | overwriting the header of a list of at most one chunk drops no other chunk |
| `MallocLinks.ReleaseLists` | deva/malloc.c:3771-3801 | unlinking both neighbours and pushing the merged chunk does to the pointers what it does to the lists |
| `MallocLinks.CutLists` | deva/malloc.c:3568-3581 | unlinking a chunk and making its remainder the unsorted list does so, too |
| `MallocLinks.BinLists` | deva/malloc.c:3502-3547 | so does moving a chunk from the unsorted list to its bin |
| `Mutex.StepKeepsInv` | hurd/mutex.h:54-138 | every atomic step keeps: at most one owner, word in {0, 1, 2} and nonzero exactly if there is an owner, and a wake-up due for every sleeper |
| `Mutex.RunsKeepInv` | hurd/mutex.h:54-138 | mutual exclusion and no lost wake-up in every state of every run of any number of threads mixing lock, trylock and unlock |
| `Mutex.StoreErasesNoAcquisition` | hurd/mutex.h:104-109 | the plain store of 0 never erases another thread's acquisition |
| `Mutex.TrySucceedsIfFree` | hurd/mutex.h:122-138 | trylock succeeds exactly if nobody holds the lock or is still releasing it |
| `Mutex.QuietDescends` | hurd/mutex.h:54-112 | without new calls and spurious wake-ups every step decreases a bound |
| `Mutex.QuietRunsEnd` | hurd/mutex.h:54-112 | so every such run ends |
| `Mutex.StopsOnlyWhenAllIdle` | hurd/mutex.h:54-112 | and it ends only with every thread idle and the word 0: nobody sleeps for ever |
| `Mutex.StepsOfCalls` | hurd/mutex.h:54-138 | a thread in lock stays there until it takes the free lock; trylock takes it or returns according to the word; nobody else takes the lock from its holder |
| `Mutex.LockReturnsHolding` | hurd/mutex.h:54-85 | in every run, between a call of lock and its return the thread got the lock, while it was free, and was its only owner |
| `Mutex.TryReturns` | hurd/mutex.h:122-138 | in every run trylock returns holding the lock, or another thread owned it when it was tried |
| `Mutex.EveryLockServed` | hurd/mutex.h:54-112 | when a run can only go on by new calls and spurious returns, every call of lock has had the lock |
| `Mutex.AloneNeedsNoFutex` | hurd/mutex.h:54-112 | a thread alone never enters the kernel |
| `RecursiveMutex.StepKeepsInv` | hurd/rmutex.h:51-199 | every step of lock, unlock and trylock keeps owner, count and nesting depth consistent, also between the two writes that change owner and count |
| `RecursiveMutex.SafeWheneverMetaFree` | hurd/rmutex.h:51-199 | whenever the meta-lock is free the owner is nil exactly if count is 0, and the absolute value of count is the owner's nesting depth |
| `RecursiveMutex.MutualExclusion` | hurd/rmutex.h:51-199 | at most one thread holds the lock and at most one is inside the meta-lock |
| `RecursiveMutex.AssertionsHold` | hurd/rmutex.h:60-120 | the assertions in the code never fail |
| `RecursiveMutex.DepthCountsCalls` | hurd/rmutex.h:51-199 | in every run the depth of a thread is the number of its lock and successful trylock calls that have returned, less its unlock calls, with the call under way accounted for |
| `RecursiveMutex.LockNests` | hurd/rmutex.h:51-199 | a thread outside owns the lock exactly if its calls have locked it more often than unlocked it, and count is that difference up to its sign |
| `RecursiveMutex.ReturnsOwning` | hurd/rmutex.h:51-199 | lock and a successful trylock return only to the owner; trylock fails only while the meta-lock is taken or another thread owns the lock |
| `RecursiveMutex.LockReturns` | hurd/rmutex.h:58-80 | a thread that finds the meta-lock free, and the lock free or its own, gets it, one level deeper, by its own steps; trylock then succeeds |
| `RecursiveMutex.AloneNeedsNoFutex` | hurd/rmutex.h:51-140 | a thread alone never waits or wakes |
| `RecursiveMutex.TrylockLeaksIff` | hurd/rmutex.h:158-194 | a trylock that got the meta-lock keeps it if and only if another thread owns the lock |
| `RecursiveMutex.TrylockLeaks` | hurd/rmutex.h:158-194 | for every n >= 2 a run in which thread 1 returns from trylock with the meta-lock |
| `RecursiveMutex.LeakReachableIff` | hurd/rmutex.h:150-194 | a leak is reachable if and only if there are at least two threads |
| `RecursiveMutex.LeakIsForever` | hurd/rmutex.h:51-194 | after a leak, in every state of every further run, no thread is inside the meta-lock and whoever wants it is blocked and stays so |
| `RecursiveMutex.TwoThreadRunsWake` | hurd/rmutex.h:51-140 | with at most two threads using lock and unlock, a sleeper implies a negative count or a wake-up under way |
| `RecursiveMutex.ThreeThreadsLose` | hurd/rmutex.h:80-140 | for every n >= 3 a run of lock and unlock that leaves a sleeper nobody will wake |
| `RecursiveMutex.NoLostWakeUpIff` | hurd/rmutex.h:51-140 | no wake-up is ever lost if and only if there are at most two threads |
| `Md5Functions.FF` | libc-parts/md5.c:298 | the exclusive-or form chooses bits as the F of RFC 1321 does |
| `Md5Functions.FG` | libc-parts/md5.c:299 | FF with its arguments rotated is the G of RFC 1321 |
| `Md5.CodeStep` | libc-parts/md5.c:345-394 | an OP line computes the step of RFC 1321, section 3.4 |
| `Md5.Round1` | libc-parts/md5.c:365-381 | the sixteen unrolled lines of round 1 are steps 1 to 16 of the standard |
| `Md5.Round2` | libc-parts/md5.c:396-412 | the same for steps 17 to 32 |
| `Md5.Round3` | libc-parts/md5.c:414-430 | the same for steps 33 to 48 |
| `Md5.Round4` | libc-parts/md5.c:432-448 | the same for steps 49 to 64 |
| `Md5.CompressBlock` | libc-parts/md5.c:330-455 | one pass of the loop is the standard's treatment of one block |
| `Md5.Carry` | libc-parts/md5.c:321-326 | the double-word increment counts modulo 2^64 |
| `Md5.LengthField` | libc-parts/md5.c:128-130 | the two words stored are the bit count modulo 2^64, low-order byte first |
| `Md5.PaddingBuilt` | libc-parts/md5.c:116-130 | the padding built from fillbuf is that of sections 3.1 and 3.2 |
| `Md5.Context.constructor` | libc-parts/md5.c:75-86 | a fresh context has seen nothing |
| `Md5.Context.ProcessBlock` | libc-parts/md5.c:307-462 | whole blocks are absorbed in order and counted |
| `Md5.Context.ProcessBytes` | libc-parts/md5.c:220-291 | on every copy path, aligned or not, the context stands for the old bytes followed by the new ones; buflen stays at most 64 and no copy overruns the 128-byte buffer |
| `Md5.Context.Finish` | libc-parts/md5.c:111-136 | the result is the RFC 1321 digest of everything seen |
| `Md5.DigestOfChunks` | libc-parts/md5.c:75-291 | any split of a message into calls, at any addresses, gives the digest of the message |
| `Md5.DigestOfBuffer` | libc-parts/md5.c:201-217 | md5_buffer computes the digest of its argument |
| `Md5Spec.AbsorbConcat` | libc-parts/md5.c:328-455 | blocks absorbed in two calls are the blocks absorbed in one |
| `Md5Spec.WordIsSum` | libc-parts/md5.c:334-355 | a word is the number its bytes spell in base 256, the low-order byte first |
| `Md5Spec.WordReadsBack` | libc-parts/md5.c:88-103 | the four bytes written for a word are read back as it |
| `Md5Vectors.DigestOfEmpty` | libc-parts/md5.c:201-217 | the digest of the empty message is the one section A.5 of RFC 1321 lists |
| `Md5Vectors.DigestOfAbc` | libc-parts/md5.c:201-217 | the same for the message abc |
| `BootRegions.FindPlace` | laden/loader.c:237-266 | the search with restarts terminates and finds the lowest free candidate (the descriptor's start or a page boundary) if there is one |
| `BootRegions.ConflictsIffNear` | laden/loader.c:196-199 | a region conflicts with the new one exactly if they overlap or it starts where the new one ends |
| `BootRegions.KeptMore` | laden/loader.c:276-283 | moving a region to a free place, the extra byte included, keeps the bytes of that region and of all others |
| `BootRegions.Loader.Slot` | laden/loader.c:169-182 | a free descriptor is found unless all 16 are in use |
| `BootRegions.Loader.Relocate` | laden/loader.c:203-294 | fails exactly if no usable descriptor has a free candidate; otherwise the region is moved with its bytes to the lowest candidate of the first descriptor that has one |
| `BootRegions.Loader.MakeRoom` | laden/loader.c:192-295 | panics exactly if a region that conflicts is not movable or has nowhere to go when its turn comes; otherwise all used regions are disjoint, every old one has its bytes, and one that does not conflict is not moved |
| `BootRegions.Loader.AddRegion` | laden/loader.c:156-296 | panics exactly for an empty region, a failed memory check, a full table, or a conflicting region that is stuck; otherwise all used regions are disjoint, only conflicting ones are moved, each into one conventional descriptor with its bytes kept, and the bytes under the new one are unchanged |
| `BootRegions.Loader.RemoveRegion` | laden/loader.c:300-316 | exactly the regions of that name become unused; panics exactly if there is none |
| `ElfImage.ByteOfSegment` | libc-parts/loader.c:99-153 | the image described by disjoint segments does not depend on their order |
| `ElfImage.DisjointAllocsFresh` | libc-parts/loader.c:133-146 | disjoint segments, in any order, never make the code allocate a page twice |
| `ElfImage.SharedPageAllocatedTwice` | libc-parts/loader.c:133-146 | an overlapping or an empty segment before one that fills the page makes it do so |
| `ElfImage.Loader.FillPage` | libc-parts/loader.c:119-151 | alloc is called for an existing page exactly if the page is filled and an earlier segment touches it; otherwise the page is completed |
| `ElfImage.Loader.LoadSegment` | libc-parts/loader.c:104-153 | for every segment, empty ones included: stops exactly if it fills a page that an earlier one touches, and otherwise completes the image by exactly that segment |
| `ElfImage.Loader.Load` | libc-parts/loader.c:98-154 | for any segments, empty and overlapping ones included: a page is allocated twice exactly if some segment fills a page that an earlier one touches; otherwise the pages allocated are exactly those a loadable segment touches, and hold file bytes in file ranges, the later ones where they overlap, and zero elsewhere |
| `AddrTrans.SetReadsBack` | hurd/addr-trans.h:118-150 | every guard, depth and subpage that passes the checks is read back by the accessors, and the guard is stored above the subpage |
| `AddrTrans.WindowInPage` | hurd/addr-trans.h:74-99 | a valid subpage designates a non-empty window of the 256 slots, the one of its offset and size |
| `Capability.TypesLattice` | hurd/cap.h:84-170 | types are compatible exactly if they have the same strong type, which is if they are equal or share a right; weakening and strengthening are idempotent and undo each other |
| `Capability.WeakenIsGreatestWeak` | hurd/cap.h:109-142 | the weakened type is void or weak, permits nothing new and no change, is the strongest such type, and is a weak type itself |
| `Capability.StrengthenIsLeastStrong` | hurd/cap.h:146-165 | the strong type is the weakest of the other types that permits as much |
| `Capability.Slot.CopyX` | hurd/cap.h:573-718 | a copy is made exactly if it narrows and its guard fits; it has the source's object, the chosen guard and policy, and the source's or the narrower window; a refused copy leaves the target unchanged |
| `Capability.ChainNeverGains` | hurd/cap.h:579-719 | along any chain of copies the window stays inside the original's and the rights of the type among the original's |
| `BitArray.CheckByteIsLowest` | libbitarray/bit-array.h:63-83 | the nibble table finds the lowest clear bit of a byte |
| `BitArray.BitAlloc` | libbitarray/bit-array.h:60-129 | the first clear bit in cyclic order from start is set and no other, and -1 is returned exactly if every bit is set |
| `BitArray.BitSet` | libbitarray/bit-array.h:30-41 | sets one bit and tells whether it was clear |
| `BitArray.BitSetTo` | libbitarray/bit-array.h:45-55 | sets or clears one bit and no other |
| `BitArray.BitDealloc` | libbitarray/bit-array.h:132-138 | clears one bit and no other |
| `BitArray.BitTest` | libbitarray/bit-array.h:141-144 | tells whether the bit is set |
| `BitArray.Run` | libbitarray/bit-array.h:30-144 | any run of allocations and deallocations behaves like a set of indices: each allocation returns the first index in cyclic order from its start that is not in the set, or fails with all of them in it |
| `Address.AddrOfPath` | hurd/addr.h:60-96 | depth and prefix invert ADDR |
| `Address.AddrRoundTrip` | hurd/addr.h:60-96 | ADDR inverts depth and prefix |
| `Address.ExtendThenChop` | hurd/addr.h:110-143 | chopping and extracting after an extend give back address and suffix |
| `Address.ChopThenExtend` | hurd/addr.h:110-143 | extending the chopped address by what was extracted rebuilds it |
| `Address.AddIsPath` | hurd/addr.h:160-167 | for every count, the sum passes ADDR's range assertion exactly if the path moved by count, modulo twice the number of paths of that depth, is a path; and then it is that path's address |
| `Address.AddThenSub` | hurd/addr.h:160-173 | for every 64-bit count whose sum passes ADDR's range assertion, subtracting passes it too and gives back the address |
| `Address.SubThenAdd` | hurd/addr.h:160-173 | the same for adding after subtracting |
| `Rpc.LoadArg` | hurd/rpc.h:229-242 | for an argument of any size: the count grows by its words modulo 64, nothing behind the message is written, and if the words fit the 63 slots they hold the argument's bytes and earlier words stay |
| `Rpc.SendMarshal` | hurd/rpc.h:348-363 | the label is the low 16 bits of the id, the count that of the words modulo 64, and arguments that fit are held in order |
| `Rpc.SendUnmarshal` | hurd/rpc.h:366-394 | succeeds exactly for the right method id and number of words |
| `Rpc.ReplyMarshal` | hurd/rpc.h:397-415 | the same for a reply, which holds a zero word and then the arguments |
| `Rpc.ReplyUnmarshal` | hurd/rpc.h:418-440 | yields the error word, and is malformed exactly for a success with the wrong number of words |
| `Rpc.SendRoundTrip` | hurd/rpc.h:229-394 | for any arguments, id and buffers: a marshalled and transferred request is accepted if and only if its words are at most 63 and its id has 16 bits; then every argument is restored, otherwise the error is EINVAL |
| `Rpc.ReplyRoundTrip` | hurd/rpc.h:397-440 | a reply is a success if and only if its argument words are at most 62, and then every argument is restored |
| `Rpc.OversizedRequest` | libl4/l4/ipc.h:988-1008 | a 256-byte argument leaves a count of 0 and is refused |
| `Rpc.OversizedReply` | libl4/l4/ipc.h:988-1008 | of a reply with a 252-byte argument no word is carried over: the error is what the caller's buffer held, and EINVAL exactly if that is 0 |
| `Rpc.ErrorRoundTrip` | hurd/rpc.h:732-738 | a nonzero error reply yields that error |
| `Rpc.Call` | hurd/rpc.h:649-672 | over any pattern of interruptions the request is delivered at most once, and a reply is taken only after it was delivered |

## Left out

- Direct mmap of single chunks (`deva/malloc.c:2915-2973`) and what free, realloc and memalign do with such
  chunks: an attempt is taken to fail, which leaves the segment path.
- sYSTRIm: MORECORE fails in this configuration, so it has no effect.
- calloc, iALLOc, mallopt, mallinfo, the public lock wrappers and the WIN32 emulation of `deva/malloc.c`: easy
  members or foreign code. max_fast keeps its default of 72; the page size is 4096.
- The fd and bk words of chunks are kept in maps of their own instead of the arena's word memory, which
  `MallocResize.LinkWritesState` shows to be harmless. The fd chains of the fastbins are sequences only.
- The flag FASTCHUNKS is cleared at the end of consolidation rather than at its start; nothing reads it in between.
- MallocArena.Arena.Memalign: after a wrapped request, the model stops (result Broken) where less than a chunk of the
  block is left behind the aligned spot, because the tags the code then writes corrupt the arena.
- MallocArena.Arena.Realloc: states the kept contents in words, not in bytes.
- The futex mutexes: memory ordering weaker than sequential consistency, tracing and deadlock reports.
- The meta-lock of the recursive mutex is held by one thread or free; its own waiting is what `Mutex` models.
- md5_stream, and machines that are big-endian or have a size_t wider than 32 bits.
- `laden/loader.c`: mem_check (a parameter here), the relocation callbacks, loader_regions_reserve and address
  wrap-around.
- `libc-parts/loader.c`: the header checks, the read-only flag passed to alloc, address wrap-around, segments whose
  file part is longer than their memory part or not in the file, and what alloc does for a page that exists.
- `hurd/cap.h`: the decision to shoot down cached translations, shadow capabilities and the kernel call.
- `hurd/addr.h`: pointer conversions, the void address, and the assertion of line 65.
- `hurd/rpc.h`: the generation of stubs from macros, the decoding of IPC error codes, and words of 64 bits. Reading an
  oversized argument past the end of the message yields whatever memory holds there.
- Device drivers, startup code, printf variants, profiling, multiboot parsing and benchmarks.

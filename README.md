# carena in Dafny

carena is a small arena allocator written in C. It keeps one fixed
buffer of `ARENA_SIZE` bytes per thread. Every block in the buffer is
preceded by a metadata record `meta_t`. The records form a doubly linked
list in address order, from offset 0 up to `arena->tail`, and `arena->offset`
is where the next new block will go. A freed block is pushed on one of
`NUM_SIZE_CLASSES` LIFO stacks, chosen by the block's total size and
threaded through `next_free`/`prev_free`. A freed block is also coalesced
with free neighbours in memory. Freeing the tail block gives its bytes
straight back to the arena by lowering `offset`.

The model is organised as follows:

- `Sizes` (sizes.dfy) holds the size macros `ROUNDUP`, `META_SIZE`,
  `TOTAL_SIZE`, `SIZE_CLASS`, `NUM_SIZE_CLASSES`, `META` and `DATA`. They
  are computed in `size_t`, so they wrap modulo 2^64. The platform is LP64:
  `alignof(max_align_t)` is 16 and `sizeof(meta_t)` is 56.
- `Blocks` (blocks.dfy) holds the records and the primitives of
  carena_private.h as functions on a value of the arena's bookkeeping.
  - A pointer is a byte offset into the buffer.
  - A record is split into its list half (`Link`, held in a `Chain` with
    `tail` and `offset`) and its free-list half (`FreeLink`, held in
    `Stacks` with `free_tails`).
  - `Blocks` also defines the arena invariant `Inv`. A ghost sequence of
    offsets is the address-ordered list of blocks. Under `Inv` these blocks
    tile `[0, offset)` in order, with `offset <= ARENA_SIZE`.
  - `Blocks` also states the coalescing of `merge_free_mem`.
- `Carving` (carving.dfy) holds `use_arena` and `use_free_list`.
- `FreeLists` (freelists.dfy) describes the free lists as stacks. It also
  holds the `add_to_free_list` defect described under Findings.
- `PrivateArena` (arena.dfy) holds `arena_t` as a class whose methods
  update `links`, `frees`, the `free_tails` array, `tail` and `offset` in
  place. Each method is proved equal to the matching function of
  `Blocks`/`Carving`.
- `Api` (carena.dfy) holds `carena_alloc`, `carena_free`,
  `carena_realloc` and `carena_get_error` as functions on the two globals
  `g_arena` and `g_err`, with the properties of the public interface and
  the scenarios of the test suite.
- `Library` (allocator.dfy) makes the two globals the fields of one object,
  and the four entry points its methods. Each method is proved equal to the
  `Api` function applied to the globals before the call.
- `AsWritten` (aswritten.dfy) is `carena_free` with every push done by
  `add_to_free_list` as the code writes it. It leaves the same address
  list as `Api.Free`, but it can leave a stack top that is no longer a
  block, and the coalescing scenario of the tests shows a request served
  from such a record.

`Blocks`, `PrivateArena`, `Api` and `Library` push with the corrected
`add_to_free_list` (see Findings). The arena invariant `Inv` holds with
either push, because it only asks that every free link and stack top name
a record. What the two versions disagree on is the shape of the stacks,
which `Inv` does not carry (see Left out).

## Model

| member | source | states |
|---|---|---|
| Sizes.RoundUp | src/carena_private.h:44-46 | the result is a multiple of 16, and it is the least such value `>= s` unless `s + 15` wraps in `size_t`, in which case it is 0 |
| Sizes.PlatformConstants | src/carena_private.h:37-53 | on LP64, `META_SIZE` is 64, `NUM_SIZE_CLASSES` is 8188, `ARENA_SIZE` is 131072, and the smallest block is 80 bytes |
| Sizes.TotalSize | src/carena_private.h:52-53 | `TOTAL_SIZE` in `size_t`; no contract of its own: its properties are stated by `Sizes.AcceptedSize` |
| Sizes.SizeClass | src/carena_private.h:50-51 | `SIZE_CLASS` in `size_t`; no contract of its own: its properties are stated by `Sizes.AcceptedSize` and `Sizes.ClassInRange` |
| Sizes.MetaOf | src/carena_private.h:54-55 | `META(p)` is the record `META_SIZE` bytes before the payload `p` |
| Sizes.DataOf | src/carena_private.h:56-57 | `DATA(m)` is the payload `META_SIZE` bytes after the record `m` |
| Sizes.MetaDataRoundTrip | src/carena_private.h:54-57 | `META(DATA(m)) == m` and `DATA(META(p)) == p` |
| Sizes.AcceptedSize | src/carena_private.h:48-53 | `SIZE_CLASS(TOTAL_SIZE(s)) < NUM_SIZE_CLASSES` iff `1 <= s <= ARENA_SIZE - META_SIZE`; for such s nothing wraps, `TOTAL_SIZE` is `META_SIZE + ROUNDUP(s)`, it is aligned and fits the arena, and the class is `ROUNDUP(s)/16 - 1` |
| Sizes.ClassInRange | src/carena_private.h:50-51 | every block size the arena can hold has a class below `NUM_SIZE_CLASSES`, namely `(t - META_SIZE)/16 - 1` |
| Sizes.SameClassSameTotal | src/carena_private.h:50-53 | two accepted requests of the same class have the same `TOTAL_SIZE` |
| Sizes.AlignedClass | src/carena_private.h:50-53 | an aligned block size in the class of an accepted request equals that request's `TOTAL_SIZE` |
| Blocks.ClassOf | src/carena_private.h:83 | the class of any record is a valid index of `free_tails` |
| Blocks.AddToFreeList | src/carena_private.h:81-89 | the push leaves every free link pointing at a record and every stack top a record (corrected version, see Findings) |
| Blocks.RemoveFromFreeList | src/carena_private.h:91-100 | the removal leaves every free link pointing at a record and every stack top a record |
| Blocks.AddToList | src/carena_private.h:102-107 | appending keeps every list link pointing at a record, and it changes neither the set of records nor `offset` |
| Blocks.RemoveFromList | src/carena_private.h:109-116 | unlinking keeps every list link pointing at a record, and it changes neither the set of records nor `offset` |
| Blocks.SetSize | src/carena_private.h:122 | writing an aligned size within the arena keeps the list links well formed and changes neither the set of records nor `offset` |
| Blocks.Grown | src/carena_private.h:122 | only the growing block's `total_size` changes, to the sum of both sizes, and the list stays well formed |
| Blocks.Absorb | src/carena_private.h:122-124 | growing and then unlinking keeps the list well formed, with the same records and the same `offset` |
| Blocks.Unfree | src/carena_private.h:120-121 | taking both blocks off their free lists leaves every free link pointing at a record |
| Blocks.UnlinkEffect | src/carena_private.h:109-116 | removing a block n whose predecessor is k: k takes over n's `next`, n's successor points back to k, and `tail` moves to k when n was the tail |
| Blocks.OffsetIsSum | src/carena_private.h:151 | `offset` is the sum of `total_size` over the address-ordered list |
| Blocks.AbsorbSuccessor | src/carena_private.h:122-124 | growing a block by its list successor and unlinking the successor leaves the address list without the successor; the grown block spans both and `offset` is unchanged |
| Blocks.ReleaseTail | src/carena.c:68-71 | lowering `offset` to the tail block's start and unlinking it leaves the list without its last block, and the invariant holds |
| Blocks.MergeNext | src/carena_private.h:119-125 | the first branch of `merge_free_mem` yields a sound arena whose list is the absorb step |
| Blocks.MergePrev | src/carena_private.h:126-132 | the second branch yields a sound arena whose list has the predecessor absorbing the block |
| Blocks.MergeNextKeepsInv | src/carena_private.h:119-125 | absorbing the successor keeps the invariant; the successor leaves the list and the block's size becomes the sum of both sizes |
| Blocks.MergePrevKeepsInv | src/carena_private.h:126-132 | being absorbed by the predecessor keeps the invariant; the block leaves the list and the predecessor's size becomes the sum of both sizes |
| Blocks.MergeFirst | src/carena_private.h:119-125 | after the first branch the invariant holds over the list without the successor when it was free, else over the same list |
| Blocks.MergeFreeMem | src/carena_private.h:118-133 | coalescing keeps the invariant over the merged list and leaves `offset` unchanged |
| Blocks.MergedList | src/carena_private.h:118-133 | coalescing removes at most two blocks from the list |
| Blocks.MergeKeepsSum | src/carena_private.h:118-133 | coalescing keeps the sum of sizes over the list, so no byte is lost or gained |
| Blocks.PushMarks | src/carena_private.h:81-89 | a push makes the block the top of its class stack, marks it free and changes no other block's mark |
| Blocks.RemoveMarks | src/carena_private.h:91-100 | a removal marks the block live and changes no other block's mark; when the block was the top of its stack, its `prev_free` becomes the top, and otherwise no top changes |
| Blocks.MergeFirstTakesNext | src/carena_private.h:119-125 | the first branch is taken exactly when the list successor is marked free, and it is then `MergeNext` on the block and its successor, dropping the successor from the list |
| Blocks.MergeFreeMemTakesPrev | src/carena_private.h:126-132 | the second branch is taken exactly when the list predecessor is marked free, and it is then `MergePrev` on the block and its predecessor, dropping the block from the list |
| Blocks.MergePrevTop | src/carena_private.h:126-132 | a block on top of its stack that its predecessor absorbs leaves its `prev_free` as the new top of that stack, when the predecessor's old and new classes are other classes |
| Carving.Carve | src/carena_private.h:143-149 | writing the new live record at `offset` keeps the arena sound and adds exactly that record |
| Carving.UseArena | src/carena_private.h:142-153 | the new record sits at the old `offset`, is returned as `DATA(offset)`, becomes the tail, `offset` grows by `TOTAL_SIZE` (in `size_t`), and the stack tops are unchanged |
| Carving.UseArenaLinks | src/carena_private.h:142-150 | the new record is `{DATA, TOTAL_SIZE, next NULL, prev old tail}` and is live; the old tail's `next` points to it, and every other record is unchanged |
| Carving.UseArenaKeepsInv | src/carena_private.h:142-153 | when the block fits, the list extended by the new block satisfies the invariant and `offset` grows by exactly `TOTAL_SIZE` |
| Carving.UseFreeList | src/carena_private.h:135-140 | the result is the payload of the top of the request's class stack, that block is marked live, and the address list is untouched |
| FreeLists.PushStack | src/carena_private.h:81-89 | (corrected push) pushing a block on the stack of its class makes it the new top above the old entries, whatever free links it carried |
| FreeLists.PushStackAsWritten | src/carena_private.h:81-89 | the push as written makes a block the new top of its stack when its free links are clean: no `next_free`, and no `prev_free` when the stack is empty |
| FreeLists.PushOther | src/carena_private.h:81-89 | (corrected push) a push leaves the stack of every other class as it was |
| FreeLists.PushAll | src/carena_private.h:81-89 | (corrected push) a push extends the stack of the block's class by the block and no other stack |
| FreeLists.RemoveStack | src/carena_private.h:91-100 | removing entry j of a stack leaves the stack without it, links its neighbours to each other, and marks the block live |
| FreeLists.RemoveOther | src/carena_private.h:91-100 | a removal leaves the stack of every other class as it was |
| FreeLists.RemoveAll | src/carena_private.h:91-100 | a removal takes the entry out of its own stack and out of no other |
| FreeLists.PopStack | src/carena_private.h:135-140 | `use_free_list` hands out the block pushed last, which is exactly `TOTAL_SIZE(size)` bytes long; its stack loses its top and the other stacks are unchanged |
| FreeLists.PushThenPop | src/carena_private.h:135-140 | (corrected push) LIFO: a block just pushed is the next one `use_free_list` returns for its class, and the stack is back to what it was |
| FreeLists.PushPopEmpty | src/carena_private.h:81-100 | with the corrected push, pushing a block on an empty stack and removing it again leaves the stack empty |
| FreeLists.AddToFreeListAsWritten | src/carena_private.h:81-89 | the push as written: the block is the new top and is marked free |
| FreeLists.AsWrittenAgreesOnCleanLinks | src/carena_private.h:81-89 | the push as written and the corrected push agree when the block's `next_free` is NULL and, on an empty stack, its `prev_free` is NULL too |
| FreeLists.PushOnEmpty | src/carena_private.h:81-89 | the corrected push on an empty stack gives the block clean free links and makes it the only entry |
| FreeLists.PushOnEmptyAsWritten | src/carena_private.h:81-89 | the push as written on an empty stack marks the block free and makes it the top, but keeps whatever free links it had |
| FreeLists.StaleTopAsWritten | src/carena_private.h:81-100 | with the push as written, a block with a stale `prev_free` x pushed on an empty stack and removed again leaves x as the top of that stack |
| PrivateArena.Arena.constructor | src/carena.c:32 | the zero-initialised arena: no records, all stacks empty, no tail, `offset` 0 |
| PrivateArena.Arena.SizeClassOf | src/carena_private.h:83 | returns `SIZE_CLASS(meta->total_size)`, an index of the `free_tails` array |
| PrivateArena.Arena.AddToFreeList | src/carena_private.h:81-89 | the in-place push leaves exactly the state of `Blocks.AddToFreeList` |
| PrivateArena.Arena.RemoveFromFreeList | src/carena_private.h:91-100 | the in-place removal leaves exactly the state of `Blocks.RemoveFromFreeList` |
| PrivateArena.Arena.AddToList | src/carena_private.h:102-107 | the in-place append leaves exactly the state of `Blocks.AddToList` |
| PrivateArena.Arena.RemoveFromList | src/carena_private.h:109-116 | the in-place unlink leaves exactly the state of `Blocks.RemoveFromList` |
| PrivateArena.Arena.SetOffset | src/carena.c:69 | only `offset` changes |
| PrivateArena.Arena.Grow | src/carena_private.h:122 | only the size of the growing block changes, to the sum of the two sizes |
| PrivateArena.Arena.Unfree | src/carena_private.h:120-121 | both blocks leave their free lists, first one then the other |
| PrivateArena.Arena.MergeWithNext | src/carena_private.h:119-125 | the first branch in place equals `Blocks.MergeNext` |
| PrivateArena.Arena.MergeWithPrev | src/carena_private.h:126-132 | the second branch in place equals `Blocks.MergePrev` |
| PrivateArena.Arena.MergeFreeMem | src/carena_private.h:118-133 | the in-place coalescing equals `Blocks.MergeFreeMem` |
| PrivateArena.Arena.UseFreeList | src/carena_private.h:135-140 | the returned payload and the new state equal `Carving.UseFreeList` |
| PrivateArena.Arena.UseArena | src/carena_private.h:142-153 | the returned payload and the new state equal `Carving.UseArena` |
| Api.Alloc | src/carena.c:46-58 | the arena stays sound; a NULL result leaves the arena unchanged and sets `g_err`; a pointer result leaves `g_err` unchanged |
| Api.AllocTooBig | src/carena.c:47-49 | "too big" with nothing else changed exactly when `size` is 0 or above `ARENA_SIZE - META_SIZE` |
| Api.AllocFromFreeList | src/carena.c:50-51 | a non-empty class stack is served from its top before the arena grows, and the list is untouched |
| Api.AllocFromArena | src/carena.c:52-53 | otherwise, if the block fits, it is carved at `offset`; it becomes the tail linked after the old tail, `offset` grows by `TOTAL_SIZE` and stays `<= ARENA_SIZE`, and the invariant holds with the block appended |
| Api.AllocFull | src/carena.c:54-56 | otherwise "arena is full" is reported, NULL is returned and the arena is unchanged |
| Api.AllocKeepsInv | src/carena.c:46-58 | every `carena_alloc` keeps the blocks tiling `[0, offset)` with `offset <= ARENA_SIZE` |
| Api.Free | src/carena.c:63-76 | the arena stays sound and `g_err` is either kept or set to "invalid argument" |
| Api.FreeInvalid | src/carena.c:64-67 | NULL or a block not marked live gives "invalid argument", and nothing else changes |
| Api.FreeTail | src/carena.c:68-71 | freeing the tail lowers `offset` to the block's start, drops the last block from the list, and leaves the free lists and `g_err` untouched |
| Api.FreeInner | src/carena.c:73-75 | freeing any other block pushes it and coalesces it; `offset` and `g_err` are unchanged and the invariant holds over the merged list |
| Api.FreeKeepsInv | src/carena.c:63-76 | every `carena_free` keeps the blocks tiling `[0, offset)` |
| Api.Realloc | src/carena.c:83-90 | the arena stays sound and no error is ever cleared |
| Api.ReallocCases | src/carena.c:83-90 | an invalid pointer gives "invalid argument" and NULL with the arena untouched; a live pointer is freed and the size allocated afresh |
| Api.FreeTailThenAlloc | src/carena.c:88-89 | freeing the tail block and allocating a request of an empty class that fits at its start returns the same address, so `carena_realloc` of the tail returns its argument |
| Api.ErrorNeverCleared | src/carena.c:93-95 | once `g_err` is set, `carena_alloc`, `carena_free` and `carena_realloc` keep it set |
| Api.InitialInv | src/carena.c:32 | the zero-initialised arena satisfies the invariant with no blocks |
| Api.Step32 | test/test.c:99-114 | a 32-byte request with an empty class-1 stack and room carves a 96-byte block at `offset`, returns `offset + 64`, makes it the tail linked after the old tail, and leaves every other record unchanged |
| Api.ThreeAllocations | test/test.c:93-114 | three 32-byte requests on a fresh arena return 64, 160 and 256; the blocks sit at 0, 96 and 192, linked both ways in address order, with the last one the tail |
| Api.FreeWithoutMerge | src/carena.c:73-74 | freeing a block that is not the tail and whose neighbours are live only pushes it, and the list is untouched |
| Api.FreeThenAllocSame | src/carena.c:50-51 | LIFO through the public interface: a block that is not the tail, freed between live neighbours, is only pushed (lines 73-74 of the same file, as `Api.FreeWithoutMerge` states), and the next request of its class takes it from the free list at the same address, with the list untouched |
| Api.AllocFreeAllocSame | test/test.c:202-212 | on a fresh arena `carena_alloc(32)` returns 64; freeing it releases the tail, so `offset` drops back to 0 and the tail is NULL, and the next `carena_alloc(32)` returns 64 again |
| Api.SecondFreeRejected | src/carena.c:64-67 | a block freed while its predecessor is live stays marked free, whether or not it absorbed its successor, so freeing it again is an invalid argument and changes nothing else |
| Api.Allocs | test/test.c:168-173 | any number of successive requests keeps the arena sound |
| Api.CarveLive32 | test/test.c:168-173 | a 32-byte request with every stack empty and room left appends a live 96-byte block at `offset`, and changes no other free half, no stack top and not `g_err` |
| Api.FiveAllocations | test/test.c:168-176 | five 32-byte requests on a fresh arena carve live 96-byte blocks at 0, 96, 192, 288 and 384, with every stack empty and `offset` 480 |
| Api.FreeSecond | test/test.c:178-179 | freeing the second block coalesces nothing and makes it the only entry of the class-1 stack |
| Api.FreeFourth | test/test.c:181-182 | freeing the fourth block next coalesces nothing and makes it the class-1 top, above the second |
| Api.FreeSecondAndFourth | test/test.c:178-182 | after both frees the second and fourth blocks are on the class-1 stack with the fourth on top, and the list is untouched |
| Api.FreeThirdPush | test/test.c:184 | freeing the third block pushes it on top of the class-1 stack, the same with either push because its free links are clean |
| Api.FreeThirdUnfree | src/carena_private.h:119-121 | in the third free, the first merge takes the third and fourth blocks off the class-1 stack, which is left holding the second block alone |
| Api.FreeThirdMergeNext | src/carena_private.h:119-125 | in the third free, the third block absorbs the fourth and is then 192 bytes long; the list loses the fourth block |
| Api.FreeThirdMergeNextStacks | src/carena_private.h:119-125 | after the first merge of the third free, the third block is the only entry of the class-7 stack, with clean links, and the second block is still free |
| Api.FreeThirdList | test/test.c:184-187 | after the third free the list is the blocks at 0, 96 and 384, the second block is 288 bytes long, and `offset` and `g_err` are unchanged |
| Api.FreeThirdTops | test/test.c:184-185 | after the third free the class-7 stack is empty again, and the second block is marked free and is the class-13 top |
| Api.ThirdFreeThenAlloc | test/test.c:184-187 | after the third free, the second block and the fifth are linked to each other, the second is the class-13 top, and a 128-byte request is carved at 544 because the class-7 stack is empty |
| Api.CoalescingScenario | test/test.c:164-187 | the whole scenario on the five blocks: frees of the second, fourth and third block, with the checks of the test, then a 128-byte request served from the arena at 544 |
| Library.Carena.constructor | src/carena.c:32-34 | the globals start as the empty arena and no error |
| Library.Carena.Alloc | src/carena.c:46-58 | the returned pointer and the new globals equal `Api.Alloc`, and the invariant is kept |
| Library.Carena.Free | src/carena.c:63-76 | the new globals equal `Api.Free`, and the invariant is kept |
| Library.Carena.FreeTail | src/carena.c:68-71 | the tail path in place equals `Api.Free` |
| Library.Carena.FreeInner | src/carena.c:73-75 | the push-and-coalesce path in place equals `Api.Free` |
| Library.Carena.Realloc | src/carena.c:83-90 | the returned pointer and the new globals equal `Api.Realloc`, and the invariant is kept |
| Library.Carena.GetError | src/carena.c:93-95 | returns the latest error held in `g_err` |
| Api.GetError | src/carena.c:93-95 | returns the error held in `g_err`, None before the first one; `Api.ErrorNeverCleared` states that once set it stays set |
| AsWritten.MergeNextAsWritten | src/carena_private.h:119-125 | the first branch with the push as written gives the same list as `MergeNext` and marks the block free |
| AsWritten.MergePrevAsWritten | src/carena_private.h:126-132 | the second branch with the push as written gives the same list as `MergePrev` and marks the predecessor free |
| AsWritten.MergeFirstAsWritten | src/carena_private.h:119-125 | the first branch as written keeps the invariant over the same list as the corrected one |
| AsWritten.MergeFreeMemAsWritten | src/carena_private.h:118-133 | coalescing as written keeps the invariant and leaves `offset` unchanged |
| AsWritten.MergedListAsWritten | src/carena_private.h:118-133 | coalescing as written removes at most two blocks from the list |
| AsWritten.FreeAsWritten | src/carena.c:63-76 | `carena_free` as written keeps the arena sound, and `g_err` is either kept or set to "invalid argument" |
| AsWritten.FreeInnerAsWritten | src/carena.c:73-75 | freeing a block other than the tail as written pushes it and coalesces it; `offset` and `g_err` are unchanged and the invariant holds over the merged list |
| AsWritten.MergeFirstAsWrittenTakesNext | src/carena_private.h:119-125 | the first branch as written is `MergeNextAsWritten` on the block and its successor when the successor is free |
| AsWritten.MergeFreeMemAsWrittenTakesPrev | src/carena_private.h:126-132 | the second branch as written is taken exactly when the predecessor is marked free, and it is then `MergePrevAsWritten` |
| AsWritten.MergePrevAsWrittenTop | src/carena_private.h:126-132 | as written, a block on top of its stack that its predecessor absorbs leaves its `prev_free` as the new top of that stack |
| AsWritten.FreeAsWrittenWithoutMerge | src/carena.c:73-74 | freeing a block with clean free links whose neighbours are live is the same as written and corrected |
| AsWritten.FreeSecondAsWritten | test/test.c:178-179 | freeing the second block as written is `Api.Free` |
| AsWritten.FreeFourthAsWritten | test/test.c:181-182 | freeing the fourth block as written is `Api.Free` |
| AsWritten.FreeSecondAndFourthAsWritten | test/test.c:178-182 | the first two frees as written give the same globals as the corrected ones |
| AsWritten.FreeThirdMergeNextAsWritten | src/carena_private.h:81-89 | in the third free as written, the third block goes on the empty class-7 stack still naming the fourth block as its `prev_free` |
| AsWritten.FreeThirdTopsAsWritten | src/carena_private.h:91-100 | the third free as written leaves the same list as `Api.Free`, but the class-7 top is the fourth block, which is no longer on the list |
| AsWritten.ThirdFreeThenAllocAsWritten | src/carena_private.h:135-140 | after the third free as written, a 128-byte request returns 352, inside the 288-byte block at 96 that is marked free, and the list is untouched |
| AsWritten.CoalescingScenarioAsWritten | test/test.c:164-187 | the same scenario as `Api.CoalescingScenario`, as written: the lists agree, but the class-7 top is 288 and the request returns 352 instead of 544 |

## Left out

- The payload bytes of the buffer are not modelled. A record is a map
  entry keyed by its offset, so user data can never overwrite a record,
  unlike in C where a stray write would.
- Thread-local storage is not modelled: the model covers one thread's
  `g_arena` and `g_err`.
- The error strings become the three values of `Api.Error`, and
  `carena_get_error` returns that value (None before the first error).
- The platform values are fixed to LP64 (`alignof(max_align_t)` = 16,
  `sizeof(meta_t)` = 56), with `ARENA_SIZE_MULTIPLIER` undefined (1).
- Api.Free: requires the argument to be NULL or a pointer the arena once
  returned, whose record is on the list whenever it is marked live. The
  following cases are not described:
  - a foreign pointer, for which C reads `META(ptr)` out of arbitrary memory;
  - a second free of a block whose record was absorbed by a merge, or given
    back as the tail, which C does not detect because the record still reads
    `is_valid`.
- Library.Carena.Free: carries the same requirement as Api.Free, for the
  same reason.
- Api.Realloc: carries the same requirement as Api.Free, and copies
  no bytes, because payloads are not modelled.
- Api.Free: takes the address-ordered list as a ghost witness, and the
  merge functions also take the block's index. Neither changes behaviour:
  they only carry the invariant that bounds the sums of sizes.
- The stack shape of the free lists is proved for each primitive, but it is
  not part of the invariant carried across `carena_free` and
  `carena_alloc`:
  - `FreeLists.PushAll`, `RemoveAll`, `PopStack` and `PushThenPop` state it
    for pushes, removals and pops;
  - `Inv` only requires every free link and stack top to name a record.
- Api.Alloc: when the class stack is not empty, it does not state that the
  block handed out is on the address list, is `TOTAL_SIZE(size)` bytes
  long or was marked free, because `Inv` does not carry the stack shape.
  `FreeLists.PopStack` states all three for a well-formed stack.
- Blocks.AddToFreeList: models the corrected push (see Findings), not the
  code as written. The code as written is `FreeLists.AddToFreeListAsWritten`,
  and `AsWritten.FreeAsWritten` is `carena_free` built on it.
- FreeLists.PushStack: holds for the corrected push only. The push as
  written makes the block the top only when its free links are clean
  (`FreeLists.PushStackAsWritten`).
- FreeLists.PushOther: holds for the corrected push; it is not restated
  for the push as written.
- FreeLists.PushAll: holds for the corrected push only; with the push as
  written, a block pushed with a stale `prev_free` on an empty stack
  leaves that stack ill-formed.
- FreeLists.PushThenPop: holds for the corrected push only.
- The following members inherit the corrected push. Each of them diverges
  from C once a block whose `prev_free` is stale is pushed on an empty
  stack, as in the scenario under Findings. The address list still agrees
  with C, but the stack tops do not.
- PrivateArena.Arena.AddToFreeList: diverges from C after a block with a
  stale `prev_free` is pushed on an empty stack.
- PrivateArena.Arena.MergeWithNext: diverges from C after a block with a
  stale `prev_free` is pushed on an empty stack.
- PrivateArena.Arena.MergeWithPrev: diverges from C after a block with a
  stale `prev_free` is pushed on an empty stack.
- PrivateArena.Arena.MergeFreeMem: diverges from C after a block with a
  stale `prev_free` is pushed on an empty stack.
- Blocks.MergeNext: diverges from C after a block with a stale `prev_free`
  is pushed on an empty stack.
- Blocks.MergePrev: diverges from C after a block with a stale `prev_free`
  is pushed on an empty stack.
- Blocks.MergeFreeMem: diverges from C after a block with a stale
  `prev_free` is pushed on an empty stack.
- Api.Free: diverges from C after a block with a stale `prev_free` is
  pushed on an empty stack; `AsWritten.FreeAsWritten` follows C there.
- Api.Realloc: diverges from C in the same case, through its free.
- Library.Carena.Free: diverges from C in the same case, as `Api.Free`.
- Library.Carena.FreeInner: diverges from C in the same case, as `Api.Free`.
- Library.Carena.Realloc: diverges from C in the same case, as
  `Api.Realloc`.
- The public header, the example program, the test harness and the
  `memset` resets of the tests are not part of this model. The scenario
  lemmas restate three of the tests: `test_carena_alloc`
  (`Api.ThreeAllocations`), `test_carena_free` (`Api.CoalescingScenario`)
  and `test_carena_alloc_with_free_list` (`Api.AllocFreeAllocSame`).
  `test_carena_free` is followed up to its third free, and its last two
  frees are not restated. The tests of the private helpers are not
  restated as scenarios; the helpers themselves are modelled above.

## Findings

| source | as written | input that shows it | evidently intended | confidence | as-written member | corrected member |
|---|---|---|---|---|---|---|
| src/carena_private.h:81-89 | `add_to_free_list` sets `prev_free` only when the class stack is non-empty and never clears `next_free`, so a block pushed on an empty stack keeps a stale `prev_free`. `remove_from_free_list` then makes that stale record the stack top. | Call `carena_alloc(32)` five times (96-byte blocks at 0, 96, 192, 288 and 384), then `carena_free` the second, fourth and third payloads. Freeing the third block pushes it with `prev_free` = the fourth block, absorbs the fourth (growing to 192 bytes, class 7, whose stack is empty), and is then absorbed by the second. Removing it sets the class-7 top to the fourth block, which is no longer a block. A following `carena_alloc(128)` returns 352, inside the free 288-byte block at 96. | a pushed block's `prev_free` is the old top (NULL on an empty stack) and its `next_free` is NULL, so push-then-remove restores an empty stack (`FreeLists.PushPopEmpty`; the code as written fails it, `FreeLists.StaleTopAsWritten`) | not executed | AsWritten.CoalescingScenarioAsWritten | Api.CoalescingScenario |

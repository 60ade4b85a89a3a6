/**
 * The public interface of carena.c: carena_alloc, carena_free,
 * carena_realloc and carena_get_error, as functions on the two
 * thread-local globals, the arena g_arena and the error slot g_err.
 *
 * g_err holds the message of the latest failure; the three messages
 * are modelled by the Error values below and the NULL it starts with by
 * None.
 */
module Api {
  import opened Wrappers
  import opened Sizes
  import opened Blocks
  import opened Carving
  import opened FreeLists

  /** "'size' is too big.", "Arena is full." and "Invalid argument.". */
  datatype Error = TooBig | Full | InvalidArg

  /** g_arena and g_err. */
  datatype Globals = Globals(arena: Heap, err: Option<Error>)

  /** The globals after a call together with the pointer it returned (None for NULL). */
  datatype Reply = Reply(g: Globals, ptr: Option<nat>)

  /** A zero-initialised arena and no error yet. */
  ghost function Initial(): Globals
  {
    Globals(EmptyHeap(), None)
  }

  /**
   * carena_alloc: reject a size whose class is out of range, else reuse
   * the top block of the class stack, else carve at offset if the block
   * fits (a size_t comparison), else report a full arena.
   */
  ghost function Alloc(g: Globals, size: SizeT): (r: Reply)
    requires Sound(g.arena)
    ensures Sound(r.g.arena)
    ensures r.ptr.None? ==> r.g.arena == g.arena && r.g.err.Some?
    ensures r.ptr.Some? ==> r.g.err == g.err && r.ptr.value >= MetaSize
  {
    var k := SizeClass(TotalSize(size));
    if k >= NumSizeClasses then
      Reply(g.(err := Some(TooBig)), None)
    else if g.arena.stacks.freeTails[k].Some? then
      var p := UseFreeList(g.arena, size);
      Reply(g.(arena := p.heap), Some(p.data))
    else if (g.arena.chain.offset + TotalSize(size)) % Word <= ArenaSize then
      var p := UseArena(g.arena, size);
      Reply(g.(arena := p.heap), Some(p.data))
    else
      Reply(g.(err := Some(Full)), None)
  }

  /** META(ptr)->is_valid: ptr is the payload of a record that is not marked free. */
  ghost predicate Live(h: Heap, p: nat)
    requires Sound(h)
  {
    p >= MetaSize && MetaOf(p) in h.chain.links && h.stacks.frees[MetaOf(p)].isValid
  }

  /**
   * What carena_free needs of its argument: NULL, or the payload of a
   * record, which is a block of the list unless it is marked free.
   */
  ghost predicate Freeable(h: Heap, bs: seq<nat>, p: Option<nat>)
    requires Sound(h)
  {
    p.Some? ==> p.value >= MetaSize && MetaOf(p.value) in h.chain.links && (Live(h, p.value) ==> MetaOf(p.value) in bs)
  }

  /** The position of a block in the list. */
  function IndexOf(bs: seq<nat>, m: nat): (i: nat)
    requires m in bs
    ensures i < |bs| && bs[i] == m
    ensures forall j | 0 <= j < i :: bs[j] != m
  {
    if bs[0] == m then 0 else 1 + IndexOf(bs[1..], m)
  }

  /**
   * carena_free: NULL or a block marked free is an invalid argument; the
   * tail block is given back to the arena by lowering offset (a size_t
   * subtraction); any other block goes on the free list of its class and
   * is coalesced with free neighbours.  bs, the address-ordered list,
   * only witnesses the invariant that coalescing needs.
   */
  ghost function Free(g: Globals, p: Option<nat>, bs: seq<nat>): (r: Globals)
    requires Inv(g.arena, bs) && Freeable(g.arena, bs, p)
    ensures Sound(r.arena)
    ensures r.err == g.err || r.err == Some(InvalidArg)
  {
    if p.None? || !Live(g.arena, p.value) then
      g.(err := Some(InvalidArg))
    else
      var m := MetaOf(p.value);
      if g.arena.chain.links[m].next.None? then
        var c := g.arena.chain.(offset := (g.arena.chain.offset - g.arena.chain.links[m].totalSize) % Word);
        g.(arena := g.arena.(chain := RemoveFromList(c, m)))
      else
        g.(arena := MergeFreeMem(g.arena.(stacks := AddToFreeList(g.arena.stacks, g.arena.chain, m)), m, bs, IndexOf(bs, m)))
  }

  /**
   * carena_realloc: an invalid pointer is reported and NULL returned;
   * otherwise the block is freed and a new one allocated.  No byte is
   * copied.
   */
  ghost function Realloc(g: Globals, p: Option<nat>, size: SizeT, bs: seq<nat>): (r: Reply)
    requires Inv(g.arena, bs) && Freeable(g.arena, bs, p)
    ensures Sound(r.g.arena)
    ensures r.g.err.None? ==> g.err.None?
  {
    if p.None? || !Live(g.arena, p.value) then
      Reply(g.(err := Some(InvalidArg)), None)
    else
      Alloc(Free(g, p, bs), size)
  }

  /** carena_get_error: the latest error, or None before the first one. */
  function GetError(g: Globals): Option<Error>
  {
    g.err
  }

  // ---------------------------------------------------------------------
  // carena_alloc

  /**
   * A request is turned down as too big exactly when its size is 0 or
   * more than ARENA_SIZE - META_SIZE; nothing but g_err changes then.
   */
  lemma AllocTooBig(g: Globals, size: SizeT)
    requires Sound(g.arena)
    ensures Alloc(g, size) == Reply(g.(err := Some(TooBig)), None) <==> !(1 <= size <= ArenaSize - MetaSize)
  {
    AcceptedSize(size);
  }

  /** A request whose class stack is not empty is served from its top, before the arena grows. */
  lemma AllocFromFreeList(g: Globals, size: SizeT)
    requires Sound(g.arena) && SizeClass(TotalSize(size)) < NumSizeClasses
    requires g.arena.stacks.freeTails[SizeClass(TotalSize(size))].Some?
    ensures Alloc(g, size).ptr == Some(DataOf(g.arena.stacks.freeTails[SizeClass(TotalSize(size))].value))
    ensures Alloc(g, size).g.arena.chain == g.arena.chain
  {
  }

  /**
   * With an empty class stack and room left, the block is carved at
   * offset: it becomes the tail of the list, offset grows by TOTAL_SIZE
   * and stays within the arena.
   */
  lemma AllocFromArena(g: Globals, bs: seq<nat>, size: SizeT)
    requires Inv(g.arena, bs) && SizeClass(TotalSize(size)) < NumSizeClasses
    requires g.arena.stacks.freeTails[SizeClass(TotalSize(size))].None?
    requires g.arena.chain.offset + TotalSize(size) <= ArenaSize
    ensures Alloc(g, size).ptr == Some(DataOf(g.arena.chain.offset))
    ensures Inv(Alloc(g, size).g.arena, bs + [g.arena.chain.offset])
    ensures Alloc(g, size).g.arena.chain.offset == g.arena.chain.offset + TotalSize(size) <= ArenaSize
    ensures Alloc(g, size).g.arena.chain.tail == Some(g.arena.chain.offset)
    ensures Alloc(g, size).g.arena.chain.links[g.arena.chain.offset] ==
      Link(DataOf(g.arena.chain.offset), TotalSize(size), None, g.arena.chain.tail)
    ensures g.arena.chain.tail.Some? ==>
      Alloc(g, size).g.arena.chain.links[g.arena.chain.tail.value] ==
        g.arena.chain.links[g.arena.chain.tail.value].(next := Some(g.arena.chain.offset))
    ensures Alloc(g, size).g.arena.stacks.freeTails == g.arena.stacks.freeTails
    ensures Alloc(g, size).g.err == g.err
    ensures Alloc(g, size).g.arena == UseArena(g.arena, size).heap
  {
    AcceptedSize(size);
    NoWrap(g.arena.chain.offset, TotalSize(size));
    var u := UseArena(g.arena, size);
    assert Alloc(g, size) == Reply(g.(arena := u.heap), Some(u.data));
    UseArenaKeepsInv(g.arena, bs, size);
  }

  /** With an empty class stack and no room left, the arena is reported full and nothing else changes. */
  lemma AllocFull(g: Globals, bs: seq<nat>, size: SizeT)
    requires Inv(g.arena, bs) && SizeClass(TotalSize(size)) < NumSizeClasses
    requires g.arena.stacks.freeTails[SizeClass(TotalSize(size))].None?
    requires g.arena.chain.offset + TotalSize(size) > ArenaSize
    ensures Alloc(g, size) == Reply(g.(err := Some(Full)), None)
  {
    AcceptedSize(size);
    NoWrap(g.arena.chain.offset, TotalSize(size));
  }

  /** The list after carena_alloc: one more block exactly when the arena grew. */
  ghost function AllocList(g: Globals, bs: seq<nat>, size: SizeT): seq<nat>
    requires Sound(g.arena)
  {
    var k := SizeClass(TotalSize(size));
    if k < NumSizeClasses && g.arena.stacks.freeTails[k].None? &&
       g.arena.chain.offset + TotalSize(size) <= ArenaSize
    then bs + [g.arena.chain.offset]
    else bs
  }

  /** carena_alloc keeps the blocks tiling [0, offset) with offset at most ARENA_SIZE. */
  lemma AllocKeepsInv(g: Globals, bs: seq<nat>, size: SizeT)
    requires Inv(g.arena, bs)
    ensures Inv(Alloc(g, size).g.arena, AllocList(g, bs, size))
  {
    var k := SizeClass(TotalSize(size));
    if k >= NumSizeClasses {
      assert Alloc(g, size) == Reply(g.(err := Some(TooBig)), None);
    } else if g.arena.stacks.freeTails[k].Some? {
      AllocFromFreeList(g, size);
    } else if g.arena.chain.offset + TotalSize(size) <= ArenaSize {
      AllocFromArena(g, bs, size);
    } else {
      AllocFull(g, bs, size);
    }
  }

  // ---------------------------------------------------------------------
  // carena_free

  /** NULL or a block marked free is rejected and only g_err changes. */
  lemma FreeInvalid(g: Globals, bs: seq<nat>, p: Option<nat>)
    requires Inv(g.arena, bs) && Freeable(g.arena, bs, p)
    requires p.None? || !Live(g.arena, p.value)
    ensures Free(g, p, bs) == g.(err := Some(InvalidArg))
  {
  }

  /**
   * Freeing the tail block hands its bytes back to the arena: offset drops
   * to the block's start, the list loses its last block, the free lists
   * are untouched and g_err is unchanged.
   */
  lemma FreeTail(g: Globals, bs: seq<nat>, p: nat)
    requires Inv(g.arena, bs) && Freeable(g.arena, bs, Some(p)) && Live(g.arena, p)
    requires bs != [] && MetaOf(p) == bs[|bs| - 1]
    ensures Inv(Free(g, Some(p), bs).arena, bs[..|bs| - 1])
    ensures Free(g, Some(p), bs).arena.chain.offset == MetaOf(p) ==
      g.arena.chain.offset - g.arena.chain.links[MetaOf(p)].totalSize
    ensures Free(g, Some(p), bs).arena.stacks == g.arena.stacks
    ensures Free(g, Some(p), bs).err == g.err
  {
    var m := MetaOf(p);
    NextInList(g.arena.chain, bs, |bs| - 1);
    EndsWithin(g.arena.chain, bs, |bs| - 1);
    LinkAt(g.arena.chain, m);
    NoWrap(g.arena.chain.offset, g.arena.chain.links[m].totalSize);
    ReleaseTail(g.arena.chain, bs);
  }

  /**
   * Freeing any other block pushes it on the free list of its class and
   * coalesces it with free neighbours: offset is unchanged, the sizes over
   * the new list still add up to offset, and g_err is unchanged.
   */
  lemma FreeInner(g: Globals, bs: seq<nat>, p: nat, i: nat)
    requires Inv(g.arena, bs) && Freeable(g.arena, bs, Some(p)) && Live(g.arena, p)
    requires i + 1 < |bs| && MetaOf(p) == bs[i]
    ensures
      var h1 := g.arena.(stacks := AddToFreeList(g.arena.stacks, g.arena.chain, bs[i]));
      Free(g, Some(p), bs).arena == MergeFreeMem(h1, bs[i], bs, i) &&
      Inv(Free(g, Some(p), bs).arena, MergedList(h1, bs, i))
    ensures Free(g, Some(p), bs).arena.chain.offset == g.arena.chain.offset
    ensures Free(g, Some(p), bs).err == g.err
  {
    NextInList(g.arena.chain, bs, i);
    Distinct(g.arena.chain, bs);
    assert IndexOf(bs, bs[i]) == i by {
      var j := IndexOf(bs, bs[i]);
      assert bs[j] == bs[i];
    }
  }

  /** The list after carena_free. */
  ghost function FreeList(g: Globals, bs: seq<nat>, p: Option<nat>): seq<nat>
    requires Inv(g.arena, bs) && Freeable(g.arena, bs, p)
  {
    if p.None? || !Live(g.arena, p.value) then bs
    else
      var i := IndexOf(bs, MetaOf(p.value));
      if i == |bs| - 1 then bs[..|bs| - 1]
      else MergedList(g.arena.(stacks := AddToFreeList(g.arena.stacks, g.arena.chain, bs[i])), bs, i)
  }

  /** carena_free keeps the blocks tiling [0, offset), whichever of its three paths it takes. */
  lemma FreeKeepsInv(g: Globals, bs: seq<nat>, p: Option<nat>)
    requires Inv(g.arena, bs) && Freeable(g.arena, bs, p)
    ensures Inv(Free(g, p, bs).arena, FreeList(g, bs, p))
  {
    if p.Some? && Live(g.arena, p.value) {
      var i := IndexOf(bs, MetaOf(p.value));
      if i == |bs| - 1 {
        FreeTail(g, bs, p.value);
      } else {
        FreeInner(g, bs, p.value, i);
      }
    }
  }

  // ---------------------------------------------------------------------
  // carena_realloc and carena_get_error

  /**
   * An invalid pointer is reported, NULL is returned and the arena is
   * untouched; a live one is freed and the request allocated afresh.
   */
  lemma ReallocCases(g: Globals, bs: seq<nat>, p: Option<nat>, size: SizeT)
    requires Inv(g.arena, bs) && Freeable(g.arena, bs, p)
    ensures p.None? || !Live(g.arena, p.value) ==>
      Realloc(g, p, size, bs) == Reply(g.(err := Some(InvalidArg)), None)
    ensures p.Some? && Live(g.arena, p.value) ==>
      Realloc(g, p, size, bs) == Alloc(Free(g, p, bs), size)
  {
  }

  /**
   * Freeing the tail block and allocating again hands back the same
   * address whenever the new request is carved from the arena: its class
   * stack is empty and the new block fits where the old one started.
   * carena_realloc on the tail block therefore returns its argument.
   */
  lemma FreeTailThenAlloc(g: Globals, bs: seq<nat>, p: nat, size: SizeT)
    requires Inv(g.arena, bs) && Freeable(g.arena, bs, Some(p)) && Live(g.arena, p)
    requires bs != [] && MetaOf(p) == bs[|bs| - 1]
    requires SizeClass(TotalSize(size)) < NumSizeClasses
    requires g.arena.stacks.freeTails[SizeClass(TotalSize(size))].None?
    requires MetaOf(p) + TotalSize(size) <= ArenaSize
    ensures Alloc(Free(g, Some(p), bs), size).ptr == Some(p)
    ensures Inv(Alloc(Free(g, Some(p), bs), size).g.arena, bs[..|bs| - 1] + [MetaOf(p)])
    ensures Realloc(g, Some(p), size, bs) == Alloc(Free(g, Some(p), bs), size)
  {
    FreeTail(g, bs, p);
    AllocFromArena(Free(g, Some(p), bs), bs[..|bs| - 1], size);
  }

  /** Once g_err holds an error, no call clears it: carena_get_error keeps reporting one. */
  lemma ErrorNeverCleared(g: Globals, bs: seq<nat>, p: Option<nat>, size: SizeT)
    requires Inv(g.arena, bs) && Freeable(g.arena, bs, p) && GetError(g).Some?
    ensures GetError(Alloc(g, size).g).Some?
    ensures GetError(Free(g, p, bs)).Some?
    ensures GetError(Realloc(g, p, size, bs).g).Some?
  {
  }

  /**
   * Freeing a block that is not the tail and whose neighbours are live
   * only pushes it: no coalescing happens and the list is untouched.
   */
  lemma FreeWithoutMerge(g: Globals, bs: seq<nat>, p: nat, i: nat)
    requires Inv(g.arena, bs) && Freeable(g.arena, bs, Some(p)) && Live(g.arena, p)
    requires i + 1 < |bs| && MetaOf(p) == bs[i]
    requires g.arena.stacks.frees[bs[i + 1]].isValid
    requires 0 < i ==> g.arena.stacks.frees[bs[i - 1]].isValid
    ensures Free(g, Some(p), bs) == g.(arena := g.arena.(stacks := AddToFreeList(g.arena.stacks, g.arena.chain, bs[i])))
  {
    var m := bs[i];
    FreeInner(g, bs, p, i);
    Distinct(g.arena.chain, bs);
    NextInList(g.arena.chain, bs, i);
    PrevInList(g.arena.chain, bs, i);
    var h1 := g.arena.(stacks := AddToFreeList(g.arena.stacks, g.arena.chain, m));
    PushMarks(g.arena.stacks, g.arena.chain, m);
    assert !SuccessorFree(h1, m);
    assert MergeFirst(h1, m, bs, i) == h1;
    assert !PredecessorFree(h1, m);
  }

  /**
   * The free lists are last in, first out through the public interface:
   * a block freed without coalescing is handed out again by the next
   * request of its class, at the same address, and the list is untouched.
   */
  lemma FreeThenAllocSame(g: Globals, bs: seq<nat>, p: nat, i: nat, size: SizeT)
    requires Inv(g.arena, bs) && Freeable(g.arena, bs, Some(p)) && Live(g.arena, p)
    requires i + 1 < |bs| && MetaOf(p) == bs[i]
    requires g.arena.stacks.frees[bs[i + 1]].isValid
    requires 0 < i ==> g.arena.stacks.frees[bs[i - 1]].isValid
    requires SizeClass(TotalSize(size)) == ClassOf(g.arena.chain, bs[i])
    ensures Free(g, Some(p), bs).arena.chain == g.arena.chain
    ensures Alloc(Free(g, Some(p), bs), size).ptr == Some(p)
    ensures Alloc(Free(g, Some(p), bs), size).g.arena.chain == g.arena.chain
  {
    var m := bs[i];
    FreeWithoutMerge(g, bs, p, i);
    PushMarks(g.arena.stacks, g.arena.chain, m);
    var g1 := g.(arena := g.arena.(stacks := AddToFreeList(g.arena.stacks, g.arena.chain, m)));
    assert g1.arena.stacks.freeTails[SizeClass(TotalSize(size))] == Some(m);
    assert Free(g, Some(p), bs) == g1;
    AllocFromFreeList(g1, size);
    MetaDataRoundTrip(m, p);
  }

  /**
   * Freeing a block that is not the tail and whose predecessor is live
   * leaves it marked free, whether or not it absorbed its successor: a
   * second carena_free of the same pointer is an invalid argument and
   * changes nothing but g_err.
   */
  lemma SecondFreeRejected(g: Globals, bs: seq<nat>, p: nat, i: nat)
    requires Inv(g.arena, bs) && Freeable(g.arena, bs, Some(p)) && Live(g.arena, p)
    requires i + 1 < |bs| && MetaOf(p) == bs[i]
    requires 0 < i ==> g.arena.stacks.frees[bs[i - 1]].isValid
    ensures
      var g1, bs1 := Free(g, Some(p), bs), FreeList(g, bs, Some(p));
      Inv(g1.arena, bs1) && Freeable(g1.arena, bs1, Some(p)) && !Live(g1.arena, p) &&
      Free(g1, Some(p), bs1) == g1.(err := Some(InvalidArg))
  {
    var m := bs[i];
    var c := g.arena.chain;
    FreeInner(g, bs, p, i);
    FreeKeepsInv(g, bs, Some(p));
    Distinct(c, bs);
    NextInList(c, bs, i);
    var h1 := g.arena.(stacks := AddToFreeList(g.arena.stacks, c, m));
    PushMarks(g.arena.stacks, c, m);
    var h2 := MergeFirst(h1, m, bs, i);
    var bs1 := FirstList(h1, bs, i);
    if SuccessorFree(h1, m) {
      var n := bs[i + 1];
      MergeNextKeepsInv(h1, bs, i);
      var u := Unfree(h1.stacks, c, m, n);
      RemoveMarks(h1.stacks, c, m);
      RemoveMarks(RemoveFromFreeList(h1.stacks, c, m), c, n);
      PushMarks(u, Grown(c, m, n), m);
      assert h2 == MergeNext(h1, m, n);
    }
    assert !h2.stacks.frees[m].isValid;
    assert 0 < i ==> h2.stacks.frees[bs[i - 1]].isValid;
    PrevInList(h2.chain, bs1, i);
    assert !PredecessorFree(h2, m);
    assert Free(g, Some(p), bs).arena == h2;
  }

  // ---------------------------------------------------------------------
  // Scenarios of the test suite

  /** The zero-initialised arena satisfies the invariant with no blocks. */
  lemma InitialInv()
    ensures Inv(Initial().arena, [])
  {
  }

  /** One 32-byte request on an arena whose class-1 stack is empty and that has room. */
  lemma Step32(g: Globals, bs: seq<nat>)
    requires Inv(g.arena, bs) && g.arena.stacks.freeTails[1] == None
    requires g.arena.chain.offset + 96 <= ArenaSize
    ensures Inv(Alloc(g, 32).g.arena, bs + [g.arena.chain.offset])
    ensures Alloc(g, 32).ptr == Some(g.arena.chain.offset + 64)
    ensures Alloc(g, 32).g.arena.chain.offset == g.arena.chain.offset + 96
    ensures Alloc(g, 32).g.arena.stacks.freeTails[1] == None
    ensures Alloc(g, 32).g.arena.chain.tail == Some(g.arena.chain.offset)
    ensures Alloc(g, 32).g.arena.chain.links[g.arena.chain.offset].prev == g.arena.chain.tail
    ensures forall a | a in g.arena.chain.links && a != g.arena.chain.offset ::
      Alloc(g, 32).g.arena.chain.links[a] ==
        if g.arena.chain.tail == Some(a) then g.arena.chain.links[a].(next := Some(g.arena.chain.offset))
        else g.arena.chain.links[a]
  {
    Request32();
    AllocFromArena(g, bs, 32);
    BelowOffset(g.arena.chain, bs);
    UseArenaLinks(g.arena, 32);
  }

  /**
   * Three requests of 32 bytes on a fresh arena are carved one after the
   * other: 96-byte blocks at 0, 96 and 192, linked in address order, the
   * last one the tail.
   */
  lemma ThreeAllocations()
    ensures
      var r1 := Alloc(Initial(), 32);
      var r2 := Alloc(r1.g, 32);
      var r3 := Alloc(r2.g, 32);
      r1.ptr == Some(64) && r2.ptr == Some(160) && r3.ptr == Some(256) &&
      r3.g.arena.chain.tail == Some(192) && r3.g.arena.chain.offset == 288 &&
      r3.g.arena.chain.links[0].next == Some(96) && r3.g.arena.chain.links[96].prev == Some(0) &&
      r3.g.arena.chain.links[96].next == Some(192) && r3.g.arena.chain.links[192].prev == Some(96)
  {
    Request32();
    InitialInv();
    var g0 := Initial();
    Step32(g0, []);
    var g1 := Alloc(g0, 32).g;
    assert g1.arena.chain.offset == 96;
    Step32(g1, [0]);
    var g2 := Alloc(g1, 32).g;
    assert g2.arena.chain.offset == 192;
    assert g2.arena.chain.links[96].prev == Some(0);
    assert g2.arena.chain.links[0].next == Some(96);
    Step32(g2, [0, 96]);
    var g3 := Alloc(g2, 32).g;
    assert g3.arena.chain.links[0] == g2.arena.chain.links[0];
  }

  /** n successive carena_alloc(size) calls. */
  ghost function Allocs(g: Globals, size: SizeT, n: nat): (r: Globals)
    requires Sound(g.arena)
    ensures Sound(r.arena)
  {
    if n == 0 then g else Alloc(Allocs(g, size, n - 1), size).g
  }

  /** The five 96-byte blocks of the coalescing scenario, all live, in address order. */
  ghost predicate FiveBlocks(g: Globals)
  {
    var live := FreeLink(None, None, true);
    Inv(g.arena, [0, 96, 192, 288, 384]) && g.arena.chain.offset == 480 && g.err == None &&
    g.arena.stacks.frees == map[0 := live, 96 := live, 192 := live, 288 := live, 384 := live] &&
    g.arena.stacks.freeTails == Initial().arena.stacks.freeTails
  }

  /**
   * A 32-byte request on an arena with every stack empty and room left
   * appends a live 96-byte block at offset and changes nothing else of
   * the free halves, the stack tops or g_err.
   */
  lemma CarveLive32(g: Globals, bs: seq<nat>, bs': seq<nat>)
    requires Inv(g.arena, bs) && g.arena.stacks.freeTails == Initial().arena.stacks.freeTails
    requires g.arena.chain.offset + 96 <= ArenaSize && bs' == bs + [g.arena.chain.offset]
    ensures Inv(Alloc(g, 32).g.arena, bs')
    ensures Alloc(g, 32).g.arena.chain.offset == g.arena.chain.offset + 96
    ensures Alloc(g, 32).g.arena.stacks ==
      g.arena.stacks.(frees := g.arena.stacks.frees[g.arena.chain.offset := FreeLink(None, None, true)])
    ensures Alloc(g, 32).g.err == g.err
  {
    Request32();
    AllocFromArena(g, bs, 32);
  }

  /**
   * Five requests of 32 bytes on a fresh arena carve five 96-byte blocks
   * at 0, 96, 192, 288 and 384, all live, and leave every stack empty.
   */
  lemma FiveAllocations()
    ensures FiveBlocks(Allocs(Initial(), 32, 5))
  {
    PlatformConstants();
    InitialInv();
    var g0 := Initial();
    CarveLive32(g0, [], [0]);
    var g1 := Alloc(g0, 32).g;
    CarveLive32(g1, [0], [0, 96]);
    var g2 := Alloc(g1, 32).g;
    CarveLive32(g2, [0, 96], [0, 96, 192]);
    var g3 := Alloc(g2, 32).g;
    CarveLive32(g3, [0, 96, 192], [0, 96, 192, 288]);
    var g4 := Alloc(g3, 32).g;
    CarveLive32(g4, [0, 96, 192, 288], [0, 96, 192, 288, 384]);
    var g5 := Alloc(g4, 32).g;
    assert Allocs(g0, 32, 1) == g1;
    assert Allocs(g0, 32, 2) == g2;
    assert Allocs(g0, 32, 3) == g3;
    assert Allocs(g0, 32, 4) == g4;
    assert Allocs(g0, 32, 5) == g5;
  }

  /** The scenario after the second and the fourth block are freed: one class-1 stack, 96 below 288. */
  ghost predicate TwoFreed(g: Globals)
  {
    var live := FreeLink(None, None, true);
    Inv(g.arena, [0, 96, 192, 288, 384]) && g.arena.chain.offset == 480 && g.err == None &&
    g.arena.stacks.frees ==
      map[0 := live, 96 := FreeLink(Some(288), None, false), 192 := live,
          288 := FreeLink(None, Some(96), false), 384 := live] &&
    g.arena.stacks.freeTails == Initial().arena.stacks.freeTails[1 := Some(288)]
  }

  /** The scenario after the second block is freed: it alone is on the class-1 stack. */
  ghost predicate OneFreed(g: Globals)
  {
    var live := FreeLink(None, None, true);
    Inv(g.arena, [0, 96, 192, 288, 384]) && g.arena.chain.offset == 480 && g.err == None &&
    g.arena.stacks.frees ==
      map[0 := live, 96 := FreeLink(None, None, false), 192 := live, 288 := live, 384 := live] &&
    g.arena.stacks.freeTails == Initial().arena.stacks.freeTails[1 := Some(96)]
  }

  /** The free halves and class-1 tops that the first two frees of the scenario write. */
  lemma ScenarioPushes(t: seq<Option<nat>>)
    requires 1 < |t|
    ensures
      var live := FreeLink(None, None, true);
      map[0 := live, 96 := live, 192 := live, 288 := live, 384 := live][96 := FreeLink(None, None, false)] ==
        map[0 := live, 96 := FreeLink(None, None, false), 192 := live, 288 := live, 384 := live]
    ensures
      var live := FreeLink(None, None, true);
      map[0 := live, 96 := FreeLink(None, None, false), 192 := live, 288 := live, 384 := live]
        [288 := FreeLink(None, Some(96), false)][96 := FreeLink(Some(288), None, false)] ==
        map[0 := live, 96 := FreeLink(Some(288), None, false), 192 := live,
            288 := FreeLink(None, Some(96), false), 384 := live]
    ensures t[1 := Some(96)][1 := Some(288)] == t[1 := Some(288)]
  {
  }

  /** Freeing the second of the five blocks coalesces nothing and pushes it on the empty class-1 stack. */
  lemma FreeSecond(g: Globals)
    requires FiveBlocks(g)
    ensures Freeable(g.arena, [0, 96, 192, 288, 384], Some(160))
    ensures OneFreed(Free(g, Some(160), [0, 96, 192, 288, 384]))
  {
    PlatformConstants();
    Request32();
    var bs := [0, 96, 192, 288, 384];
    assert Adjacent(g.arena.chain, bs, 1);
    assert MetaOf(160) == 96;
    FreeWithoutMerge(g, bs, 160, 1);
    AddToFreeListEffect(g.arena.stacks, g.arena.chain, 96);
    ScenarioPushes(Initial().arena.stacks.freeTails);
  }

  /** Freeing the fourth block then coalesces nothing either and pushes it above the second. */
  lemma FreeFourth(g: Globals)
    requires OneFreed(g)
    ensures Freeable(g.arena, [0, 96, 192, 288, 384], Some(352))
    ensures TwoFreed(Free(g, Some(352), [0, 96, 192, 288, 384]))
  {
    PlatformConstants();
    Request32();
    var bs := [0, 96, 192, 288, 384];
    assert Adjacent(g.arena.chain, bs, 3);
    assert MetaOf(352) == 288;
    FreeWithoutMerge(g, bs, 352, 3);
    AddToFreeListEffect(g.arena.stacks, g.arena.chain, 288);
    ScenarioPushes(Initial().arena.stacks.freeTails);
  }

  /**
   * Freeing the third block pushes it on top of the class-1 stack, the
   * same whichever push is used since its free links are clean, and its
   * successor (the fourth block) is free.
   */
  lemma FreeThirdPush(g: Globals)
    requires TwoFreed(g)
    ensures Freeable(g.arena, [0, 96, 192, 288, 384], Some(256)) && Live(g.arena, 256) && MetaOf(256) == 192
    ensures AddToFreeListAsWritten(g.arena.stacks, g.arena.chain, 192) == AddToFreeList(g.arena.stacks, g.arena.chain, 192)
    ensures
      var live := FreeLink(None, None, true);
      AddToFreeList(g.arena.stacks, g.arena.chain, 192) ==
        Stacks(map[0 := live, 96 := FreeLink(Some(288), None, false), 192 := FreeLink(None, Some(288), false),
                   288 := FreeLink(Some(192), Some(96), false), 384 := live],
               Initial().arena.stacks.freeTails[1 := Some(192)])
    ensures g.arena.chain.links[192].next == Some(288) && g.arena.chain.links[192].totalSize == 96
    ensures g.arena.chain.links[288].totalSize == 96
  {
    PlatformConstants();
    Request32();
    var bs := [0, 96, 192, 288, 384];
    assert Adjacent(g.arena.chain, bs, 2) && Adjacent(g.arena.chain, bs, 3);
    assert MetaOf(256) == 192;
    AsWrittenAgreesOnCleanLinks(g.arena.stacks, g.arena.chain, 192);
    AddToFreeListEffect(g.arena.stacks, g.arena.chain, 192);
  }

  /**
   * The first merge of the third free takes the third and the fourth
   * block off the class-1 stack, which is left holding the second block
   * alone.
   */
  lemma FreeThirdUnfree(g: Globals)
    requires TwoFreed(g)
    ensures
      var h1 := g.arena.(stacks := AddToFreeList(g.arena.stacks, g.arena.chain, 192));
      var live := FreeLink(None, None, true);
      SuccessorFree(h1, 192) &&
      Unfree(h1.stacks, h1.chain, 192, 288) ==
        Stacks(map[0 := live, 96 := FreeLink(None, None, false), 192 := FreeLink(None, Some(288), true),
                   288 := FreeLink(None, Some(96), true), 384 := live],
               Initial().arena.stacks.freeTails[1 := Some(96)])
  {
    Request32();
    FreeThirdPush(g);
    var c := g.arena.chain;
    var live := FreeLink(None, None, true);
    var s1 := AddToFreeList(g.arena.stacks, c, 192);
    assert !s1.frees[288].isValid;
    RemoveFromFreeListEffect(s1, c, 192);
    var u1 := RemoveFromFreeList(s1, c, 192);
    assert u1 == Stacks(map[0 := live, 96 := FreeLink(Some(288), None, false), 192 := FreeLink(None, Some(288), true),
                            288 := FreeLink(None, Some(96), false), 384 := live],
                        Initial().arena.stacks.freeTails[1 := Some(288)]);
    RemoveFromFreeListEffect(u1, c, 288);
  }

  /** The request sizes of the coalescing scenario and their classes. */
  lemma Request128()
    ensures TotalSize(128) == 192 && SizeClass(192) == 7 && SizeClass(288) == 13 && 13 < NumSizeClasses
    ensures |Initial().arena.stacks.freeTails| == NumSizeClasses
    ensures Initial().arena.stacks.freeTails[7] == None && Initial().arena.stacks.freeTails[13] == None
  {
    PlatformConstants();
  }

  /** The payloads of the blocks at 288 and at 480. */
  lemma ScenarioPayloads()
    ensures DataOf(288) == 352 && DataOf(480) == 544
  {
    PlatformConstants();
  }

  /** The lists of the coalescing scenario: the fourth block goes first, then the third. */
  lemma ScenarioLists()
    ensures RemoveAt([0, 96, 192, 288, 384], 3) == [0, 96, 192, 384]
    ensures RemoveAt([0, 96, 192, 384], 2) == [0, 96, 384]
  {
    assert RemoveAt([0, 96, 192, 288, 384], 3) == [0, 96, 192] + [384];
    assert RemoveAt([0, 96, 192, 384], 2) == [0, 96] + [384];
  }

  /**
   * The first merge of the third free: the third block absorbs the fourth
   * and is now 192 bytes long.
   */
  lemma FreeThirdMergeNext(g: Globals)
    requires TwoFreed(g)
    ensures SizeClass(192) == 7 && 7 < NumSizeClasses
    ensures Inv(g.arena.(stacks := AddToFreeList(g.arena.stacks, g.arena.chain, 192)), [0, 96, 192, 288, 384])
    ensures
      var h1 := g.arena.(stacks := AddToFreeList(g.arena.stacks, g.arena.chain, 192));
      FirstList(h1, [0, 96, 192, 288, 384], 2) == [0, 96, 192, 384]
    ensures
      var h1 := g.arena.(stacks := AddToFreeList(g.arena.stacks, g.arena.chain, 192));
      MergeFirst(h1, 192, [0, 96, 192, 288, 384], 2).chain.links[192].totalSize == 192
  {
    Request128();
    FreeThirdPush(g);
    FreeThirdUnfree(g);
    ScenarioLists();
    var bs := [0, 96, 192, 288, 384];
    var h1 := g.arena.(stacks := AddToFreeList(g.arena.stacks, g.arena.chain, 192));
    MergeFirstTakesNext(h1, bs, 2);
    MergeNextKeepsInv(h1, bs, 2);
  }

  /**
   * After the first merge of the third free, the third block is on the
   * empty class-7 stack with clean links and its predecessor, the second
   * block, is still free.
   */
  lemma FreeThirdMergeNextStacks(g: Globals)
    requires TwoFreed(g)
    ensures SizeClass(192) == 7 && 7 < NumSizeClasses
    ensures Inv(g.arena.(stacks := AddToFreeList(g.arena.stacks, g.arena.chain, 192)), [0, 96, 192, 288, 384])
    ensures
      var h1 := g.arena.(stacks := AddToFreeList(g.arena.stacks, g.arena.chain, 192));
      MergeFirst(h1, 192, [0, 96, 192, 288, 384], 2).stacks.freeTails ==
        Initial().arena.stacks.freeTails[1 := Some(96)][7 := Some(192)]
    ensures
      var h1 := g.arena.(stacks := AddToFreeList(g.arena.stacks, g.arena.chain, 192));
      var h2 := MergeFirst(h1, 192, [0, 96, 192, 288, 384], 2);
      h2.stacks.frees[192] == FreeLink(None, None, false) && !h2.stacks.frees[96].isValid
  {
    Request128();
    FreeThirdPush(g);
    FreeThirdUnfree(g);
    FreeThirdMergeNext(g);
    var bs := [0, 96, 192, 288, 384];
    var h1 := g.arena.(stacks := AddToFreeList(g.arena.stacks, g.arena.chain, 192));
    MergeFirstTakesNext(h1, bs, 2);
    var u := Unfree(h1.stacks, h1.chain, 192, 288);
    var c2 := Grown(h1.chain, 192, 288);
    assert ClassOf(c2, 192) == 7 && u.freeTails[7] == None;
    PushOnEmpty(u, c2, 192);
  }

  /**
   * The second merge of the third free: the second block, free, absorbs
   * the third.  The list keeps three blocks, the second now 288 bytes
   * long and still marked free.
   */
  lemma FreeThirdList(g: Globals)
    requires TwoFreed(g)
    ensures Freeable(g.arena, [0, 96, 192, 288, 384], Some(256))
    ensures
      var g8 := Free(g, Some(256), [0, 96, 192, 288, 384]);
      Inv(g8.arena, [0, 96, 384]) && g8.arena.chain.offset == 480 && g8.err == None &&
      96 in g8.arena.chain.links && g8.arena.chain.links[96].totalSize == 288
  {
    FreeThirdPush(g);
    FreeThirdMergeNext(g);
    FreeThirdMergeNextStacks(g);
    ScenarioLists();
    var bs := [0, 96, 192, 288, 384];
    var h1 := g.arena.(stacks := AddToFreeList(g.arena.stacks, g.arena.chain, 192));
    FreeInner(g, bs, 256, 2);
    MergeFreeMemTakesPrev(h1, bs, 2);
    var h2, bs1 := MergeFirst(h1, 192, bs, 2), [0, 96, 192, 384];
    assert Adjacent(h2.chain, bs1, 1);
    MergePrevKeepsInv(h2, bs1, 2);
  }

  /**
   * Both merges of the third free leave the class-7 stack as empty as
   * they found it: the third block, pushed there with clean links, takes
   * nothing with it when it is removed again.  The second block, now 288
   * bytes long, is the top of the class-13 stack.
   */
  lemma FreeThirdTops(g: Globals)
    requires TwoFreed(g)
    ensures Freeable(g.arena, [0, 96, 192, 288, 384], Some(256))
    ensures 7 < NumSizeClasses && 13 < NumSizeClasses
    ensures
      var g8 := Free(g, Some(256), [0, 96, 192, 288, 384]);
      g8.arena.stacks.freeTails[7] == None && g8.arena.stacks.freeTails[13] == Some(96) && !Live(g8.arena, 160)
  {
    Request32();
    Request128();
    FreeThirdPush(g);
    FreeThirdMergeNext(g);
    FreeThirdMergeNextStacks(g);
    var bs := [0, 96, 192, 288, 384];
    var h1 := g.arena.(stacks := AddToFreeList(g.arena.stacks, g.arena.chain, 192));
    FreeInner(g, bs, 256, 2);
    MergeFreeMemTakesPrev(h1, bs, 2);
    var h2 := MergeFirst(h1, 192, bs, 2);
    var c2 := h2.chain;
    assert c2.links[96].totalSize == 96 by {
      assert Adjacent(c2, [0, 96, 192, 384], 1);
    }
    assert ClassOf(c2, 192) == 7 && ClassOf(c2, 96) == 1;
    assert ClassOf(Grown(c2, 96, 192), 96) == 13;
    MergePrevTop(h2, 192, 96);
    PushMarks(Unfree(h2.stacks, c2, 192, 96), Grown(c2, 96, 192), 96);
    assert MetaOf(160) == 96;
  }

  /** The second and then the fourth of the five blocks freed; neither free coalesces. */
  ghost function FreeSecondAndFourth(g: Globals): (r: Globals)
    requires FiveBlocks(g)
    ensures TwoFreed(r)
  {
    FreeSecond(g);
    FreeFourth(Free(g, Some(160), [0, 96, 192, 288, 384]));
    Free(Free(g, Some(160), [0, 96, 192, 288, 384]), Some(352), [0, 96, 192, 288, 384])
  }

  /** Over the list [0, 96, 384] the second block and the last are linked to each other. */
  lemma ThreeBlocksLinked(h: Heap)
    requires Inv(h, [0, 96, 384])
    ensures 96 in h.chain.links && 384 in h.chain.links
    ensures h.chain.links[96].next == Some(384) && h.chain.links[384].prev == Some(96)
  {
    NextInList(h.chain, [0, 96, 384], 1);
    PrevInList(h.chain, [0, 96, 384], 2);
  }

  /**
   * After the third free, a 128-byte request (class 7) finds its stack
   * empty and is carved at offset 480: the 288-byte free block at 96,
   * which now spans the old third and fourth blocks, is not handed out.
   */
  lemma ThirdFreeThenAlloc(g: Globals)
    requires TwoFreed(g)
    ensures Freeable(g.arena, [0, 96, 192, 288, 384], Some(256))
    ensures SizeClass(TotalSize(128)) == 7 && 7 < NumSizeClasses
    ensures 13 < NumSizeClasses
    ensures
      var g8 := Free(g, Some(256), [0, 96, 192, 288, 384]);
      Inv(g8.arena, [0, 96, 384]) && 96 in g8.arena.chain.links && 384 in g8.arena.chain.links &&
      g8.arena.chain.links[96].totalSize == 288 && !Live(g8.arena, 160) &&
      g8.arena.chain.links[96].next == Some(384) && g8.arena.chain.links[384].prev == Some(96) &&
      g8.arena.stacks.freeTails[13] == Some(96) &&
      g8.arena.stacks.freeTails[7] == None && Alloc(g8, 128).ptr == Some(544)
  {
    Request128();
    ScenarioPayloads();
    FreeThirdList(g);
    FreeThirdTops(g);
    var g8 := Free(g, Some(256), [0, 96, 192, 288, 384]);
    ThreeBlocksLinked(g8.arena);
    AllocFromArena(g8, [0, 96, 384], 128);
  }

  /**
   * The coalescing scenario on the five blocks that five 32-byte requests
   * carve from a fresh arena (FiveAllocations): frees of the second,
   * fourth and third block, then a 128-byte request served from the
   * arena at 544.
   */
  lemma CoalescingScenario(g5: Globals)
    requires FiveBlocks(g5)
    ensures SizeClass(TotalSize(128)) == 7 && 7 < NumSizeClasses && 13 < NumSizeClasses
    ensures
      var g := FreeSecondAndFourth(g5);
      Freeable(g.arena, [0, 96, 192, 288, 384], Some(256)) &&
      var g8 := Free(g, Some(256), [0, 96, 192, 288, 384]);
      Inv(g8.arena, [0, 96, 384]) && 96 in g8.arena.chain.links && 384 in g8.arena.chain.links &&
      g8.arena.chain.links[96].totalSize == 288 && !Live(g8.arena, 160) &&
      g8.arena.chain.links[96].next == Some(384) && g8.arena.chain.links[384].prev == Some(96) &&
      g8.arena.stacks.freeTails[13] == Some(96) &&
      g8.arena.stacks.freeTails[7] == None && Alloc(g8, 128).ptr == Some(544)
  {
    ThirdFreeThenAlloc(FreeSecondAndFourth(g5));
  }

  /**
   * A 32-byte request on a fresh arena returns 64; freeing it releases
   * the tail, which lowers offset back to 0, and the next 32-byte request
   * is carved there again, so it returns the same pointer.
   */
  lemma AllocFreeAllocSame()
    ensures
      var r1 := Alloc(Initial(), 32);
      var g2 := Free(r1.g, Some(64), [0]);
      r1.ptr == Some(64) &&
      g2.arena.chain.offset == 0 && g2.arena.chain.tail == None &&
      Alloc(g2, 32).ptr == Some(64)
  {
    Request32();
    InitialInv();
    Step32(Initial(), []);
    var r1 := Alloc(Initial(), 32);
    FreeTail(r1.g, [0], 64);
    FreeTailThenAlloc(r1.g, [0], 64, 32);
  }

  /** A 32-byte request takes a 96-byte block of class 1. */
  lemma Request32()
    ensures TotalSize(32) == 96 && SizeClass(96) == 1 && 1 < NumSizeClasses
    ensures Initial().arena.stacks.freeTails[1] == None
  {
    PlatformConstants();
  }
}

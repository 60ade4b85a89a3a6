/**
 * The two ways carena_private.h hands out a block: use_arena carves a new
 * block at the arena's offset, use_free_list reuses the top block of a
 * class stack.
 */
module Carving {
  import opened Wrappers
  import opened Sizes
  import opened Blocks

  /** A heap together with the payload pointer an operation returned. */
  datatype Placed = Placed(heap: Heap, data: nat)

  /** A record the heap may not hold yet can be written at offset a while keeping Sound. */
  lemma PutRecord(h: Heap, a: nat, x: Link, f: FreeLink)
    requires Sound(h)
    requires LinkOk(h.chain.links[a := x], a, x) && FreeOk(h.chain.links.Keys + {a}, f)
    ensures Sound(Heap(h.chain.(links := h.chain.links[a := x]), h.stacks.(frees := h.stacks.frees[a := f])))
    ensures h.chain.links[a := x].Keys == h.chain.links.Keys + {a}
  {
    var ls := h.chain.links[a := x];
    var keys := ls.Keys;
    assert keys == h.chain.links.Keys + {a};
    forall b | b in ls ensures LinkOk(ls, b, ls[b]) {
      if b != a {
        LinkAt(h.chain, b);
      }
    }
    var fs := h.stacks.frees[a := f];
    assert fs.Keys == keys;
    forall b | b in fs ensures FreeOk(keys, fs[b]) {
      if b != a {
        FreeAt(h.stacks, h.chain.links.Keys, b);
      }
    }
  }

  /**
   * The heap right after use_arena has written the new record at offset o
   * and before add_to_list links it: total_size, data, next and the free
   * links are set and is_valid is true.
   */
  ghost function Carve(h: Heap, t: nat): (r: Heap)
    requires Sound(h) && MinBlock <= t <= ArenaSize && t % MinAllocation == 0
    ensures Sound(r) && h.chain.offset in r.chain.links
    ensures r.chain.links.Keys == h.chain.links.Keys + {h.chain.offset}
  {
    var o := h.chain.offset;
    PutRecord(h, o, Link(DataOf(o), t, None, None), FreeLink(None, None, true));
    Heap(h.chain.(links := h.chain.links[o := Link(DataOf(o), t, None, None)]),
         h.stacks.(frees := h.stacks.frees[o := FreeLink(None, None, true)]))
  }

  /**
   * use_arena: carve a block of TOTAL_SIZE(size) bytes at offset, append it
   * to the address-ordered list and advance offset (a size_t addition).
   * The caller has checked that the class of the size is in range.
   */
  ghost function UseArena(h: Heap, size: SizeT): (r: Placed)
    requires Sound(h) && SizeClass(TotalSize(size)) < NumSizeClasses
    ensures Sound(r.heap) && r.data == DataOf(h.chain.offset)
    ensures r.heap.chain.tail == Some(h.chain.offset)
    ensures r.heap.chain.offset == (h.chain.offset + TotalSize(size)) % Word
    ensures r.heap.stacks.freeTails == h.stacks.freeTails
  {
    AcceptedSize(size);
    var c := Carve(h, TotalSize(size));
    var l := AddToList(c.chain, h.chain.offset);
    Placed(Heap(l.(offset := (h.chain.offset + TotalSize(size)) % Word), c.stacks), DataOf(h.chain.offset))
  }

  /** Every block of the list lies below offset, so the new block's offset is not on it. */
  lemma BelowOffset(c: Chain, bs: seq<nat>)
    requires ChainInv(c, bs)
    ensures forall k | 0 <= k < |bs| :: bs[k] < c.offset
  {
    forall k | 0 <= k < |bs| ensures bs[k] < c.offset {
      EndsWithin(c, bs, k);
      LinkAt(c, bs[k]);
    }
  }

  /** The records use_arena leaves: the new one at offset, the old tail linked to it, the rest as they were. */
  lemma UseArenaLinks(h: Heap, size: SizeT)
    requires Sound(h) && SizeClass(TotalSize(size)) < NumSizeClasses
    requires h.chain.tail != Some(h.chain.offset)
    ensures UseArena(h, size).heap.chain.links.Keys == h.chain.links.Keys + {h.chain.offset}
    ensures UseArena(h, size).heap.chain.links[h.chain.offset] ==
      Link(DataOf(h.chain.offset), TotalSize(size), None, h.chain.tail)
    ensures UseArena(h, size).heap.stacks.frees[h.chain.offset] == FreeLink(None, None, true)
    ensures forall a | a in h.chain.links && a != h.chain.offset ::
      UseArena(h, size).heap.chain.links[a] ==
        if h.chain.tail == Some(a) then h.chain.links[a].(next := Some(h.chain.offset)) else h.chain.links[a]
  {
    AcceptedSize(size);
    var c := Carve(h, TotalSize(size));
    assert AddToList(c.chain, h.chain.offset).links == UseArena(h, size).heap.chain.links;
  }

  /** One adjacency of the list after use_arena, over links r that differ from h's only as use_arena makes them. */
  lemma AppendAdjacentAt(c: Chain, bs: seq<nat>, r: Chain, t: nat, i: nat)
    requires ChainInv(c, bs) && i < |bs|
    requires forall k | 0 <= k < |bs| :: bs[k] < c.offset
    requires c.offset in r.links && r.links[c.offset].prev == c.tail
    requires forall a | a in c.links && a != c.offset ::
      a in r.links && r.links[a] == if c.tail == Some(a) then c.links[a].(next := Some(c.offset)) else c.links[a]
    ensures Adjacent(r, bs + [c.offset], i)
  {
    if i < |bs| - 1 {
      assert Adjacent(c, bs, i);
    }
  }

  /** The list after use_arena, over a chain r that differs from c only as use_arena makes it. */
  lemma AppendList(c: Chain, bs: seq<nat>, r: Chain, t: nat)
    requires ChainInv(c, bs)
    requires forall k | 0 <= k < |bs| :: bs[k] < c.offset
    requires c.offset in r.links && r.links[c.offset] == Link(DataOf(c.offset), t, None, c.tail)
    requires r.tail == Some(c.offset) && r.offset == c.offset + t
    requires forall a | a in c.links && a != c.offset ::
      a in r.links && r.links[a] == if c.tail == Some(a) then c.links[a].(next := Some(c.offset)) else c.links[a]
    ensures AddressList(r, bs + [c.offset])
  {
    forall i | 0 <= i < |bs| ensures Adjacent(r, bs + [c.offset], i) {
      AppendAdjacentAt(c, bs, r, t, i);
    }
    if bs != [] {
      assert bs[|bs| - 1] != c.offset;
    }
  }

  /**
   * use_arena appends the new block to the list: when the block fits the
   * arena the blocks still tile [0, offset), offset grows by TOTAL_SIZE,
   * the new block is the tail and links back to the old tail.
   */
  lemma UseArenaKeepsInv(h: Heap, bs: seq<nat>, size: SizeT)
    requires Inv(h, bs) && SizeClass(TotalSize(size)) < NumSizeClasses
    requires h.chain.offset + TotalSize(size) <= ArenaSize
    ensures Inv(UseArena(h, size).heap, bs + [h.chain.offset])
    ensures UseArena(h, size).heap.chain.offset == h.chain.offset + TotalSize(size)
    ensures UseArena(h, size).heap.chain.links[h.chain.offset] ==
      Link(DataOf(h.chain.offset), TotalSize(size), None, h.chain.tail)
    ensures UseArena(h, size).heap.stacks.frees[h.chain.offset] == FreeLink(None, None, true)
    ensures h.chain.tail.Some? ==>
      UseArena(h, size).heap.chain.links[h.chain.tail.value] ==
        h.chain.links[h.chain.tail.value].(next := Some(h.chain.offset))
  {
    BelowOffset(h.chain, bs);
    assert h.chain.offset !in bs;
    UseArenaLinks(h, size);
    AcceptedSize(size);
    NoWrap(h.chain.offset, TotalSize(size));
    AppendList(h.chain, bs, UseArena(h, size).heap.chain, TotalSize(size));
  }

  /**
   * use_free_list: take the top block of the stack of the request's class,
   * take it off its stack (remove_from_free_list uses the class of the
   * block's own total_size) and return its payload.  Re-setting data is a
   * no-op on a sound heap, so the address list is untouched.
   */
  ghost function UseFreeList(h: Heap, size: SizeT): (r: Placed)
    requires Sound(h) && SizeClass(TotalSize(size)) < NumSizeClasses
    requires h.stacks.freeTails[SizeClass(TotalSize(size))].Some?
    ensures Sound(r.heap) && r.heap.chain == h.chain
    ensures r.data == DataOf(h.stacks.freeTails[SizeClass(TotalSize(size))].value)
    ensures r.heap.stacks.frees[MetaOf(r.data)].isValid
  {
    var m := h.stacks.freeTails[SizeClass(TotalSize(size))].value;
    LinkAt(h.chain, m);
    var c := h.chain.(links := h.chain.links[m := h.chain.links[m].(data := DataOf(m))]);
    assert c == h.chain;
    Placed(Heap(c, RemoveFromFreeList(h.stacks, h.chain, m)), c.links[m].data)
  }
}

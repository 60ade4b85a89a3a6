/**
 * carena_free as the code writes it: the same operation as Api.Free, with
 * every push of add_to_free_list (the one of carena_free and the two of
 * merge_free_mem) done by FreeLists.AddToFreeListAsWritten.  The address
 * list it leaves is the one Api.Free leaves; only the free links and the
 * stack tops can differ, and the scenario below shows a request served
 * from a block that is no longer on the list.
 */
module AsWritten {
  import opened Wrappers
  import opened Sizes
  import opened Blocks
  import opened Carving
  import opened FreeLists
  import opened Api

  /** The first branch of merge_free_mem with the push as written. */
  ghost function MergeNextAsWritten(h: Heap, m: nat, n: nat): (r: Heap)
    requires Sound(h) && m in h.chain.links && n in h.chain.links && h.chain.links[m].next == Some(n)
    requires MinBlock <= h.chain.links[m].totalSize + h.chain.links[n].totalSize <= ArenaSize
    ensures Sound(r) && r.chain == MergeNext(h, m, n).chain
    ensures !r.stacks.frees[m].isValid
  {
    Heap(Absorb(h.chain, m, n), AddToFreeListAsWritten(Unfree(h.stacks, h.chain, m, n), Grown(h.chain, m, n), m))
  }

  /** The second branch of merge_free_mem with the push as written. */
  ghost function MergePrevAsWritten(h: Heap, m: nat, p: nat): (r: Heap)
    requires Sound(h) && m in h.chain.links && p in h.chain.links && h.chain.links[m].prev == Some(p)
    requires MinBlock <= h.chain.links[p].totalSize + h.chain.links[m].totalSize <= ArenaSize
    ensures Sound(r) && r.chain == MergePrev(h, m, p).chain
    ensures !r.stacks.frees[p].isValid
  {
    Heap(Absorb(h.chain, p, m), AddToFreeListAsWritten(Unfree(h.stacks, h.chain, m, p), Grown(h.chain, p, m), p))
  }

  /** The heap after the first branch of merge_free_mem as written on m = bs[i]. */
  ghost function MergeFirstAsWritten(h: Heap, m: nat, bs: seq<nat>, i: nat): (r: Heap)
    requires Inv(h, bs) && i < |bs| && bs[i] == m
    ensures Inv(r, FirstList(h, bs, i))
    ensures r.chain == MergeFirst(h, m, bs, i).chain
  {
    NextInList(h.chain, bs, i);
    if SuccessorFree(h, m) then
      MergeNextKeepsInv(h, bs, i);
      MergeNextAsWritten(h, m, h.chain.links[m].next.value)
    else h
  }

  /** merge_free_mem as written: both merges push with the code's add_to_free_list. */
  ghost function MergeFreeMemAsWritten(h: Heap, m: nat, bs: seq<nat>, i: nat): (r: Heap)
    requires Inv(h, bs) && i < |bs| && bs[i] == m
    ensures Inv(r, MergedListAsWritten(h, bs, i))
    ensures r.chain.offset == h.chain.offset
  {
    var h1 := MergeFirstAsWritten(h, m, bs, i);
    var bs1 := FirstList(h, bs, i);
    PrevInList(h1.chain, bs1, i);
    if PredecessorFree(h1, m) then
      MergePrevKeepsInv(h1, bs1, i);
      MergePrevAsWritten(h1, m, h1.chain.links[m].prev.value)
    else h1
  }

  /** The list left by merge_free_mem as written on bs[i]. */
  ghost function MergedListAsWritten(h: Heap, bs: seq<nat>, i: nat): (r: seq<nat>)
    requires Inv(h, bs) && i < |bs|
    ensures |bs| - 2 <= |r| <= |bs|
  {
    var h1 := MergeFirstAsWritten(h, bs[i], bs, i);
    var bs1 := FirstList(h, bs, i);
    PrevInList(h1.chain, bs1, i);
    if PredecessorFree(h1, bs[i]) then RemoveAt(bs1, i) else bs1
  }

  /**
   * carena_free as written.  NULL, a block marked free and the tail block
   * take no push, so there it is Api.Free; any other block is pushed and
   * coalesced with the code's add_to_free_list.
   */
  ghost function FreeAsWritten(g: Globals, p: Option<nat>, bs: seq<nat>): (r: Globals)
    requires Inv(g.arena, bs) && Freeable(g.arena, bs, p)
    ensures Sound(r.arena)
    ensures r.err == g.err || r.err == Some(InvalidArg)
  {
    if p.Some? && Live(g.arena, p.value) && g.arena.chain.links[MetaOf(p.value)].next.Some? then
      var m := MetaOf(p.value);
      g.(arena := MergeFreeMemAsWritten(g.arena.(stacks := AddToFreeListAsWritten(g.arena.stacks, g.arena.chain, m)), m, bs, IndexOf(bs, m)))
    else Free(g, p, bs)
  }

  /**
   * Freeing a block other than the tail as written pushes and coalesces
   * it: offset and g_err are unchanged and the blocks still tile
   * [0, offset).
   */
  lemma FreeInnerAsWritten(g: Globals, bs: seq<nat>, p: nat, i: nat)
    requires Inv(g.arena, bs) && Freeable(g.arena, bs, Some(p)) && Live(g.arena, p)
    requires i + 1 < |bs| && MetaOf(p) == bs[i]
    ensures
      var h1 := g.arena.(stacks := AddToFreeListAsWritten(g.arena.stacks, g.arena.chain, bs[i]));
      FreeAsWritten(g, Some(p), bs).arena == MergeFreeMemAsWritten(h1, bs[i], bs, i) &&
      Inv(FreeAsWritten(g, Some(p), bs).arena, MergedListAsWritten(h1, bs, i))
    ensures FreeAsWritten(g, Some(p), bs).arena.chain.offset == g.arena.chain.offset
    ensures FreeAsWritten(g, Some(p), bs).err == g.err
  {
    NextInList(g.arena.chain, bs, i);
    Distinct(g.arena.chain, bs);
    assert IndexOf(bs, bs[i]) == i by {
      var j := IndexOf(bs, bs[i]);
      assert bs[j] == bs[i];
    }
  }

  /** The first branch as written is MergeNextAsWritten on bs[i] and bs[i+1] when bs[i+1] is free. */
  lemma MergeFirstAsWrittenTakesNext(h: Heap, bs: seq<nat>, i: nat)
    requires Inv(h, bs) && i + 1 < |bs|
    ensures h.chain.links[bs[i]].next == Some(bs[i + 1])
    ensures MinBlock <= h.chain.links[bs[i]].totalSize + h.chain.links[bs[i + 1]].totalSize <= ArenaSize
    ensures SuccessorFree(h, bs[i]) ==>
      MergeFirstAsWritten(h, bs[i], bs, i) == MergeNextAsWritten(h, bs[i], bs[i + 1])
  {
    MergeFirstTakesNext(h, bs, i);
  }

  /** The second branch as written is MergePrevAsWritten on bs[i] and its predecessor when that is free. */
  lemma MergeFreeMemAsWrittenTakesPrev(h: Heap, bs: seq<nat>, i: nat)
    requires Inv(h, bs) && 0 < i < |bs|
    ensures
      var h1, bs1 := MergeFirstAsWritten(h, bs[i], bs, i), FirstList(h, bs, i);
      h1.chain.links[bs[i]].prev == Some(bs1[i - 1]) &&
      MinBlock <= h1.chain.links[bs1[i - 1]].totalSize + h1.chain.links[bs[i]].totalSize <= ArenaSize &&
      (PredecessorFree(h1, bs[i]) <==> !h1.stacks.frees[bs1[i - 1]].isValid) &&
      (PredecessorFree(h1, bs[i]) ==>
        MergeFreeMemAsWritten(h, bs[i], bs, i) == MergePrevAsWritten(h1, bs[i], bs1[i - 1]) &&
        MergedListAsWritten(h, bs, i) == RemoveAt(bs1, i))
  {
    var h1, bs1 := MergeFirstAsWritten(h, bs[i], bs, i), FirstList(h, bs, i);
    PrevInList(h1.chain, bs1, i);
    MergePrevKeepsInv(h1, bs1, i);
  }

  /**
   * As written, a block m on top of its stack that its predecessor p
   * absorbs leaves its prev_free as the top of that stack, when neither
   * p's old class nor its new one is m's.
   */
  lemma MergePrevAsWrittenTop(h: Heap, m: nat, p: nat)
    requires Sound(h) && m in h.chain.links && p in h.chain.links && h.chain.links[m].prev == Some(p)
    requires MinBlock <= h.chain.links[p].totalSize + h.chain.links[m].totalSize <= ArenaSize
    requires h.stacks.freeTails[ClassOf(h.chain, m)] == Some(m)
    requires ClassOf(h.chain, p) != ClassOf(h.chain, m) && ClassOf(Grown(h.chain, p, m), p) != ClassOf(h.chain, m)
    ensures MergePrevAsWritten(h, m, p).stacks.freeTails[ClassOf(h.chain, m)] == h.stacks.frees[m].prevFree
  {
    RemoveMarks(h.stacks, h.chain, m);
    RemoveMarks(RemoveFromFreeList(h.stacks, h.chain, m), h.chain, p);
  }

  /**
   * Freeing a block with clean free links (no next_free, and no prev_free
   * when its stack is empty) that is not the tail and whose neighbours are
   * live is the same as written and corrected.
   */
  lemma FreeAsWrittenWithoutMerge(g: Globals, bs: seq<nat>, p: nat, i: nat)
    requires Inv(g.arena, bs) && Freeable(g.arena, bs, Some(p)) && Live(g.arena, p)
    requires i + 1 < |bs| && MetaOf(p) == bs[i]
    requires g.arena.stacks.frees[bs[i + 1]].isValid
    requires 0 < i ==> g.arena.stacks.frees[bs[i - 1]].isValid
    requires g.arena.stacks.frees[bs[i]].nextFree == None
    requires g.arena.stacks.freeTails[ClassOf(g.arena.chain, bs[i])] == None ==> g.arena.stacks.frees[bs[i]].prevFree == None
    ensures FreeAsWritten(g, Some(p), bs) == Free(g, Some(p), bs)
  {
    var m := bs[i];
    FreeWithoutMerge(g, bs, p, i);
    FreeInnerAsWritten(g, bs, p, i);
    AsWrittenAgreesOnCleanLinks(g.arena.stacks, g.arena.chain, m);
    Distinct(g.arena.chain, bs);
    NextInList(g.arena.chain, bs, i);
    PrevInList(g.arena.chain, bs, i);
    var h1 := g.arena.(stacks := AddToFreeList(g.arena.stacks, g.arena.chain, m));
    PushMarks(g.arena.stacks, g.arena.chain, m);
    assert !SuccessorFree(h1, m);
    assert MergeFirstAsWritten(h1, m, bs, i) == h1;
    assert !PredecessorFree(h1, m);
  }

  // ---------------------------------------------------------------------
  // The coalescing scenario as written

  /** Freeing the second of the five blocks as written: its links are clean, so it is Api.Free. */
  lemma FreeSecondAsWritten(g: Globals)
    requires FiveBlocks(g)
    ensures Freeable(g.arena, [0, 96, 192, 288, 384], Some(160))
    ensures FreeAsWritten(g, Some(160), [0, 96, 192, 288, 384]) == Free(g, Some(160), [0, 96, 192, 288, 384])
  {
    PlatformConstants();
    FreeSecond(g);
    var bs := [0, 96, 192, 288, 384];
    assert MetaOf(160) == 96;
    assert g.arena.stacks.frees[96] == FreeLink(None, None, true);
    FreeAsWrittenWithoutMerge(g, bs, 160, 1);
  }

  /** Freeing the fourth block next as written: its links are clean too, so it is Api.Free. */
  lemma FreeFourthAsWritten(g: Globals)
    requires OneFreed(g)
    ensures Freeable(g.arena, [0, 96, 192, 288, 384], Some(352))
    ensures FreeAsWritten(g, Some(352), [0, 96, 192, 288, 384]) == Free(g, Some(352), [0, 96, 192, 288, 384])
  {
    PlatformConstants();
    FreeFourth(g);
    var bs := [0, 96, 192, 288, 384];
    assert MetaOf(352) == 288;
    FreeAsWrittenWithoutMerge(g, bs, 352, 3);
  }

  /** The second and then the fourth block freed as written: the same globals as Api.FreeSecondAndFourth. */
  ghost function FreeSecondAndFourthAsWritten(g: Globals): (r: Globals)
    requires FiveBlocks(g)
    ensures r == FreeSecondAndFourth(g) && TwoFreed(r)
  {
    FreeSecondAsWritten(g);
    FreeSecond(g);
    FreeFourthAsWritten(Free(g, Some(160), [0, 96, 192, 288, 384]));
    FreeAsWritten(FreeAsWritten(g, Some(160), [0, 96, 192, 288, 384]), Some(352), [0, 96, 192, 288, 384])
  }

  /**
   * The first merge of the third free as written: the third block absorbs
   * the fourth and goes on the empty class-7 stack still carrying the
   * fourth block as its prev_free.
   */
  lemma FreeThirdMergeNextAsWritten(g: Globals)
    requires TwoFreed(g)
    ensures SizeClass(192) == 7 && 7 < NumSizeClasses
    ensures
      var h1 := g.arena.(stacks := AddToFreeListAsWritten(g.arena.stacks, g.arena.chain, 192));
      h1 == g.arena.(stacks := AddToFreeList(g.arena.stacks, g.arena.chain, 192)) &&
      Inv(h1, [0, 96, 192, 288, 384])
    ensures
      var h1 := g.arena.(stacks := AddToFreeListAsWritten(g.arena.stacks, g.arena.chain, 192));
      MergeFirstAsWritten(h1, 192, [0, 96, 192, 288, 384], 2).stacks.freeTails ==
        Initial().arena.stacks.freeTails[1 := Some(96)][7 := Some(192)]
    ensures
      var h1 := g.arena.(stacks := AddToFreeListAsWritten(g.arena.stacks, g.arena.chain, 192));
      var h2 := MergeFirstAsWritten(h1, 192, [0, 96, 192, 288, 384], 2);
      h2.stacks.frees[192] == FreeLink(None, Some(288), false) && !h2.stacks.frees[96].isValid
  {
    Request128();
    FreeThirdPush(g);
    FreeThirdUnfree(g);
    FreeThirdMergeNext(g);
    var bs := [0, 96, 192, 288, 384];
    var h1 := g.arena.(stacks := AddToFreeListAsWritten(g.arena.stacks, g.arena.chain, 192));
    MergeFirstAsWrittenTakesNext(h1, bs, 2);
    var u := Unfree(h1.stacks, h1.chain, 192, 288);
    var c2 := Grown(h1.chain, 192, 288);
    assert ClassOf(c2, 192) == 7 && u.freeTails[7] == None;
    PushOnEmptyAsWritten(u, c2, 192);
  }

  /**
   * Both merges of the third free as written: the address list is the
   * one Api.Free leaves, but the class-7 stack, empty before the free,
   * now has the fourth block, absorbed into the second, as its top.
   */
  lemma FreeThirdTopsAsWritten(g: Globals)
    requires TwoFreed(g)
    ensures Freeable(g.arena, [0, 96, 192, 288, 384], Some(256))
    ensures 7 < NumSizeClasses
    ensures
      var g8 := FreeAsWritten(g, Some(256), [0, 96, 192, 288, 384]);
      g8.arena.chain == Free(g, Some(256), [0, 96, 192, 288, 384]).arena.chain && g8.err == g.err &&
      g8.arena.stacks.freeTails[7] == Some(288) && !Live(g8.arena, 160)
  {
    Request32();
    Request128();
    FreeThirdPush(g);
    FreeThirdMergeNext(g);
    FreeThirdMergeNextStacks(g);
    FreeThirdMergeNextAsWritten(g);
    var bs := [0, 96, 192, 288, 384];
    var h1 := g.arena.(stacks := AddToFreeListAsWritten(g.arena.stacks, g.arena.chain, 192));
    FreeInner(g, bs, 256, 2);
    FreeInnerAsWritten(g, bs, 256, 2);
    MergeFreeMemTakesPrev(h1, bs, 2);
    MergeFreeMemAsWrittenTakesPrev(h1, bs, 2);
    var h2 := MergeFirstAsWritten(h1, 192, bs, 2);
    var c2 := h2.chain;
    assert c2 == MergeFirst(h1, 192, bs, 2).chain;
    assert c2.links[96].totalSize == 96 by {
      assert Adjacent(c2, [0, 96, 192, 384], 1);
    }
    assert ClassOf(c2, 192) == 7 && ClassOf(c2, 96) == 1;
    assert ClassOf(Grown(c2, 96, 192), 96) == 13;
    MergePrevAsWrittenTop(h2, 192, 96);
    assert MetaOf(160) == 96;
  }

  /**
   * After the third free as written, a 128-byte request (class 7) pops
   * the fourth block's record and returns 352, although that record lies
   * inside the 288-byte block at 96, which is marked free; the address
   * list is left as it was.
   */
  lemma ThirdFreeThenAllocAsWritten(g: Globals)
    requires TwoFreed(g)
    ensures Freeable(g.arena, [0, 96, 192, 288, 384], Some(256))
    ensures SizeClass(TotalSize(128)) == 7 && 7 < NumSizeClasses
    ensures
      var g8 := FreeAsWritten(g, Some(256), [0, 96, 192, 288, 384]);
      Inv(g8.arena, [0, 96, 384]) && 96 in g8.arena.chain.links && g8.arena.chain.links[96].totalSize == 288 &&
      !Live(g8.arena, 160) &&
      g8.arena.stacks.freeTails[7] == Some(288) && Alloc(g8, 128).ptr == Some(352) &&
      Alloc(g8, 128).g.arena.chain == g8.arena.chain
  {
    Request128();
    ScenarioPayloads();
    FreeThirdList(g);
    FreeThirdTopsAsWritten(g);
    var g8 := FreeAsWritten(g, Some(256), [0, 96, 192, 288, 384]);
    AllocFromFreeList(g8, 128);
  }

  /**
   * The coalescing scenario as written, on the five blocks that five
   * 32-byte requests carve from a fresh arena (Api.FiveAllocations):
   * where Api.CoalescingScenario carves the 128-byte request at 544, the
   * code as written hands out 352, inside a block marked free.
   */
  lemma CoalescingScenarioAsWritten(g5: Globals)
    requires FiveBlocks(g5)
    ensures SizeClass(TotalSize(128)) == 7 && 7 < NumSizeClasses
    ensures
      var g := FreeSecondAndFourthAsWritten(g5);
      Freeable(g.arena, [0, 96, 192, 288, 384], Some(256)) &&
      var g8 := FreeAsWritten(g, Some(256), [0, 96, 192, 288, 384]);
      Inv(g8.arena, [0, 96, 384]) && 96 in g8.arena.chain.links && g8.arena.chain.links[96].totalSize == 288 &&
      !Live(g8.arena, 160) &&
      g8.arena.stacks.freeTails[7] == Some(288) && Alloc(g8, 128).ptr == Some(352)
  {
    ThirdFreeThenAllocAsWritten(FreeSecondAndFourthAsWritten(g5));
  }
}

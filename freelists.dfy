/**
 * The shape of the per-class free lists.  Each free_tails[k] is the top of
 * a stack threaded through next_free/prev_free: prev_free points down
 * towards the oldest entry, next_free up towards the top.
 */
module FreeLists {
  import opened Wrappers
  import opened Sizes
  import opened Blocks
  import opened Carving

  /**
   * st, from bottom to top, is the stack of class k: the top is the last
   * element, each entry links to its neighbours and to nothing beyond the
   * ends, each is marked free, belongs to class k and appears once.
   */
  ghost predicate IsStack(s: Stacks, c: Chain, k: nat, st: seq<nat>)
    requires ChainOk(c) && k < |s.freeTails|
  {
    s.freeTails[k] == (if st == [] then None else Some(st[|st| - 1])) &&
    (forall j | 0 <= j < |st| :: st[j] in c.links) &&
    (forall j | 0 <= j < |st| :: StackEntry(s, c, k, st, j)) &&
    (forall i, j | 0 <= i < j < |st| :: st[i] != st[j])
  }

  /** Entry j of the stack st of class k is a free block of class k linked to its neighbours. */
  ghost predicate StackEntry(s: Stacks, c: Chain, k: nat, st: seq<nat>, j: nat)
    requires ChainOk(c) && j < |st|
  {
    st[j] in c.links && st[j] in s.frees &&
    ClassOf(c, st[j]) == k && !s.frees[st[j]].isValid &&
    s.frees[st[j]].prevFree == (if j == 0 then None else Some(st[j - 1])) &&
    s.frees[st[j]].nextFree == (if j == |st| - 1 then None else Some(st[j + 1]))
  }

  /** What add_to_free_list writes: the block's free half and the old top's next_free, then the top. */
  lemma AddToFreeListEffect(s: Stacks, c: Chain, m: nat)
    requires ChainOk(c) && StacksOk(s, c.links.Keys) && m in c.links
    ensures
      var top := s.freeTails[ClassOf(c, m)];
      var f0 := s.frees[m := FreeLink(None, top, false)];
      AddToFreeList(s, c, m) ==
        Stacks(if top.Some? then f0[top.value := f0[top.value].(nextFree := Some(m))] else f0,
               s.freeTails[ClassOf(c, m) := Some(m)])
  {
  }

  /** The entry at index j of the stack after a push. */
  lemma PushEntry(s: Stacks, c: Chain, st: seq<nat>, m: nat, j: nat)
    requires ChainOk(c) && StacksOk(s, c.links.Keys) && m in c.links
    requires IsStack(s, c, ClassOf(c, m), st) && m !in st && j <= |st|
    ensures StackEntry(AddToFreeList(s, c, m), c, ClassOf(c, m), st + [m], j)
  {
    AddToFreeListEffect(s, c, m);
    if j < |st| {
      assert StackEntry(s, c, ClassOf(c, m), st, j);
      if j < |st| - 1 {
        assert st[j] != st[|st| - 1];
      }
    }
  }

  /** Pushing a block on the stack of its class makes it the new top, whatever links it held before. */
  lemma PushStack(s: Stacks, c: Chain, st: seq<nat>, m: nat)
    requires ChainOk(c) && StacksOk(s, c.links.Keys) && m in c.links
    requires IsStack(s, c, ClassOf(c, m), st) && m !in st
    ensures IsStack(AddToFreeList(s, c, m), c, ClassOf(c, m), st + [m])
  {
    AddToFreeListEffect(s, c, m);
    forall j | 0 <= j <= |st| ensures StackEntry(AddToFreeList(s, c, m), c, ClassOf(c, m), st + [m], j) {
      PushEntry(s, c, st, m, j);
    }
  }

  /** What remove_from_free_list writes when the block does not link to itself. */
  lemma RemoveFromFreeListEffect(s: Stacks, c: Chain, m: nat)
    requires ChainOk(c) && StacksOk(s, c.links.Keys) && m in c.links
    requires FreeOk(c.links.Keys, s.frees[m])
    requires s.frees[m].nextFree != Some(m) && s.frees[m].prevFree != Some(m)
    ensures
      var nf := s.frees[m].nextFree;
      var pf := s.frees[m].prevFree;
      var f0 := s.frees[m := s.frees[m].(isValid := true)];
      var f1 := if nf.Some? then f0[nf.value := f0[nf.value].(prevFree := pf)] else f0;
      var f2 := if pf.Some? then f1[pf.value := f1[pf.value].(nextFree := nf)] else f1;
      RemoveFromFreeList(s, c, m) ==
        Stacks(f2, if s.freeTails[ClassOf(c, m)] == Some(m) then s.freeTails[ClassOf(c, m) := pf] else s.freeTails)
  {
  }

  /** The entry at index t of the stack after its entry j was removed. */
  lemma RemoveEntry(s: Stacks, c: Chain, k: nat, st: seq<nat>, j: nat, t: nat)
    requires ChainOk(c) && StacksOk(s, c.links.Keys) && k < NumSizeClasses
    requires IsStack(s, c, k, st) && j < |st| && t < |st| - 1
    ensures StackEntry(RemoveFromFreeList(s, c, st[j]), c, k, RemoveAt(st, j), t)
  {
    assert StackEntry(s, c, k, st, j);
    FreeAt(s, c.links.Keys, st[j]);
    RemoveFromFreeListEffect(s, c, st[j]);
    if t < j {
      assert StackEntry(s, c, k, st, t);
      assert st[t] != st[j];
      if t > 0 {
        assert st[t - 1] != st[j];
      }
      if t + 1 < j {
        assert st[t + 1] != st[j];
      }
    } else {
      assert StackEntry(s, c, k, st, t + 1);
      assert st[t + 1] != st[j];
      if t > j {
        assert st[t] != st[j];
      }
      if t + 2 < |st| {
        assert st[t + 2] != st[j];
      }
    }
  }

  /**
   * Removing the entry j of a stack leaves the stack without it, its
   * neighbours linked to each other, and marks the block live.
   */
  lemma RemoveStack(s: Stacks, c: Chain, k: nat, st: seq<nat>, j: nat)
    requires ChainOk(c) && StacksOk(s, c.links.Keys) && k < NumSizeClasses
    requires IsStack(s, c, k, st) && j < |st|
    ensures IsStack(RemoveFromFreeList(s, c, st[j]), c, k, RemoveAt(st, j))
    ensures RemoveFromFreeList(s, c, st[j]).frees[st[j]].isValid
  {
    assert StackEntry(s, c, k, st, j);
    FreeAt(s, c.links.Keys, st[j]);
    RemoveFromFreeListEffect(s, c, st[j]);
    forall t | 0 <= t < |st| - 1 ensures StackEntry(RemoveFromFreeList(s, c, st[j]), c, k, RemoveAt(st, j), t) {
      RemoveEntry(s, c, k, st, j, t);
    }
    if j > 0 {
      assert st[j - 1] != st[j];
    }
    if j < |st| - 1 {
      assert st[j + 1] != st[j];
    }
  }

  /** A push on the stack of class k leaves the stack of another class as it was. */
  lemma PushOther(s: Stacks, c: Chain, st: seq<nat>, m: nat, k2: nat, st2: seq<nat>)
    requires ChainOk(c) && StacksOk(s, c.links.Keys) && m in c.links
    requires IsStack(s, c, ClassOf(c, m), st) && k2 < NumSizeClasses && k2 != ClassOf(c, m)
    requires IsStack(s, c, k2, st2)
    ensures IsStack(AddToFreeList(s, c, m), c, k2, st2)
  {
    AddToFreeListEffect(s, c, m);
    if st != [] {
      assert StackEntry(s, c, ClassOf(c, m), st, |st| - 1);
    }
    forall t | 0 <= t < |st2| ensures StackEntry(AddToFreeList(s, c, m), c, k2, st2, t) {
      assert StackEntry(s, c, k2, st2, t);
    }
  }

  /** Removing an entry of the stack of class k leaves the stack of another class as it was. */
  lemma RemoveOther(s: Stacks, c: Chain, k: nat, st: seq<nat>, j: nat, k2: nat, st2: seq<nat>)
    requires ChainOk(c) && StacksOk(s, c.links.Keys) && k < NumSizeClasses
    requires IsStack(s, c, k, st) && j < |st| && k2 < NumSizeClasses && k2 != k
    requires IsStack(s, c, k2, st2)
    ensures IsStack(RemoveFromFreeList(s, c, st[j]), c, k2, st2)
  {
    assert StackEntry(s, c, k, st, j);
    FreeAt(s, c.links.Keys, st[j]);
    RemoveFromFreeListEffect(s, c, st[j]);
    if j > 0 {
      assert StackEntry(s, c, k, st, j - 1);
    }
    if j < |st| - 1 {
      assert StackEntry(s, c, k, st, j + 1);
    }
    forall t | 0 <= t < |st2| ensures StackEntry(RemoveFromFreeList(s, c, st[j]), c, k2, st2, t) {
      assert StackEntry(s, c, k2, st2, t);
    }
  }

  /** sts[k] is the stack of class k, for every class. */
  ghost predicate AllStacks(s: Stacks, c: Chain, sts: seq<seq<nat>>)
    requires ChainOk(c)
  {
    |sts| == NumSizeClasses && |s.freeTails| == NumSizeClasses &&
    forall k | 0 <= k < NumSizeClasses :: IsStack(s, c, k, sts[k])
  }

  /** add_to_free_list pushes the block on the stack of its own class and on no other. */
  lemma PushAll(s: Stacks, c: Chain, sts: seq<seq<nat>>, m: nat)
    requires ChainOk(c) && StacksOk(s, c.links.Keys) && m in c.links
    requires AllStacks(s, c, sts) && m !in sts[ClassOf(c, m)]
    ensures AllStacks(AddToFreeList(s, c, m), c, sts[ClassOf(c, m) := sts[ClassOf(c, m)] + [m]])
  {
    var k := ClassOf(c, m);
    PushStack(s, c, sts[k], m);
    forall k2 | 0 <= k2 < NumSizeClasses && k2 != k ensures IsStack(AddToFreeList(s, c, m), c, k2, sts[k2]) {
      PushOther(s, c, sts[k], m, k2, sts[k2]);
    }
  }

  /** remove_from_free_list on entry j of the stack of class k takes it out of that stack and of no other. */
  lemma RemoveAll(s: Stacks, c: Chain, sts: seq<seq<nat>>, k: nat, j: nat)
    requires ChainOk(c) && StacksOk(s, c.links.Keys)
    requires AllStacks(s, c, sts) && k < NumSizeClasses && j < |sts[k]|
    ensures AllStacks(RemoveFromFreeList(s, c, sts[k][j]), c, sts[k := RemoveAt(sts[k], j)])
    ensures RemoveFromFreeList(s, c, sts[k][j]).frees[sts[k][j]].isValid
  {
    RemoveStack(s, c, k, sts[k], j);
    forall k2 | 0 <= k2 < NumSizeClasses && k2 != k
      ensures IsStack(RemoveFromFreeList(s, c, sts[k][j]), c, k2, sts[k2])
    {
      RemoveOther(s, c, k, sts[k], j, k2, sts[k2]);
    }
  }

  /**
   * use_free_list pops the top of the stack of the request's class: the
   * block pushed last comes back first, it is exactly TOTAL_SIZE(size)
   * bytes long, and the other stacks are untouched.
   */
  lemma PopStack(h: Heap, sts: seq<seq<nat>>, size: SizeT)
    requires Sound(h) && SizeClass(TotalSize(size)) < NumSizeClasses
    requires AllStacks(h.stacks, h.chain, sts) && sts[SizeClass(TotalSize(size))] != []
    ensures h.stacks.freeTails[SizeClass(TotalSize(size))].Some?
    ensures
      var st := sts[SizeClass(TotalSize(size))];
      var r := UseFreeList(h, size);
      r.data == DataOf(st[|st| - 1]) &&
      h.chain.links[st[|st| - 1]].totalSize == TotalSize(size) &&
      AllStacks(r.heap.stacks, r.heap.chain, sts[SizeClass(TotalSize(size)) := st[..|st| - 1]])
  {
    var k := SizeClass(TotalSize(size));
    var st := sts[k];
    assert IsStack(h.stacks, h.chain, k, st);
    assert StackEntry(h.stacks, h.chain, k, st, |st| - 1);
    RemoveAll(h.stacks, h.chain, sts, k, |st| - 1);
    assert RemoveAt(st, |st| - 1) == st[..|st| - 1];
    LinkAt(h.chain, st[|st| - 1]);
    AlignedClass(h.chain.links[st[|st| - 1]].totalSize, size);
  }

  /**
   * The free lists are last in, first out: a block pushed on the stack of
   * its class is the next one use_free_list hands out for a request of
   * that class, and the stack is left as it was before the push.
   */
  lemma PushThenPop(h: Heap, st: seq<nat>, m: nat, size: SizeT)
    requires Sound(h) && m in h.chain.links && SizeClass(TotalSize(size)) < NumSizeClasses
    requires ClassOf(h.chain, m) == SizeClass(TotalSize(size))
    requires IsStack(h.stacks, h.chain, ClassOf(h.chain, m), st) && m !in st
    ensures
      var h1 := h.(stacks := AddToFreeList(h.stacks, h.chain, m));
      h1.stacks.freeTails[SizeClass(TotalSize(size))] == Some(m) &&
      UseFreeList(h1, size).data == DataOf(m) &&
      IsStack(UseFreeList(h1, size).heap.stacks, h.chain, ClassOf(h.chain, m), st)
  {
    var k := ClassOf(h.chain, m);
    PushStack(h.stacks, h.chain, st, m);
    var s1 := AddToFreeList(h.stacks, h.chain, m);
    RemoveStack(s1, h.chain, k, st + [m], |st|);
    assert RemoveAt(st + [m], |st|) == st;
  }

  // ---------------------------------------------------------------------
  // add_to_free_list as written

  /**
   * add_to_free_list as the code writes it: prev_free is set only when the
   * stack is non-empty, and next_free is never written, so a block pushed
   * on an empty stack keeps whatever prev_free it had.
   */
  ghost function AddToFreeListAsWritten(s: Stacks, c: Chain, m: nat): (r: Stacks)
    requires ChainOk(c) && StacksOk(s, c.links.Keys) && m in c.links
    ensures StacksOk(r, c.links.Keys)
    ensures r.freeTails == s.freeTails[ClassOf(c, m) := Some(m)] && !r.frees[m].isValid
    ensures forall a | a in s.frees && a != m :: r.frees[a].isValid == s.frees[a].isValid
  {
    var keys := c.links.Keys;
    var k := ClassOf(c, m);
    var top := s.freeTails[k];
    FreeAt(s, keys, m);
    PutFree(s, keys, m, s.frees[m].(isValid := false));
    var s0 := s.(frees := s.frees[m := s.frees[m].(isValid := false)]);
    var s2 :=
      if top.Some? then
        FreeAt(s0, keys, m);
        PutFree(s0, keys, m, s0.frees[m].(prevFree := top));
        var s1 := s0.(frees := s0.frees[m := s0.frees[m].(prevFree := top)]);
        FreeAt(s1, keys, top.value);
        PutFree(s1, keys, top.value, s1.frees[top.value].(nextFree := Some(m)));
        s1.(frees := s1.frees[top.value := s1.frees[top.value].(nextFree := Some(m))])
      else s0;
    PutTop(s2, keys, k, Some(m));
    s2.(freeTails := s2.freeTails[k := Some(m)])
  }

  /** On a block whose free links are clean the code as written and the corrected push agree. */
  lemma AsWrittenAgreesOnCleanLinks(s: Stacks, c: Chain, m: nat)
    requires ChainOk(c) && StacksOk(s, c.links.Keys) && m in c.links
    requires s.frees[m].nextFree == None
    requires s.freeTails[ClassOf(c, m)] == None ==> s.frees[m].prevFree == None
    ensures AddToFreeListAsWritten(s, c, m) == AddToFreeList(s, c, m)
  {
    AddToFreeListEffect(s, c, m);
  }

  /**
   * add_to_free_list as written pushes a block with clean free links (no
   * next_free, and no prev_free when the stack is empty) on the stack of
   * its class, as the block's new top.
   */
  lemma PushStackAsWritten(s: Stacks, c: Chain, st: seq<nat>, m: nat)
    requires ChainOk(c) && StacksOk(s, c.links.Keys) && m in c.links
    requires IsStack(s, c, ClassOf(c, m), st) && m !in st
    requires s.frees[m].nextFree == None
    requires st == [] ==> s.frees[m].prevFree == None
    ensures IsStack(AddToFreeListAsWritten(s, c, m), c, ClassOf(c, m), st + [m])
  {
    AsWrittenAgreesOnCleanLinks(s, c, m);
    PushStack(s, c, st, m);
  }

  /** Pushed on an empty stack, a block gets clean free links: nothing above it, nothing below. */
  lemma PushOnEmpty(s: Stacks, c: Chain, m: nat)
    requires ChainOk(c) && StacksOk(s, c.links.Keys) && m in c.links
    requires s.freeTails[ClassOf(c, m)] == None
    ensures AddToFreeList(s, c, m) ==
      Stacks(s.frees[m := FreeLink(None, None, false)], s.freeTails[ClassOf(c, m) := Some(m)])
  {
    AddToFreeListEffect(s, c, m);
  }

  /** Pushed on an empty stack as written, a block keeps whatever free links it had. */
  lemma PushOnEmptyAsWritten(s: Stacks, c: Chain, m: nat)
    requires ChainOk(c) && StacksOk(s, c.links.Keys) && m in c.links
    requires s.freeTails[ClassOf(c, m)] == None
    ensures AddToFreeListAsWritten(s, c, m) ==
      Stacks(s.frees[m := s.frees[m].(isValid := false)], s.freeTails[ClassOf(c, m) := Some(m)])
  {
  }

  /**
   * The defect: a block with a stale prev_free x pushed on an empty stack
   * and removed again leaves x as the top of the stack, although the stack
   * was empty.  merge_free_mem does exactly this push and removal when a
   * freed block absorbs its successor and is then absorbed by its
   * predecessor; x is the absorbed successor, whose record is no block of
   * the list any more, and the next carena_alloc of that class returns it.
   */
  lemma StaleTopAsWritten(s: Stacks, c: Chain, m: nat, x: nat)
    requires ChainOk(c) && StacksOk(s, c.links.Keys) && m in c.links
    requires s.freeTails[ClassOf(c, m)] == None
    requires s.frees[m].prevFree == Some(x) && s.frees[m].nextFree == None && x != m
    ensures RemoveFromFreeList(AddToFreeListAsWritten(s, c, m), c, m).freeTails[ClassOf(c, m)] == Some(x)
  {
  }

  /**
   * The intended behaviour, proved for the corrected push: pushing and
   * then removing a block restores an empty stack whatever links the
   * block carried.
   */
  lemma PushPopEmpty(s: Stacks, c: Chain, m: nat)
    requires ChainOk(c) && StacksOk(s, c.links.Keys) && m in c.links
    requires IsStack(s, c, ClassOf(c, m), [])
    ensures IsStack(RemoveFromFreeList(AddToFreeList(s, c, m), c, m), c, ClassOf(c, m), [])
    ensures RemoveFromFreeList(AddToFreeList(s, c, m), c, m).freeTails[ClassOf(c, m)] == None
  {
    PushStack(s, c, [], m);
    RemoveStack(AddToFreeList(s, c, m), c, ClassOf(c, m), [m], 0);
    assert RemoveAt([m], 0) == [];
  }
}

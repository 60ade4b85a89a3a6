/**
 * arena_t and the static inline helpers of carena_private.h as a class
 * whose methods update the arena in place.  The metadata records are
 * kept in two maps keyed by the record's offset (their list half and
 * their free-list half), free_tails is the fixed-size array of stack
 * tops, and tail and offset are plain fields.  Each method is specified
 * by the function of the same name in Blocks or Carving applied to the
 * state before the call.
 */
module PrivateArena {
  import opened Wrappers
  import opened Sizes
  import opened Blocks
  import opened Carving

  class Arena {
    var links: map<nat, Link>
    var frees: map<nat, FreeLink>
    const freeTails: array<Option<nat>>
    var tail: Option<nat>
    var offset: nat

    /** The arena as a value. */
    ghost function State(): Heap
      reads this, freeTails
    {
      Heap(Chain(links, tail, offset), Stacks(frees, freeTails[..]))
    }

    ghost predicate Valid()
      reads this, freeTails
    {
      freeTails.Length == NumSizeClasses && Sound(State())
    }

    /** `arena_t arena = {0}`: no records, empty stacks, offset 0. */
    constructor ()
      ensures Valid() && State() == EmptyHeap() && fresh(freeTails)
    {
      links := map[];
      frees := map[];
      freeTails := new Option<nat>[NumSizeClasses](_ => None);
      tail := None;
      offset := 0;
    }

    /** SIZE_CLASS(meta->total_size) of a record, an index of free_tails. */
    method SizeClassOf(m: nat) returns (k: nat)
      requires Valid() && m in links
      ensures k == Blocks.ClassOf(State().chain, m) && k < freeTails.Length
    {
      LinkAt(State().chain, m);
      ClassInRange(links[m].totalSize);
      k := SizeClass(links[m].totalSize);
    }

    method AddToFreeList(m: nat)
      requires Valid() && m in links
      modifies this, freeTails
      ensures Valid()
      ensures State() == Heap(old(State()).chain, Blocks.AddToFreeList(old(State()).stacks, old(State()).chain, m))
    {
      ghost var h := State();
      var k := SizeClassOf(m);
      var top := freeTails[k];
      FreeAt(h.stacks, links.Keys, m);
      frees := frees[m := FreeLink(None, top, false)];
      if top.Some? {
        frees := frees[top.value := frees[top.value].(nextFree := Some(m))];
      }
      freeTails[k] := Some(m);
      assert State().stacks == Blocks.AddToFreeList(h.stacks, h.chain, m);
    }

    method RemoveFromFreeList(m: nat)
      requires Valid() && m in links
      modifies this, freeTails
      ensures Valid()
      ensures State() == Heap(old(State()).chain, Blocks.RemoveFromFreeList(old(State()).stacks, old(State()).chain, m))
    {
      ghost var h := State();
      FreeAt(h.stacks, links.Keys, m);
      frees := frees[m := frees[m].(isValid := true)];
      var k := SizeClassOf(m);
      if freeTails[k] == Some(m) {
        freeTails[k] := frees[m].prevFree;
      }
      var nf := frees[m].nextFree;
      if nf.Some? {
        frees := frees[nf.value := frees[nf.value].(prevFree := frees[m].prevFree)];
      }
      var pf := frees[m].prevFree;
      if pf.Some? {
        frees := frees[pf.value := frees[pf.value].(nextFree := frees[m].nextFree)];
      }
      assert State().stacks == Blocks.RemoveFromFreeList(h.stacks, h.chain, m);
    }

    method AddToList(m: nat)
      requires Valid() && m in links
      modifies this
      ensures Valid()
      ensures State() == Heap(Blocks.AddToList(old(State()).chain, m), old(State()).stacks)
    {
      ghost var h := State();
      LinkAt(h.chain, m);
      links := links[m := links[m].(prev := tail)];
      if tail.Some? {
        links := links[tail.value := links[tail.value].(next := Some(m))];
      }
      tail := Some(m);
      assert State().chain == Blocks.AddToList(h.chain, m);
    }

    method RemoveFromList(m: nat)
      requires Valid() && m in links
      modifies this
      ensures Valid()
      ensures State() == Heap(Blocks.RemoveFromList(old(State()).chain, m), old(State()).stacks)
    {
      ghost var h := State();
      LinkAt(h.chain, m);
      if tail == Some(m) {
        tail := links[m].prev;
      }
      var nx := links[m].next;
      if nx.Some? {
        links := links[nx.value := links[nx.value].(prev := links[m].prev)];
      }
      var pv := links[m].prev;
      if pv.Some? {
        links := links[pv.value := links[pv.value].(next := links[m].next)];
      }
      assert State().chain == Blocks.RemoveFromList(h.chain, m);
    }

    /** arena->offset = o, written directly by carena_free. */
    method SetOffset(o: nat)
      requires Valid()
      modifies this
      ensures Valid()
      ensures State() == old(State()).(chain := old(State()).chain.(offset := o))
    {
      offset := o;
    }

    /** meta->total_size += extra, for the two additions of merge_free_mem. */
    method Grow(a: nat, b: nat)
      requires Valid() && a in links && b in links
      requires MinBlock <= links[a].totalSize + links[b].totalSize <= ArenaSize
      modifies this
      ensures Valid()
      ensures State() == Heap(Grown(old(State()).chain, a, b), old(State()).stacks)
    {
      ghost var h := State();
      links := links[a := links[a].(totalSize := links[a].totalSize + links[b].totalSize)];
      assert State().chain == Grown(h.chain, a, b);
    }

    /** Both blocks of a merge leave their free lists. */
    method Unfree(a: nat, b: nat)
      requires Valid() && a in links && b in links
      modifies this, freeTails
      ensures Valid()
      ensures State() == Heap(old(State()).chain, Blocks.Unfree(old(State()).stacks, old(State()).chain, a, b))
    {
      RemoveFromFreeList(a);
      RemoveFromFreeList(b);
    }

    /** The first branch of merge_free_mem: m absorbs its successor n. */
    method MergeWithNext(m: nat, n: nat)
      requires Valid() && m in links && n in links && links[m].next == Some(n)
      requires MinBlock <= links[m].totalSize + links[n].totalSize <= ArenaSize
      modifies this, freeTails
      ensures Valid()
      ensures State() == MergeNext(old(State()), m, n)
    {
      ghost var h := State();
      Unfree(m, n);
      Grow(m, n);
      AddToFreeList(m);
      RemoveFromList(n);
    }

    /** The second branch of merge_free_mem: the predecessor p absorbs m. */
    method MergeWithPrev(m: nat, p: nat)
      requires Valid() && m in links && p in links && links[m].prev == Some(p)
      requires MinBlock <= links[p].totalSize + links[m].totalSize <= ArenaSize
      modifies this, freeTails
      ensures Valid()
      ensures State() == MergePrev(old(State()), m, p)
    {
      ghost var h := State();
      Unfree(m, p);
      Grow(p, m);
      AddToFreeList(p);
      RemoveFromList(m);
    }

    method MergeFreeMem(m: nat, ghost bs: seq<nat>, ghost i: nat)
      requires Valid() && Inv(State(), bs) && i < |bs| && bs[i] == m
      modifies this, freeTails
      ensures Valid()
      ensures State() == Blocks.MergeFreeMem(old(State()), m, bs, i)
    {
      ghost var h := State();
      NextInList(h.chain, bs, i);
      LinkAt(h.chain, m);
      var nx := links[m].next;
      if nx.Some? {
        FreeAt(h.stacks, links.Keys, nx.value);
      }
      if nx.Some? && !frees[nx.value].isValid {
        MergeNextKeepsInv(h, bs, i);
        MergeWithNext(m, nx.value);
      }
      assert State() == MergeFirst(h, m, bs, i);
      ghost var h1 := State();
      ghost var bs1 := FirstList(h, bs, i);
      PrevInList(h1.chain, bs1, i);
      LinkAt(h1.chain, m);
      var pv := links[m].prev;
      if pv.Some? {
        FreeAt(h1.stacks, links.Keys, pv.value);
      }
      if pv.Some? && !frees[pv.value].isValid {
        MergePrevKeepsInv(h1, bs1, i);
        MergeWithPrev(m, pv.value);
      }
    }

    method UseFreeList(size: SizeT) returns (data: nat)
      requires Valid() && SizeClass(TotalSize(size)) < NumSizeClasses
      requires freeTails[SizeClass(TotalSize(size))].Some?
      modifies this, freeTails
      ensures Valid()
      ensures Placed(State(), data) == Carving.UseFreeList(old(State()), size)
    {
      ghost var h := State();
      var m := freeTails[SizeClass(TotalSize(size))].value;
      RemoveFromFreeList(m);
      LinkAt(State().chain, m);
      assert links[m := links[m].(data := DataOf(m))] == links;
      links := links[m := links[m].(data := DataOf(m))];
      data := links[m].data;
    }

    method UseArena(size: SizeT) returns (data: nat)
      requires Valid() && SizeClass(TotalSize(size)) < NumSizeClasses
      modifies this
      ensures Valid()
      ensures Placed(State(), data) == Carving.UseArena(old(State()), size)
    {
      ghost var h := State();
      AcceptedSize(size);
      var o := offset;
      var t := TotalSize(size);
      links := links[o := Link(DataOf(o), t, None, None)];
      frees := frees[o := FreeLink(None, None, true)];
      assert State() == Carve(h, t);
      AddToList(o);
      offset := (offset + t) % Word;
      data := links[o].data;
    }
  }
}

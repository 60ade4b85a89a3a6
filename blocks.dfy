/**
 * The block records of the arena and the list primitives of
 * carena_private.h, as functions on an explicit value of the arena's
 * bookkeeping.  The class in arena.dfy performs the same updates in place
 * and is specified by these functions.
 *
 * A pointer is a byte offset into the arena's buffer.  The metadata record
 * meta_t of the block at offset a is kept in two maps keyed by a: the
 * fields of the address-ordered list (data, total_size, next, prev) live in
 * the Chain together with tail and offset, and the fields of the free-list
 * stacks (next_free, prev_free, is_valid) live in the Stacks together with
 * free_tails.  Records are never erased: like the bytes of the buffer, a
 * record outlives the block it described until a new block is carved at
 * the same offset.
 */
module Blocks {
  import opened Wrappers
  import opened Sizes

  /** The address-list half of meta_t. */
  datatype Link = Link(data: nat, totalSize: nat, next: Option<nat>, prev: Option<nat>)

  /** The free-list half of meta_t. */
  datatype FreeLink = FreeLink(nextFree: Option<nat>, prevFree: Option<nat>, isValid: bool)

  /** The address-ordered list: list halves of the records, arena->tail and arena->offset. */
  datatype Chain = Chain(links: map<nat, Link>, tail: Option<nat>, offset: nat)

  /** The free lists: free halves of the records and arena->free_tails. */
  datatype Stacks = Stacks(frees: map<nat, FreeLink>, freeTails: seq<Option<nat>>)

  /** arena_t without the payload bytes. */
  datatype Heap = Heap(chain: Chain, stacks: Stacks)

  /** A zero-initialised arena. */
  ghost function EmptyHeap(): Heap
  {
    Heap(Chain(map[], None, 0), Stacks(map[], seq(NumSizeClasses, _ => None)))
  }

  predicate LinkIn(l: Option<nat>, keys: set<nat>)
  {
    l.Some? ==> l.value in keys
  }

  /** The list half x may stand at offset a: a size the arena holds, the payload right after it, links to records. */
  ghost predicate LinkOk(ls: map<nat, Link>, a: nat, x: Link)
  {
    MinBlock <= x.totalSize <= ArenaSize && x.totalSize % MinAllocation == 0 && x.data == DataOf(a) &&
    LinkIn(x.next, ls.Keys) && LinkIn(x.prev, ls.Keys)
  }

  /** The free half f links to records. */
  ghost predicate FreeOk(keys: set<nat>, f: FreeLink)
  {
    LinkIn(f.nextFree, keys) && LinkIn(f.prevFree, keys)
  }

  /** Every list half fits its offset and every list pointer leads to a record. */
  ghost predicate ChainOk(c: Chain)
  {
    LinkIn(c.tail, c.links.Keys) &&
    forall a {:trigger LinkOk(c.links, a, c.links[a])} | a in c.links :: LinkOk(c.links, a, c.links[a])
  }

  /**
   * The records at offsets keys all have a free half, there is one stack
   * top per class, and every free-list pointer leads to a record.
   */
  ghost predicate StacksOk(s: Stacks, keys: set<nat>)
  {
    |s.freeTails| == NumSizeClasses && s.frees.Keys == keys &&
    (forall c | 0 <= c < |s.freeTails| :: LinkIn(s.freeTails[c], keys)) &&
    forall a {:trigger FreeOk(keys, s.frees[a])} | a in s.frees :: FreeOk(keys, s.frees[a])
  }

  /**
   * What every reachable arena satisfies and every primitive needs.  It
   * says nothing about the shape of the free lists.
   */
  ghost predicate Sound(h: Heap)
  {
    ChainOk(h.chain) && StacksOk(h.stacks, h.chain.links.Keys)
  }

  lemma LinkAt(c: Chain, a: nat)
    requires ChainOk(c) && a in c.links
    ensures LinkOk(c.links, a, c.links[a])
  {
  }

  lemma FreeAt(s: Stacks, keys: set<nat>, a: nat)
    requires StacksOk(s, keys) && a in keys
    ensures a in s.frees && FreeOk(keys, s.frees[a])
  {
  }

  /** Overwriting the list half of a record with one that fits keeps ChainOk. */
  lemma PutLink(c: Chain, a: nat, x: Link)
    requires ChainOk(c) && a in c.links && LinkOk(c.links, a, x)
    ensures ChainOk(c.(links := c.links[a := x]))
    ensures c.links[a := x].Keys == c.links.Keys
  {
    var ls := c.links[a := x];
    assert ls.Keys == c.links.Keys;
    forall b | b in ls ensures LinkOk(ls, b, ls[b]) {
      if b != a {
        assert LinkOk(c.links, b, c.links[b]);
      }
    }
  }

  /** Overwriting the free half of a record with one that links to records keeps StacksOk. */
  lemma PutFree(s: Stacks, keys: set<nat>, a: nat, f: FreeLink)
    requires StacksOk(s, keys) && a in keys && FreeOk(keys, f)
    ensures StacksOk(s.(frees := s.frees[a := f]), keys)
  {
    var fs := s.frees[a := f];
    assert fs.Keys == s.frees.Keys;
    forall b | b in fs ensures FreeOk(keys, fs[b]) {
      if b != a {
        assert FreeOk(keys, s.frees[b]);
      }
    }
  }

  /** Overwriting the top of one class stack with a pointer to a record keeps StacksOk. */
  lemma PutTop(s: Stacks, keys: set<nat>, c: nat, t: Option<nat>)
    requires StacksOk(s, keys) && c < NumSizeClasses && LinkIn(t, keys)
    ensures StacksOk(s.(freeTails := s.freeTails[c := t]), keys)
  {
  }

  /** SIZE_CLASS(meta->total_size), always an index of free_tails. */
  ghost function ClassOf(c: Chain, a: nat): (k: nat)
    requires ChainOk(c) && a in c.links
    ensures k < NumSizeClasses && c.links[a].totalSize <= ArenaSize
    ensures k == SizeClass(c.links[a].totalSize)
  {
    LinkAt(c, a);
    ClassInRange(c.links[a].totalSize);
    SizeClass(c.links[a].totalSize)
  }

  // ---------------------------------------------------------------------
  // The primitives of carena_private.h

  /**
   * add_to_free_list, as corrected: mark the block free and push it on
   * the stack of its class (read from the chain), setting both of its
   * free links.  The code as written sets prev_free only when the stack is
   * non-empty and never sets next_free; FreeLists.AddToFreeListAsWritten
   * models it and shows what the stale links do.
   */
  ghost function AddToFreeList(s: Stacks, c: Chain, m: nat): (r: Stacks)
    requires ChainOk(c) && StacksOk(s, c.links.Keys) && m in c.links
    ensures StacksOk(r, c.links.Keys)
  {
    var keys := c.links.Keys;
    var k := ClassOf(c, m);
    var top := s.freeTails[k];
    FreeAt(s, keys, m);
    PutFree(s, keys, m, FreeLink(None, top, false));
    var s0 := s.(frees := s.frees[m := FreeLink(None, top, false)]);
    var s1 :=
      if top.Some? then
        FreeAt(s0, keys, top.value);
        PutFree(s0, keys, top.value, s0.frees[top.value].(nextFree := Some(m)));
        s0.(frees := s0.frees[top.value := s0.frees[top.value].(nextFree := Some(m))])
      else s0;
    PutTop(s1, keys, k, Some(m));
    s1.(freeTails := s1.freeTails[k := Some(m)])
  }

  /** remove_from_free_list: mark the block live and unlink it from the stack of its class. */
  ghost function RemoveFromFreeList(s: Stacks, c: Chain, m: nat): (r: Stacks)
    requires ChainOk(c) && StacksOk(s, c.links.Keys) && m in c.links
    ensures StacksOk(r, c.links.Keys)
  {
    var keys := c.links.Keys;
    var k := ClassOf(c, m);
    FreeAt(s, keys, m);
    PutFree(s, keys, m, s.frees[m].(isValid := true));
    var s0 := s.(frees := s.frees[m := s.frees[m].(isValid := true)]);
    FreeAt(s0, keys, m);
    var nf := s0.frees[m].nextFree;
    var s1 :=
      if nf.Some? then
        FreeAt(s0, keys, nf.value);
        PutFree(s0, keys, nf.value, s0.frees[nf.value].(prevFree := s0.frees[m].prevFree));
        s0.(frees := s0.frees[nf.value := s0.frees[nf.value].(prevFree := s0.frees[m].prevFree)])
      else s0;
    FreeAt(s1, keys, m);
    var pf := s1.frees[m].prevFree;
    var s2 :=
      if pf.Some? then
        FreeAt(s1, keys, pf.value);
        PutFree(s1, keys, pf.value, s1.frees[pf.value].(nextFree := s1.frees[m].nextFree));
        s1.(frees := s1.frees[pf.value := s1.frees[pf.value].(nextFree := s1.frees[m].nextFree)])
      else s1;
    if s.freeTails[k] == Some(m) then
      PutTop(s2, keys, k, s0.frees[m].prevFree);
      s2.(freeTails := s2.freeTails[k := s0.frees[m].prevFree])
    else s2
  }

  /**
   * add_to_free_list marks the block free and makes it the top of the
   * stack of its class, leaving every other stack top and the mark of
   * every other block as they were.
   */
  lemma PushMarks(s: Stacks, c: Chain, m: nat)
    requires ChainOk(c) && StacksOk(s, c.links.Keys) && m in c.links
    ensures AddToFreeList(s, c, m).freeTails == s.freeTails[ClassOf(c, m) := Some(m)]
    ensures !AddToFreeList(s, c, m).frees[m].isValid
    ensures forall a | a in s.frees && a != m :: AddToFreeList(s, c, m).frees[a].isValid == s.frees[a].isValid
  {
  }

  /**
   * remove_from_free_list marks the block live and, when it was the top of
   * the stack of its class, makes its prev_free the new top; no other
   * block changes its mark.
   */
  lemma RemoveMarks(s: Stacks, c: Chain, m: nat)
    requires ChainOk(c) && StacksOk(s, c.links.Keys) && m in c.links
    ensures RemoveFromFreeList(s, c, m).frees[m].isValid
    ensures forall a | a in s.frees && a != m :: RemoveFromFreeList(s, c, m).frees[a].isValid == s.frees[a].isValid
    ensures RemoveFromFreeList(s, c, m).freeTails ==
      if s.freeTails[ClassOf(c, m)] == Some(m) then s.freeTails[ClassOf(c, m) := s.frees[m].prevFree] else s.freeTails
  {
  }

  /** add_to_list: append the block as the new address-order tail. */
  ghost function AddToList(c: Chain, m: nat): (r: Chain)
    requires ChainOk(c) && m in c.links
    ensures ChainOk(r) && r.links.Keys == c.links.Keys && r.offset == c.offset
  {
    LinkAt(c, m);
    PutLink(c, m, c.links[m].(prev := c.tail));
    var c0 := c.(links := c.links[m := c.links[m].(prev := c.tail)]);
    var c1 :=
      if c.tail.Some? then
        LinkAt(c0, c.tail.value);
        PutLink(c0, c.tail.value, c0.links[c.tail.value].(next := Some(m)));
        c0.(links := c0.links[c.tail.value := c0.links[c.tail.value].(next := Some(m))])
      else c0;
    c1.(tail := Some(m))
  }

  /** remove_from_list: unlink the block from the address-ordered list. */
  ghost function RemoveFromList(c: Chain, m: nat): (r: Chain)
    requires ChainOk(c) && m in c.links
    ensures ChainOk(r) && r.links.Keys == c.links.Keys && r.offset == c.offset
  {
    LinkAt(c, m);
    var t := if c.tail == Some(m) then c.links[m].prev else c.tail;
    var nx := c.links[m].next;
    var c1 :=
      if nx.Some? then
        LinkAt(c, nx.value);
        PutLink(c, nx.value, c.links[nx.value].(prev := c.links[m].prev));
        c.(links := c.links[nx.value := c.links[nx.value].(prev := c.links[m].prev)])
      else c;
    LinkAt(c1, m);
    var pv := c1.links[m].prev;
    var c2 :=
      if pv.Some? then
        LinkAt(c1, pv.value);
        PutLink(c1, pv.value, c1.links[pv.value].(next := c1.links[m].next));
        c1.(links := c1.links[pv.value := c1.links[pv.value].(next := c1.links[m].next)])
      else c1;
    c2.(tail := t)
  }

  /** meta->total_size = t (the `+=` of merge_free_mem; it never wraps here). */
  ghost function SetSize(c: Chain, a: nat, t: nat): (r: Chain)
    requires ChainOk(c) && a in c.links && MinBlock <= t <= ArenaSize && t % MinAllocation == 0
    ensures ChainOk(r) && r.links.Keys == c.links.Keys && r.offset == c.offset
  {
    LinkAt(c, a);
    PutLink(c, a, c.links[a].(totalSize := t));
    c.(links := c.links[a := c.links[a].(totalSize := t)])
  }

  // ---------------------------------------------------------------------
  // The address-ordered list

  /** Blocks i and i+1 of bs are neighbours in memory and in the list. */
  ghost predicate Adjacent(c: Chain, bs: seq<nat>, i: int)
    requires 0 <= i < |bs| - 1
  {
    bs[i] in c.links && bs[i + 1] in c.links &&
    bs[i + 1] == bs[i] + c.links[bs[i]].totalSize &&
    c.links[bs[i]].next == Some(bs[i + 1]) && c.links[bs[i + 1]].prev == Some(bs[i])
  }

  /**
   * bs is the address-ordered list, from the block at offset 0 to tail:
   * the blocks tile [0, offset) in order and next/prev link each to the
   * following one.
   */
  ghost predicate AddressList(c: Chain, bs: seq<nat>)
  {
    (forall i | 0 <= i < |bs| :: bs[i] in c.links) &&
    (forall i | 0 <= i < |bs| - 1 :: Adjacent(c, bs, i)) &&
    if bs == [] then c.tail == None && c.offset == 0
    else
      var last := bs[|bs| - 1];
      bs[0] == 0 && c.links[bs[0]].prev == None &&
      c.tail == Some(last) && c.links[last].next == None &&
      last + c.links[last].totalSize == c.offset
  }

  /** The list invariant that allocation and freeing keep. */
  ghost predicate ChainInv(c: Chain, bs: seq<nat>)
  {
    ChainOk(c) && AddressList(c, bs) && c.offset <= ArenaSize
  }

  /** The sum of total_size over a list of blocks. */
  ghost function SumSizes(ls: map<nat, Link>, bs: seq<nat>): nat
    requires forall i | 0 <= i < |bs| :: bs[i] in ls
  {
    if bs == [] then 0 else SumSizes(ls, bs[..|bs| - 1]) + ls[bs[|bs| - 1]].totalSize
  }

  /** Each block of the list starts where the blocks before it end. */
  lemma {:induction false} StartIsPrefixSum(c: Chain, bs: seq<nat>, k: nat)
    requires AddressList(c, bs) && k < |bs|
    ensures bs[k] == SumSizes(c.links, bs[..k])
  {
    if k > 0 {
      StartIsPrefixSum(c, bs, k - 1);
      assert Adjacent(c, bs, k - 1);
      assert bs[..k][..k - 1] == bs[..k - 1];
    }
  }

  /** offset is the sum of total_size over the address-ordered list. */
  lemma OffsetIsSum(c: Chain, bs: seq<nat>)
    requires AddressList(c, bs)
    ensures c.offset == SumSizes(c.links, bs)
  {
    if bs != [] {
      StartIsPrefixSum(c, bs, |bs| - 1);
      assert bs[..|bs| - 1] == bs[..|bs|][..|bs| - 1];
      assert bs == bs[..|bs|];
    }
  }

  /** Every block of the list ends within [0, offset). */
  lemma {:induction false} EndsWithin(c: Chain, bs: seq<nat>, k: nat)
    requires AddressList(c, bs) && k < |bs|
    ensures bs[k] + c.links[bs[k]].totalSize <= c.offset
    decreases |bs| - k
  {
    if k < |bs| - 1 {
      EndsWithin(c, bs, k + 1);
      assert Adjacent(c, bs, k);
    }
  }

  ghost predicate Ascending(bs: seq<nat>)
  {
    forall j, k | 0 <= j < k < |bs| :: bs[j] < bs[k]
  }

  /** The list is strictly increasing in address, so no block appears twice. */
  lemma {:induction false} Increasing(c: Chain, bs: seq<nat>, j: nat, k: nat)
    requires ChainOk(c) && AddressList(c, bs) && j < k < |bs|
    ensures bs[j] < bs[k]
    decreases k - j
  {
    assert Adjacent(c, bs, j);
    assert LinkOk(c.links, bs[j], c.links[bs[j]]);
    if j + 1 < k {
      Increasing(c, bs, j + 1, k);
    }
  }

  lemma Distinct(c: Chain, bs: seq<nat>)
    requires ChainOk(c) && AddressList(c, bs)
    ensures Ascending(bs)
  {
    forall j, k | 0 <= j < k < |bs| ensures bs[j] < bs[k] {
      Increasing(c, bs, j, k);
    }
  }

  /** Two neighbours of the list together still fit in [0, offset). */
  lemma MergedFits(c: Chain, bs: seq<nat>, j: nat)
    requires ChainInv(c, bs) && j + 1 < |bs|
    ensures bs[j] + c.links[bs[j]].totalSize + c.links[bs[j + 1]].totalSize <= c.offset
    ensures MinBlock <= c.links[bs[j]].totalSize + c.links[bs[j + 1]].totalSize <= ArenaSize
  {
    assert Adjacent(c, bs, j);
    EndsWithin(c, bs, j + 1);
    assert LinkOk(c.links, bs[j], c.links[bs[j]]);
  }

  /** bs without its element at index i. */
  function RemoveAt(bs: seq<nat>, i: nat): (r: seq<nat>)
    requires i < |bs|
    ensures |r| == |bs| - 1
    ensures forall t | 0 <= t < |r| :: r[t] == if t < i then bs[t] else bs[t + 1]
  {
    bs[..i] + bs[i + 1..]
  }

  /**
   * The links after unlinking block n whose predecessor is k: n's
   * successor (if any) points back to k and k takes over n's successor.
   */
  ghost function Unlink(ls: map<nat, Link>, n: nat, k: nat): (r: map<nat, Link>)
    requires n in ls && k in ls
    ensures r.Keys == ls.Keys
    ensures r[k].next == ls[n].next && r[k].totalSize == ls[k].totalSize
  {
    var nx := ls[n].next;
    var ls1 := if nx.Some? && nx.value in ls then ls[nx.value := ls[nx.value].(prev := Some(k))] else ls;
    ls1[k := ls1[k].(next := nx)]
  }

  /** remove_from_list on a block n with a predecessor k. */
  lemma UnlinkEffect(g: Chain, n: nat, k: nat)
    requires ChainOk(g) && n in g.links
    requires g.links[n].prev == Some(k) && k != n
    requires g.links[n].next.Some? ==> g.links[n].next.value != n && g.links[n].next.value != k
    ensures RemoveFromList(g, n) ==
      g.(links := Unlink(g.links, n, k), tail := if g.tail == Some(n) then Some(k) else g.tail)
  {
  }

  /** One adjacency of the list left by AbsorbSuccessor. */
  lemma AbsorbAdjacent(c: Chain, bs: seq<nat>, j: nat, ls: map<nat, Link>, t: nat)
    requires ChainInv(c, bs) && Ascending(bs) && j + 1 < |bs| && t + 2 < |bs|
    requires
      var k, n := bs[j], bs[j + 1];
      ls == Unlink(c.links[k := c.links[k].(totalSize := c.links[k].totalSize + c.links[n].totalSize)], n, k)
    ensures Adjacent(c.(links := ls), RemoveAt(bs, j + 1), t)
  {
    var bs' := RemoveAt(bs, j + 1);
    assert Adjacent(c, bs, j);
    if j + 2 < |bs| {
      assert Adjacent(c, bs, j + 1);
    }
    if t < j {
      assert Adjacent(c, bs, t);
    } else if t > j {
      assert Adjacent(c, bs, t + 1);
    }
  }

  /** The whole list left by AbsorbSuccessor, over the links it computes. */
  lemma AbsorbList(c: Chain, bs: seq<nat>, j: nat, ls: map<nat, Link>)
    requires ChainInv(c, bs) && j + 1 < |bs|
    requires
      var k, n := bs[j], bs[j + 1];
      ls == Unlink(c.links[k := c.links[k].(totalSize := c.links[k].totalSize + c.links[n].totalSize)], n, k)
    ensures
      var t := if c.tail == Some(bs[j + 1]) then Some(bs[j]) else c.tail;
      AddressList(c.(links := ls, tail := t), RemoveAt(bs, j + 1))
  {
    var k, n := bs[j], bs[j + 1];
    Distinct(c, bs);
    assert Adjacent(c, bs, j);
    if j + 2 < |bs| {
      assert Adjacent(c, bs, j + 1);
    }
    var r := c.(links := ls, tail := if c.tail == Some(n) then Some(k) else c.tail);
    var bs' := RemoveAt(bs, j + 1);
    forall t | 0 <= t < |bs'| - 1 ensures Adjacent(r, bs', t) {
      AbsorbAdjacent(c, bs, j, ls, t);
      assert Adjacent(c.(links := ls), bs', t);
    }
    if j + 2 < |bs| {
      var last := bs[|bs| - 1];
      assert last != k && last != n;
    }
  }

  /** What remove_from_list needs to know about two neighbours of the list. */
  lemma Neighbours(c: Chain, bs: seq<nat>, j: nat)
    requires ChainInv(c, bs) && j + 1 < |bs|
    ensures bs[j] in c.links && bs[j + 1] in c.links
    ensures c.links[bs[j + 1]].prev == Some(bs[j]) && bs[j] != bs[j + 1]
    ensures c.links[bs[j + 1]].next.Some? ==>
      c.links[bs[j + 1]].next.value != bs[j + 1] && c.links[bs[j + 1]].next.value != bs[j]
  {
    Distinct(c, bs);
    assert Adjacent(c, bs, j);
    if j + 2 < |bs| {
      assert Adjacent(c, bs, j + 1);
    }
  }

  /** Two block sizes add up to a multiple of the alignment. */
  lemma SumAligned(c: Chain, a: nat, b: nat)
    requires ChainOk(c) && a in c.links && b in c.links
    ensures (c.links[a].totalSize + c.links[b].totalSize) % MinAllocation == 0
  {
    LinkAt(c, a);
    LinkAt(c, b);
  }

  /**
   * The list step of a merge: block k grows by the size of block n, and
   * remove_from_list then unlinks n.
   */
  ghost function Absorb(c: Chain, k: nat, n: nat): (r: Chain)
    requires ChainOk(c) && k in c.links && n in c.links
    requires MinBlock <= c.links[k].totalSize + c.links[n].totalSize <= ArenaSize
    ensures ChainOk(r) && r.links.Keys == c.links.Keys && r.offset == c.offset
  {
    RemoveFromList(Grown(c, k, n), n)
  }

  /** Block k after `meta->total_size += n->total_size`. */
  ghost function Grown(c: Chain, k: nat, n: nat): (r: Chain)
    requires ChainOk(c) && k in c.links && n in c.links
    requires MinBlock <= c.links[k].totalSize + c.links[n].totalSize <= ArenaSize
    ensures ChainOk(r) && r.links.Keys == c.links.Keys && r.offset == c.offset
    ensures r == c.(links := c.links[k := c.links[k].(totalSize := c.links[k].totalSize + c.links[n].totalSize)])
  {
    SumAligned(c, k, n);
    SetSize(c, k, c.links[k].totalSize + c.links[n].totalSize)
  }

  /**
   * Absorbing the successor bs[j+1] into bs[j] leaves the address-ordered
   * list without the absorbed block, with bs[j] spanning both and offset
   * unchanged.
   */
  lemma AbsorbSuccessor(c: Chain, bs: seq<nat>, j: nat)
    requires ChainInv(c, bs) && j + 1 < |bs|
    ensures MinBlock <= c.links[bs[j]].totalSize + c.links[bs[j + 1]].totalSize <= ArenaSize
    ensures AddressList(Absorb(c, bs[j], bs[j + 1]), RemoveAt(bs, j + 1))
    ensures Absorb(c, bs[j], bs[j + 1]).offset == c.offset
    ensures Absorb(c, bs[j], bs[j + 1]).links[bs[j]].totalSize ==
      c.links[bs[j]].totalSize + c.links[bs[j + 1]].totalSize
  {
    MergedFits(c, bs, j);
    Neighbours(c, bs, j);
    SumAligned(c, bs[j], bs[j + 1]);
    var g := Grown(c, bs[j], bs[j + 1]);
    UnlinkEffect(g, bs[j + 1], bs[j]);
    AbsorbList(c, bs, j, Unlink(g.links, bs[j + 1], bs[j]));
  }

  /**
   * Giving the tail block back: with offset lowered to the tail's start,
   * remove_from_list leaves the list without its last block, the new last
   * block ending at the new offset.
   */
  lemma ReleaseTail(c: Chain, bs: seq<nat>)
    requires ChainInv(c, bs) && bs != []
    ensures ChainInv(RemoveFromList(c.(offset := bs[|bs| - 1]), bs[|bs| - 1]), bs[..|bs| - 1])
    ensures RemoveFromList(c.(offset := bs[|bs| - 1]), bs[|bs| - 1]).offset == bs[|bs| - 1]
  {
    var n := bs[|bs| - 1];
    var g := c.(offset := n);
    var bs' := bs[..|bs| - 1];
    EndsWithin(c, bs, |bs| - 1);
    if |bs| > 1 {
      var k := bs[|bs| - 2];
      assert Adjacent(c, bs, |bs| - 2);
      Distinct(c, bs);
      UnlinkEffect(g, n, k);
      var r := RemoveFromList(g, n);
      assert r.links == c.links[k := c.links[k].(next := None)];
      forall i | 0 <= i < |bs'| - 1 ensures Adjacent(r, bs', i) {
        assert Adjacent(c, bs, i);
      }
    }
  }

  // ---------------------------------------------------------------------
  // The arena invariant and coalescing

  /** The arena invariant that allocation and freeing keep: bs is the address-ordered list. */
  ghost predicate Inv(h: Heap, bs: seq<nat>)
  {
    Sound(h) && ChainInv(h.chain, bs)
  }

  /** The block at index i of the list has a successor exactly when it is not the last. */
  lemma NextInList(c: Chain, bs: seq<nat>, i: nat)
    requires AddressList(c, bs) && i < |bs|
    ensures c.links[bs[i]].next.Some? <==> i + 1 < |bs|
    ensures i + 1 < |bs| ==> c.links[bs[i]].next == Some(bs[i + 1])
  {
    if i + 1 < |bs| {
      assert Adjacent(c, bs, i);
    }
  }

  /** The block at index i of the list has a predecessor exactly when it is not the first. */
  lemma PrevInList(c: Chain, bs: seq<nat>, i: nat)
    requires AddressList(c, bs) && i < |bs|
    ensures c.links[bs[i]].prev.Some? <==> 0 < i
    ensures 0 < i ==> c.links[bs[i]].prev == Some(bs[i - 1])
  {
    if 0 < i {
      assert Adjacent(c, bs, i - 1);
    }
  }

  /** meta->next exists and is not live. */
  ghost predicate SuccessorFree(h: Heap, m: nat)
    requires Sound(h) && m in h.chain.links
  {
    var nx := h.chain.links[m].next;
    if nx.None? then false
    else
      LinkAt(h.chain, m);
      FreeAt(h.stacks, h.chain.links.Keys, nx.value);
      !h.stacks.frees[nx.value].isValid
  }

  /** meta->prev exists and is not live. */
  ghost predicate PredecessorFree(h: Heap, m: nat)
    requires Sound(h) && m in h.chain.links
  {
    var pv := h.chain.links[m].prev;
    if pv.None? then false
    else
      LinkAt(h.chain, m);
      FreeAt(h.stacks, h.chain.links.Keys, pv.value);
      !h.stacks.frees[pv.value].isValid
  }

  /** Both blocks of a merge leave the free lists, a first and b second. */
  ghost function Unfree(s: Stacks, c: Chain, a: nat, b: nat): (r: Stacks)
    requires ChainOk(c) && StacksOk(s, c.links.Keys) && a in c.links && b in c.links
    ensures StacksOk(r, c.links.Keys)
  {
    RemoveFromFreeList(RemoveFromFreeList(s, c, a), c, b)
  }

  /**
   * The first branch of merge_free_mem: m leaves the free lists together
   * with its successor n, grows by n's size, goes back on the free list of
   * its new class, and n leaves the address-ordered list.
   */
  ghost function MergeNext(h: Heap, m: nat, n: nat): (r: Heap)
    requires Sound(h) && m in h.chain.links && n in h.chain.links && h.chain.links[m].next == Some(n)
    requires MinBlock <= h.chain.links[m].totalSize + h.chain.links[n].totalSize <= ArenaSize
    ensures Sound(r) && r.chain == Absorb(h.chain, m, n)
  {
    Heap(Absorb(h.chain, m, n), AddToFreeList(Unfree(h.stacks, h.chain, m, n), Grown(h.chain, m, n), m))
  }

  /**
   * The second branch of merge_free_mem: m and its predecessor p leave the
   * free lists, p grows by m's size and goes back on the free list of its
   * new class, and m leaves the address-ordered list.
   */
  ghost function MergePrev(h: Heap, m: nat, p: nat): (r: Heap)
    requires Sound(h) && m in h.chain.links && p in h.chain.links && h.chain.links[m].prev == Some(p)
    requires MinBlock <= h.chain.links[p].totalSize + h.chain.links[m].totalSize <= ArenaSize
    ensures Sound(r) && r.chain == Absorb(h.chain, p, m)
  {
    Heap(Absorb(h.chain, p, m), AddToFreeList(Unfree(h.stacks, h.chain, m, p), Grown(h.chain, p, m), p))
  }

  /**
   * Absorbing the successor of bs[i] keeps the invariant: the successor
   * leaves the list and bs[i] now spans both blocks.
   */
  lemma MergeNextKeepsInv(h: Heap, bs: seq<nat>, i: nat)
    requires Inv(h, bs) && i + 1 < |bs|
    ensures h.chain.links[bs[i]].next == Some(bs[i + 1])
    ensures MinBlock <= h.chain.links[bs[i]].totalSize + h.chain.links[bs[i + 1]].totalSize <= ArenaSize
    ensures Inv(MergeNext(h, bs[i], bs[i + 1]), RemoveAt(bs, i + 1))
    ensures MergeNext(h, bs[i], bs[i + 1]).chain.links[bs[i]].totalSize ==
      h.chain.links[bs[i]].totalSize + h.chain.links[bs[i + 1]].totalSize
  {
    NextInList(h.chain, bs, i);
    AbsorbSuccessor(h.chain, bs, i);
  }

  /**
   * Being absorbed by the predecessor bs[i-1] keeps the invariant: bs[i]
   * leaves the list and bs[i-1] now spans both blocks.
   */
  lemma MergePrevKeepsInv(h: Heap, bs: seq<nat>, i: nat)
    requires Inv(h, bs) && 0 < i < |bs|
    ensures h.chain.links[bs[i]].prev == Some(bs[i - 1])
    ensures MinBlock <= h.chain.links[bs[i - 1]].totalSize + h.chain.links[bs[i]].totalSize <= ArenaSize
    ensures Inv(MergePrev(h, bs[i], bs[i - 1]), RemoveAt(bs, i))
    ensures MergePrev(h, bs[i], bs[i - 1]).chain.links[bs[i - 1]].totalSize ==
      h.chain.links[bs[i - 1]].totalSize + h.chain.links[bs[i]].totalSize
  {
    PrevInList(h.chain, bs, i);
    AbsorbSuccessor(h.chain, bs, i - 1);
  }

  /**
   * A block m on top of its stack that its predecessor p absorbs leaves
   * its prev_free as the top of that stack, when neither p's old class
   * nor its new one is m's.
   */
  lemma MergePrevTop(h: Heap, m: nat, p: nat)
    requires Sound(h) && m in h.chain.links && p in h.chain.links && h.chain.links[m].prev == Some(p)
    requires MinBlock <= h.chain.links[p].totalSize + h.chain.links[m].totalSize <= ArenaSize
    requires h.stacks.freeTails[ClassOf(h.chain, m)] == Some(m)
    requires ClassOf(h.chain, p) != ClassOf(h.chain, m) && ClassOf(Grown(h.chain, p, m), p) != ClassOf(h.chain, m)
    ensures MergePrev(h, m, p).stacks.freeTails[ClassOf(h.chain, m)] == h.stacks.frees[m].prevFree
  {
    RemoveMarks(h.stacks, h.chain, m);
    RemoveMarks(RemoveFromFreeList(h.stacks, h.chain, m), h.chain, p);
    PushMarks(Unfree(h.stacks, h.chain, m, p), Grown(h.chain, p, m), p);
  }

  /** The heap after the first branch of merge_free_mem on m = bs[i]. */
  ghost function MergeFirst(h: Heap, m: nat, bs: seq<nat>, i: nat): (r: Heap)
    requires Inv(h, bs) && i < |bs| && bs[i] == m
    ensures Inv(r, if SuccessorFree(h, m) then RemoveAt(bs, i + 1) else bs)
    ensures r.chain.offset == h.chain.offset
  {
    NextInList(h.chain, bs, i);
    if SuccessorFree(h, m) then
      MergeNextKeepsInv(h, bs, i);
      MergeNext(h, m, h.chain.links[m].next.value)
    else h
  }

  /** The list after the first branch of merge_free_mem on bs[i]. */
  ghost function FirstList(h: Heap, bs: seq<nat>, i: nat): (r: seq<nat>)
    requires Inv(h, bs) && i < |bs|
    ensures i < |r| && r[i] == bs[i] && Inv(MergeFirst(h, bs[i], bs, i), r)
  {
    NextInList(h.chain, bs, i);
    if SuccessorFree(h, bs[i]) then RemoveAt(bs, i + 1) else bs
  }

  /**
   * merge_free_mem: coalesce the block m with a free successor, then with
   * a free predecessor.  bs and i only witness the invariant that makes
   * both additions of sizes stay within the arena.
   */
  ghost function MergeFreeMem(h: Heap, m: nat, bs: seq<nat>, i: nat): (r: Heap)
    requires Inv(h, bs) && i < |bs| && bs[i] == m
    ensures Inv(r, MergedList(h, bs, i))
    ensures r.chain.offset == h.chain.offset
  {
    var h1 := MergeFirst(h, m, bs, i);
    var bs1 := FirstList(h, bs, i);
    PrevInList(h1.chain, bs1, i);
    if PredecessorFree(h1, m) then
      MergePrevKeepsInv(h1, bs1, i);
      MergePrev(h1, m, h1.chain.links[m].prev.value)
    else h1
  }

  /** The list left by merge_free_mem on bs[i]: the free neighbours of bs[i] are absorbed. */
  ghost function MergedList(h: Heap, bs: seq<nat>, i: nat): (r: seq<nat>)
    requires Inv(h, bs) && i < |bs|
    ensures |bs| - 2 <= |r| <= |bs|
  {
    var h1 := MergeFirst(h, bs[i], bs, i);
    var bs1 := FirstList(h, bs, i);
    PrevInList(h1.chain, bs1, i);
    if PredecessorFree(h1, bs[i]) then RemoveAt(bs1, i) else bs1
  }

  /**
   * The first branch of merge_free_mem is taken exactly when the
   * successor bs[i+1] is marked free, and then it is MergeNext.
   */
  lemma MergeFirstTakesNext(h: Heap, bs: seq<nat>, i: nat)
    requires Inv(h, bs) && i + 1 < |bs|
    ensures h.chain.links[bs[i]].next == Some(bs[i + 1])
    ensures MinBlock <= h.chain.links[bs[i]].totalSize + h.chain.links[bs[i + 1]].totalSize <= ArenaSize
    ensures SuccessorFree(h, bs[i]) <==> !h.stacks.frees[bs[i + 1]].isValid
    ensures SuccessorFree(h, bs[i]) ==>
      MergeFirst(h, bs[i], bs, i) == MergeNext(h, bs[i], bs[i + 1]) && FirstList(h, bs, i) == RemoveAt(bs, i + 1)
  {
    MergeNextKeepsInv(h, bs, i);
  }

  /**
   * The second branch of merge_free_mem is taken exactly when the
   * predecessor is marked free after the first, and then it is MergePrev.
   */
  lemma MergeFreeMemTakesPrev(h: Heap, bs: seq<nat>, i: nat)
    requires Inv(h, bs) && 0 < i < |bs|
    ensures
      var h1, bs1 := MergeFirst(h, bs[i], bs, i), FirstList(h, bs, i);
      h1.chain.links[bs[i]].prev == Some(bs1[i - 1]) &&
      MinBlock <= h1.chain.links[bs1[i - 1]].totalSize + h1.chain.links[bs[i]].totalSize <= ArenaSize &&
      (PredecessorFree(h1, bs[i]) <==> !h1.stacks.frees[bs1[i - 1]].isValid) &&
      (PredecessorFree(h1, bs[i]) ==>
        MergeFreeMem(h, bs[i], bs, i) == MergePrev(h1, bs[i], bs1[i - 1]) &&
        MergedList(h, bs, i) == RemoveAt(bs1, i))
  {
    var h1, bs1 := MergeFirst(h, bs[i], bs, i), FirstList(h, bs, i);
    PrevInList(h1.chain, bs1, i);
    MergePrevKeepsInv(h1, bs1, i);
  }

  /**
   * merge_free_mem only regroups bytes: the sizes over the list still add
   * up to the same total, so the arena's offset is untouched.
   */
  lemma MergeKeepsSum(h: Heap, bs: seq<nat>, i: nat)
    requires Inv(h, bs) && i < |bs|
    ensures
      var r := MergeFreeMem(h, bs[i], bs, i);
      SumSizes(r.chain.links, MergedList(h, bs, i)) == SumSizes(h.chain.links, bs)
  {
    OffsetIsSum(h.chain, bs);
    OffsetIsSum(MergeFreeMem(h, bs[i], bs, i).chain, MergedList(h, bs, i));
  }
}

/**
 * carena.c as imperative code: the thread-local g_arena and g_err become
 * the fields of one object, and carena_alloc, carena_free, carena_realloc
 * and carena_get_error its methods.  Each method is specified by the
 * function of the same name in the Api module applied to the globals
 * before the call, so every property proved there holds of the methods.
 *
 * blocks is the address-ordered list of the arena, a ghost that only the
 * proofs read: it witnesses the invariant that coalescing needs.
 */
module Library {
  import opened Wrappers
  import opened Sizes
  import opened Blocks
  import opened Carving
  import opened PrivateArena
  import Api

  class Carena {
    const arena: Arena
    var err: Option<Api.Error>
    ghost var blocks: seq<nat>

    /** g_arena and g_err as a value. */
    ghost function Globals(): Api.Globals
      reads this, arena, arena.freeTails
    {
      Api.Globals(arena.State(), err)
    }

    /** The arena is sound and blocks is its address-ordered list. */
    ghost predicate Valid()
      reads this, arena, arena.freeTails
    {
      arena.Valid() && Inv(arena.State(), blocks)
    }

    /** The globals as the program starts: an empty arena and no error. */
    constructor ()
      ensures Valid() && Globals() == Api.Initial() && blocks == []
    {
      arena := new Arena();
      err := None;
      blocks := [];
      new;
      Api.InitialInv();
    }

    method Alloc(size: SizeT) returns (p: Option<nat>)
      requires Valid()
      modifies this, arena, arena.freeTails
      ensures Valid()
      ensures Api.Reply(Globals(), p) == Api.Alloc(old(Globals()), size)
      ensures blocks == Api.AllocList(old(Globals()), old(blocks), size)
    {
      ghost var g, bs := Globals(), blocks;
      Api.AllocKeepsInv(g, bs, size);
      ghost var r, after := Api.Alloc(g, size), Api.AllocList(g, bs, size);
      var k := SizeClass(TotalSize(size));
      if k >= NumSizeClasses {
        err := Some(Api.TooBig);
        p := None;
        assert r == Api.Reply(g.(err := Some(Api.TooBig)), None);
      } else if arena.freeTails[k].Some? {
        var d := arena.UseFreeList(size);
        p := Some(d);
        assert r == Api.Reply(g.(arena := Carving.UseFreeList(g.arena, size).heap), Some(d));
      } else if (arena.offset + TotalSize(size)) % Word <= ArenaSize {
        var d := arena.UseArena(size);
        p := Some(d);
        assert r == Api.Reply(g.(arena := Carving.UseArena(g.arena, size).heap), Some(d));
      } else {
        err := Some(Api.Full);
        p := None;
        assert r == Api.Reply(g.(err := Some(Api.Full)), None);
      }
      blocks := after;
    }

    method Free(p: Option<nat>)
      requires Valid() && Api.Freeable(arena.State(), blocks, p)
      modifies this, arena, arena.freeTails
      ensures Valid()
      ensures Globals() == Api.Free(old(Globals()), p, old(blocks))
      ensures blocks == Api.FreeList(old(Globals()), old(blocks), p)
    {
      if p.None? || !arena.frees[MetaOf(p.value)].isValid {
        err := Some(Api.InvalidArg);
        return;
      }
      var m := MetaOf(p.value);
      LinkAt(arena.State().chain, m);
      if arena.links[m].next.None? {
        FreeTail(p.value);
      } else {
        FreeInner(p.value);
      }
    }

    /** The tail block goes back to the arena: offset drops by its size. */
    method FreeTail(p: nat)
      requires Valid() && Api.Freeable(arena.State(), blocks, Some(p)) && Api.Live(arena.State(), p)
      requires arena.links[MetaOf(p)].next.None?
      modifies this, arena, arena.freeTails
      ensures Valid()
      ensures Globals() == Api.Free(old(Globals()), Some(p), old(blocks))
      ensures blocks == Api.FreeList(old(Globals()), old(blocks), Some(p))
    {
      ghost var g, bs := Globals(), blocks;
      var m := MetaOf(p);
      ghost var i := Api.IndexOf(bs, m);
      NextInList(g.arena.chain, bs, i);
      Api.FreeTail(g, bs, p);
      arena.SetOffset((arena.offset - arena.links[m].totalSize) % Word);
      arena.RemoveFromList(m);
      blocks := bs[..|bs| - 1];
    }

    /** Any other block goes on its free list and is coalesced with free neighbours. */
    method FreeInner(p: nat)
      requires Valid() && Api.Freeable(arena.State(), blocks, Some(p)) && Api.Live(arena.State(), p)
      requires arena.links[MetaOf(p)].next.Some?
      modifies this, arena, arena.freeTails
      ensures Valid()
      ensures Globals() == Api.Free(old(Globals()), Some(p), old(blocks))
      ensures blocks == Api.FreeList(old(Globals()), old(blocks), Some(p))
    {
      ghost var g, bs := Globals(), blocks;
      var m := MetaOf(p);
      ghost var i := Api.IndexOf(bs, m);
      NextInList(g.arena.chain, bs, i);
      Api.FreeInner(g, bs, p, i);
      ghost var h1 := g.arena.(stacks := AddToFreeList(g.arena.stacks, g.arena.chain, m));
      arena.AddToFreeList(m);
      arena.MergeFreeMem(m, bs, i);
      blocks := MergedList(h1, bs, i);
    }

    method Realloc(p: Option<nat>, size: SizeT) returns (q: Option<nat>)
      requires Valid() && Api.Freeable(arena.State(), blocks, p)
      modifies this, arena, arena.freeTails
      ensures Valid()
      ensures Api.Reply(Globals(), q) == Api.Realloc(old(Globals()), p, size, old(blocks))
    {
      if p.None? || !arena.frees[MetaOf(p.value)].isValid {
        err := Some(Api.InvalidArg);
        q := None;
        return;
      }
      Free(p);
      q := Alloc(size);
    }

    method GetError() returns (e: Option<Api.Error>)
      ensures e == Api.GetError(Globals())
    {
      e := err;
    }
  }
}

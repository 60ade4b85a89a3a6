/**
 * Size arithmetic of the arena: the ROUNDUP, META_SIZE, TOTAL_SIZE,
 * SIZE_CLASS, NUM_SIZE_CLASSES, META and DATA macros.
 *
 * All of them compute on size_t, so every addition and subtraction is
 * taken modulo 2^64 here.  The platform constants are those of an LP64
 * target: alignof(max_align_t) = 16 and sizeof(meta_t) = 56.
 */
module Sizes {

  /** 2^64: size_t arithmetic wraps around at this value. */
  const Word: nat := 0x1_0000_0000_0000_0000

  type SizeT = x: int | 0 <= x < Word

  /** MIN_ALLOCATION = alignof(max_align_t), a power of two. */
  const MinAllocation: nat := 16

  /** sizeof(meta_t): one pointer, one size_t, four pointers and a bool, padded. */
  const MetaStructSize: nat := 56

  /** The optional ARENA_SIZE_MULTIPLIER of the build (1 when it is not defined). */
  const ArenaSizeMultiplier: nat := 1

  /** ARENA_SIZE: the capacity of the arena's byte buffer. */
  const ArenaSize: nat := 128 * 1024 * ArenaSizeMultiplier

  /**
   * ROUNDUP: add MIN_ALLOCATION - 1 and clear the low bits.  For a
   * power-of-two alignment the mask `& ~(MIN_ALLOCATION - 1)` clears
   * exactly the remainder modulo MIN_ALLOCATION.  When the addition
   * wraps (s within 15 of 2^64) the result is 0.
   */
  function RoundUp(s: SizeT): (r: SizeT)
    ensures r % MinAllocation == 0
    ensures s + MinAllocation - 1 < Word ==> s <= r < s + MinAllocation
    ensures s + MinAllocation - 1 >= Word ==> r == 0
  {
    var x := (s + MinAllocation - 1) % Word;
    x - x % MinAllocation
  }

  /** META_SIZE: the metadata record rounded up to the alignment. */
  const MetaSize: SizeT := RoundUp(MetaStructSize)

  /** NUM_SIZE_CLASSES: (ARENA_SIZE - META_SIZE) / MIN_ALLOCATION. */
  const NumSizeClasses: nat := (ArenaSize - MetaSize) / MinAllocation

  /** The smallest total size a block can have: metadata plus one alignment unit. */
  const MinBlock: nat := MetaSize + MinAllocation

  /** TOTAL_SIZE: metadata plus the rounded payload, in size_t. */
  function TotalSize(s: SizeT): SizeT
  {
    (MetaSize + RoundUp(s)) % Word
  }

  /** SIZE_CLASS: (total_size - META_SIZE) / MIN_ALLOCATION - 1, in size_t. */
  function SizeClass(t: SizeT): SizeT
  {
    (((t - MetaSize) % Word) / MinAllocation - 1) % Word
  }

  /** META: the metadata record sits META_SIZE bytes before the payload. */
  function MetaOf(p: nat): (m: nat)
    requires p >= MetaSize
    ensures m + MetaSize == p
  {
    p - MetaSize
  }

  /** DATA: the payload starts META_SIZE bytes after the metadata record. */
  function DataOf(m: nat): (p: nat)
    ensures p >= MetaSize && p - MetaSize == m
  {
    m + MetaSize
  }

  lemma PlatformConstants()
    ensures MetaSize == 64 && NumSizeClasses == 8188 && MinBlock == 80
    ensures ArenaSize == 131072
  {
  }

  /** META(DATA(m)) == m and DATA(META(p)) == p. */
  lemma MetaDataRoundTrip(m: nat, p: nat)
    requires p >= MetaSize
    ensures MetaOf(DataOf(m)) == m
    ensures DataOf(MetaOf(p)) == p
  {
  }

  /**
   * A request is accepted (its class is below NUM_SIZE_CLASSES) exactly
   * when 1 <= s <= ARENA_SIZE - META_SIZE.  Size 0 is rejected because
   * SIZE_CLASS subtracts 1 from 0 in size_t; sizes near 2^64 are rejected
   * because ROUNDUP or TOTAL_SIZE wrap to a total below META_SIZE + 16.
   * For an accepted size nothing wraps: TOTAL_SIZE is META_SIZE plus the
   * least multiple of the alignment that is at least s, the block fits
   * the arena, and the class is ROUNDUP(s) / MIN_ALLOCATION - 1.
   */
  lemma {:induction false} AcceptedSize(s: SizeT)
    ensures SizeClass(TotalSize(s)) < NumSizeClasses <==> 1 <= s <= ArenaSize - MetaSize
    ensures SizeClass(TotalSize(s)) < NumSizeClasses ==>
              TotalSize(s) == MetaSize + RoundUp(s) &&
              MinBlock <= TotalSize(s) <= ArenaSize && TotalSize(s) % MinAllocation == 0 &&
              SizeClass(TotalSize(s)) == RoundUp(s) / MinAllocation - 1
  {
    PlatformConstants();
    var r := RoundUp(s);
    if s == 0 {
      assert r == 0;
      assert TotalSize(s) == 64;
      assert SizeClass(64) == Word - 1;
    } else if s + MinAllocation - 1 >= Word {
      assert r == 0;
      assert SizeClass(TotalSize(s)) == Word - 1;
    } else if r + MetaSize >= Word {
      var t := TotalSize(s);
      assert t == r + 64 - Word;
      assert t < 64;
      assert (t - 64) % Word == t - 64 + Word;
      assert SizeClass(t) >= NumSizeClasses;
      assert s > ArenaSize - MetaSize;
    } else {
      var t := TotalSize(s);
      assert t == 64 + r;
      assert (t - 64) % Word == r;
      assert r >= 16;
      assert SizeClass(t) == r / 16 - 1;
    }
  }

  /**
   * Every block size the arena can hold maps to a class in range, and the
   * class is the payload size in alignment units minus one.
   */
  lemma ClassInRange(t: SizeT)
    requires MinBlock <= t <= ArenaSize
    ensures SizeClass(t) == (t - MetaSize) / MinAllocation - 1
    ensures SizeClass(t) < NumSizeClasses
  {
    PlatformConstants();
  }

  /**
   * Two accepted requests with the same class have the same total size:
   * a block popped from a class stack was carved for the same rounded size.
   */
  lemma SameClassSameTotal(s1: SizeT, s2: SizeT)
    requires SizeClass(TotalSize(s1)) < NumSizeClasses
    requires SizeClass(TotalSize(s1)) == SizeClass(TotalSize(s2))
    ensures TotalSize(s1) == TotalSize(s2)
  {
    AcceptedSize(s1);
    AcceptedSize(s2);
  }

  /**
   * A block size the arena holds that is a multiple of the alignment and
   * falls in the class of an accepted request is exactly that request's
   * TOTAL_SIZE.
   */
  lemma AlignedClass(t: nat, s: SizeT)
    requires MinBlock <= t <= ArenaSize && t % MinAllocation == 0
    requires SizeClass(TotalSize(s)) < NumSizeClasses
    requires SizeClass(t) == SizeClass(TotalSize(s))
    ensures t == TotalSize(s)
  {
    AcceptedSize(s);
    ClassInRange(t);
    ClassInRange(TotalSize(s));
  }

  /** Sums and differences of sizes within the arena do not wrap around in size_t. */
  lemma NoWrap(a: nat, b: nat)
    requires a <= ArenaSize && b <= ArenaSize
    ensures (a + b) % Word == a + b
    ensures b <= a ==> (a - b) % Word == a - b
  {
  }
}

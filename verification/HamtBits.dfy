/** The bit arithmetic of the trie: a 32-bit occupancy bitmap and 5-bit chunks of a 64-bit hash. */
module HamtBits {

  const BITS_PER_LEVEL: bv7 := 5

  /** Shifts run 0, 5, .., 60: the last chunk holds the top four bits of the hash. */
  const LAST_SHIFT: bv7 := 60

  /** The shifts of the levels of the trie, and the one below the last level. */
  predicate Aligned(shift: bv7) {
    || shift == 0 || shift == 5 || shift == 10 || shift == 15 || shift == 20 || shift == 25 || shift == 30
    || shift == 35 || shift == 40 || shift == 45 || shift == 50 || shift == 55 || shift == 60 || shift == 65
  }

  function Chunk(hash: bv64, shift: bv7): (c: bv6)
    requires shift < 64
    ensures c < 32
  {
    ((hash >> shift) & 31) as bv6
  }

  predicate Has(bitmap: bv32, c: bv6)
    requires c < 32
  {
    bitmap & (1 << c) != 0
  }

  /** The number of set bits of `bitmap` at positions below `c`. */
  function Rank(bitmap: bv32, c: bv6): nat
    requires c <= 32
    decreases c
  {
    if c == 0 then 0 else Rank(bitmap, c - 1) + (if Has(bitmap, c - 1) then 1 else 0)
  }

  function CountOnes(bitmap: bv32): nat {
    Rank(bitmap, 32)
  }

  function IndexFromBitmap(bitmap: bv32, bit: bv32): nat {
    CountOnes(bitmap & (bit - 1))
  }

  /** The position of the child for chunk `c`: the masked population count is the rank of the bit. */
  function ChildIndex(bitmap: bv32, c: bv6): (i: nat)
    requires c < 32
    ensures i == Rank(bitmap, c)
  {
    MaskRank(bitmap, c, 32);
    IndexFromBitmap(bitmap, 1 << c)
  }

  function SetBit(bitmap: bv32, c: bv6): bv32
    requires c < 32
  {
    bitmap | (1 << c)
  }

  function ClearBit(bitmap: bv32, c: bv6): bv32
    requires c < 32
  {
    bitmap & !(1 << c)
  }

  // ----- bitmaps -----

  lemma OrBitMask(b: bv32, c: bv6, i: bv6)
    requires c < 32 && i < 32
    ensures Has(b | (1 << c), i) == (i == c || Has(b, i))
  {}

  lemma AndNotBitMask(b: bv32, c: bv6, i: bv6)
    requires c < 32 && i < 32
    ensures Has(b & !(1 << c), i) == (i != c && Has(b, i))
  {}

  lemma BitChanged(b: bv32, c: bv6)
    requires c < 32
    ensures forall i: bv6 :: i < 32 ==> Has(SetBit(b, c), i) == (i == c || Has(b, i))
    ensures forall i: bv6 :: i < 32 ==> Has(ClearBit(b, c), i) == (i != c && Has(b, i))
  {
    hide Has;
    forall i: bv6 | i < 32
      ensures Has(SetBit(b, c), i) == (i == c || Has(b, i)) && Has(ClearBit(b, c), i) == (i != c && Has(b, i))
    {
      OrBitMask(b, c, i);
      AndNotBitMask(b, c, i);
    }
  }

  lemma {:induction false} MaskRank(b: bv32, c: bv6, n: bv6)
    requires c < 32 && n <= 32
    ensures Rank(b & ((1 << c) - 1), n) == if n <= c then Rank(b, n) else Rank(b, c)
    decreases n
  {
    if n != 0 {
      MaskRank(b, c, n - 1);
    }
  }

  lemma {:induction false} RankMonotone(b: bv32, c: bv6, d: bv6)
    requires c <= d <= 32
    ensures Rank(b, c) <= Rank(b, d)
    decreases d
  {
    if c < d { RankMonotone(b, c, d - 1); }
  }

  /** Distinct set bits have distinct ranks, in order, and every rank is below the population count. */
  lemma RankOrder(b: bv32, c: bv6, d: bv6)
    requires c < d <= 32 && Has(b, c)
    ensures Rank(b, c) < Rank(b, d)
  {
    RankMonotone(b, c + 1, d);
  }

  /** One more bit moves the ranks above it up by one. */
  lemma {:induction false} AddedRank(b: bv32, b': bv32, c: bv6, n: bv6)
    requires c < 32 && n <= 32 && !Has(b, c)
    requires forall i: bv6 :: i < 32 ==> Has(b', i) == (i == c || Has(b, i))
    ensures Rank(b', n) == Rank(b, n) + if n <= c then 0 else 1
    decreases n
  {
    hide Has;
    if n != 0 { AddedRank(b, b', c, n - 1); }
  }

  /** Where the slot of a set bit `d` moves when bit `c` joins the bitmap. */
  lemma AddedSlot(b: bv32, b': bv32, c: bv6, d: bv6)
    requires c < 32 && d < 32 && !Has(b, c)
    requires forall i: bv6 :: i < 32 ==> Has(b', i) == (i == c || Has(b, i))
    ensures d == c ==> Rank(b', d) == Rank(b, c)
    ensures d < c && Has(b, d) ==> Rank(b', d) == Rank(b, d) < Rank(b, c)
    ensures c < d ==> Rank(b', d) == Rank(b, d) + 1 > Rank(b, c)
  {
    hide Has, Rank;
    AddedRank(b, b', c, d);
    if d < c {
      if Has(b, d) { RankOrder(b, d, c); }
    } else {
      RankMonotone(b, c, d);
    }
  }

  lemma {:induction false} ZeroRank(n: bv6)
    requires n <= 32
    ensures Rank(0, n) == 0
    decreases n
  {
    if n != 0 { ZeroRank(n - 1); }
  }

  /** Every position below the population count is the rank of some set bit. */
  lemma {:induction false} Select(b: bv32, n: bv6, i: nat) returns (c: bv6)
    requires n <= 32 && i < Rank(b, n)
    ensures c < n && Has(b, c) && Rank(b, c) == i
    decreases n
  {
    hide Has;
    if Has(b, n - 1) && Rank(b, n - 1) == i {
      c := n - 1;
    } else {
      c := Select(b, n - 1, i);
    }
  }

  // ----- hashes -----

  /** The hashes agree on every chunk below `shift`, that is on their low `shift` bits. */
  ghost predicate Agree(x: bv64, y: bv64, shift: bv7)
    requires shift <= LAST_SHIFT + BITS_PER_LEVEL
    decreases shift
  {
    shift < BITS_PER_LEVEL ||
    (Agree(x, y, shift - BITS_PER_LEVEL) &&
     Chunk(x, shift - BITS_PER_LEVEL) == Chunk(y, shift - BITS_PER_LEVEL))
  }

  lemma AgreeNext(x: bv64, y: bv64, shift: bv7)
    requires shift <= LAST_SHIFT
    ensures Agree(x, y, shift + BITS_PER_LEVEL) <==> Agree(x, y, shift) && Chunk(x, shift) == Chunk(y, shift)
  {
    hide Chunk;
  }

  /** Two hashes that agree on all thirteen chunks are the same hash. */
  lemma AgreeEverywhere(x: bv64, y: bv64)
    requires Agree(x, y, LAST_SHIFT + BITS_PER_LEVEL)
    ensures x == y
  {
    hide Chunk;
    assert Agree(x, y, 50);
    assert Agree(x, y, 40);
    assert Agree(x, y, 30);
    assert Agree(x, y, 20);
    assert Agree(x, y, 10);
    assert Agree(x, y, 0);
    SameChunks(x, y);
  }

  lemma SameChunks(x: bv64, y: bv64)
    requires Chunk(x, 0) == Chunk(y, 0)
    requires Chunk(x, 5) == Chunk(y, 5) && Chunk(x, 10) == Chunk(y, 10)
    requires Chunk(x, 15) == Chunk(y, 15) && Chunk(x, 20) == Chunk(y, 20)
    requires Chunk(x, 25) == Chunk(y, 25) && Chunk(x, 30) == Chunk(y, 30)
    requires Chunk(x, 35) == Chunk(y, 35) && Chunk(x, 40) == Chunk(y, 40)
    requires Chunk(x, 45) == Chunk(y, 45) && Chunk(x, 50) == Chunk(y, 50)
    requires Chunk(x, 55) == Chunk(y, 55) && Chunk(x, 60) == Chunk(y, 60)
    ensures x == y
  {}
}

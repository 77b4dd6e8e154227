/**
 The bitmap of userprog/bitmap.cc: numBits bits packed into 32-bit words.  Its abstract value is
 the set of the bits that are set, which stand for sectors or page frames in use.
 */
module BitMaps {
  const BITS_IN_WORD: nat := 32

  function DivRoundUp(n: nat, s: nat): (r: nat)
    requires s > 0
    ensures (r - 1) * s < n <= r * s
  {
    n / s + (if n % s > 0 then 1 else 0)
  }

  /** 1 << k. */
  function Mask(k: nat): bv32
    requires k < 32
  {
    1 << k
  }

  predicate Bit(word: bv32, k: nat)
    requires k < 32
  {
    word & Mask(k) != 0
  }

  /** Small numbers survive the trip through a bit vector. */
  lemma SmallNumber(i: nat)
    requires i < 32
    ensures (i as bv32) as int == i
  {
    if i < 16 { SmallNumberBelow16(i); } else { SmallNumberFrom16(i); }
  }

  lemma SmallNumberBelow16(i: nat)
    requires i < 16
    ensures (i as bv32) as int == i
  {
    match i
    case 0 => case 1 => case 2 => case 3 => case 4 => case 5 => case 6 => case 7 =>
    case 8 => case 9 => case 10 => case 11 => case 12 => case 13 => case 14 => case 15 =>
  }

  lemma SmallNumberFrom16(i: nat)
    requires 16 <= i < 32
    ensures (i as bv32) as int == i
  {
    match i
    case 16 => case 17 => case 18 => case 19 => case 20 => case 21 => case 22 => case 23 =>
    case 24 => case 25 => case 26 => case 27 => case 28 => case 29 => case 30 => case 31 =>
  }

  lemma DistinctShifts(i: nat, j: nat)
    requires i < 32 && j < 32
    ensures (i as bv32) < 32 && (j as bv32) < 32
    ensures i as bv32 == j as bv32 <==> i == j
  {
    SmallNumber(i);
    SmallNumber(j);
  }

  lemma ShiftedOnes(i: bv32, j: bv32)
    requires i < 32 && j < 32
    ensures (1 as bv32) << i != 0
    ensures i != j ==> ((1 as bv32) << i) & ((1 as bv32) << j) == 0
  {
  }

  lemma Masks(i: nat, j: nat)
    requires i < 32 && j < 32
    ensures Mask(i) != 0
    ensures i != j ==> Mask(i) & Mask(j) == 0
  {
    DistinctShifts(i, j);
    ShiftedOnes(i as bv32, j as bv32);
  }

  lemma SetsMask(word: bv32, a: bv32)
    ensures (word | a) & a == a
  {
  }

  lemma ClearsMask(word: bv32, a: bv32)
    ensures (word & !a) & a == 0
  {
  }

  lemma SetsOnlyMask(word: bv32, a: bv32, b: bv32)
    requires a & b == 0
    ensures (word | a) & b == word & b
  {
  }

  lemma ClearsOnlyMask(word: bv32, a: bv32, b: bv32)
    requires a & b == 0
    ensures (word & !a) & b == word & b
  {
  }

  lemma SetOther(word: bv32, i: nat, j: nat)
    requires i < 32 && j < 32 && i != j
    ensures (word | Mask(i)) & Mask(j) == word & Mask(j)
  {
    Masks(i, j);
    SetsOnlyMask(word, Mask(i), Mask(j));
  }

  lemma ClearOther(word: bv32, i: nat, j: nat)
    requires i < 32 && j < 32 && i != j
    ensures (word & !Mask(i)) & Mask(j) == word & Mask(j)
  {
    Masks(i, j);
    ClearsOnlyMask(word, Mask(i), Mask(j));
  }

  lemma SetSame(word: bv32, i: nat)
    requires i < 32
    ensures (word | Mask(i)) & Mask(i) != 0
  {
    Masks(i, i);
    SetsMask(word, Mask(i));
  }

  /** Setting bit i of a word sets that bit and leaves the others. */
  lemma OneBitSet(word: bv32, i: nat, j: nat)
    requires i < 32 && j < 32
    ensures Bit(word | Mask(i), j) <==> i == j || Bit(word, j)
  {
    if i == j {
      SetSame(word, i);
    } else {
      SetOther(word, i, j);
    }
  }

  /** Clearing bit i of a word clears that bit and leaves the others. */
  lemma OneBitCleared(word: bv32, i: nat, j: nat)
    requires i < 32 && j < 32
    ensures Bit(word & !Mask(i), j) <==> i != j && Bit(word, j)
  {
    if i == j {
      ClearsMask(word, Mask(i));
    } else {
      ClearOther(word, i, j);
    }
  }

  /** Something for the comprehension in Below to match on. */
  predicate Natural(i: int) {
    0 <= i
  }

  /** The numbers from 0 up to and not including n. */
  ghost function Below(n: nat): set<nat> {
    set i: nat | Natural(i) && i < n
  }

  lemma {:induction false} BelowSize(n: nat)
    ensures |Below(n)| == n
  {
    if n > 0 {
      BelowSize(n - 1);
      assert Below(n) == Below(n - 1) + {n - 1};
    }
  }

  /** The bits set in `words`, of the first `numBits`. */
  ghost function BitsSet(words: seq<bv32>, numBits: nat): (s: set<nat>)
    requires numBits <= 32 * |words|
    ensures s <= Below(numBits)
  {
    set i: nat | i < numBits && Bit(words[i / 32], i % 32)
  }

  lemma InBitsSet(words: seq<bv32>, numBits: nat, i: nat)
    requires numBits <= 32 * |words|
    ensures i in BitsSet(words, numBits) <==> i < numBits && Bit(words[i / 32], i % 32)
  {
  }

  function WithBit(words: seq<bv32>, which: nat): seq<bv32>
    requires which < 32 * |words|
  {
    words[which / 32 := words[which / 32] | Mask(which % 32)]
  }

  function WithoutBit(words: seq<bv32>, which: nat): seq<bv32>
    requires which < 32 * |words|
  {
    words[which / 32 := words[which / 32] & !Mask(which % 32)]
  }

  lemma BitSetAt(words: seq<bv32>, which: nat, i: nat)
    requires which < 32 * |words| && i < 32 * |words|
    ensures Bit(WithBit(words, which)[i / 32], i % 32) <==> i == which || Bit(words[i / 32], i % 32)
  {
    SplitIndex(i, which);
    if i / 32 == which / 32 {
      OneBitSet(words[which / 32], which % 32, i % 32);
    } else {
      assert WithBit(words, which)[i / 32] == words[i / 32];
    }
  }

  lemma BitClearedAt(words: seq<bv32>, which: nat, i: nat)
    requires which < 32 * |words| && i < 32 * |words|
    ensures Bit(WithoutBit(words, which)[i / 32], i % 32) <==> i != which && Bit(words[i / 32], i % 32)
  {
    SplitIndex(i, which);
    if i / 32 == which / 32 {
      OneBitCleared(words[which / 32], which % 32, i % 32);
    } else {
      assert WithoutBit(words, which)[i / 32] == words[i / 32];
    }
  }

  lemma BitSet(words: seq<bv32>, numBits: nat, which: nat)
    requires which < numBits <= 32 * |words|
    ensures BitsSet(WithBit(words, which), numBits) == BitsSet(words, numBits) + {which}
  {
    forall i: nat | i < numBits ensures i in BitsSet(WithBit(words, which), numBits) <==> i == which || i in BitsSet(words, numBits) {
      BitSetAt(words, which, i);
    }
  }

  lemma BitCleared(words: seq<bv32>, numBits: nat, which: nat)
    requires which < numBits <= 32 * |words|
    ensures BitsSet(WithoutBit(words, which), numBits) == BitsSet(words, numBits) - {which}
  {
    forall i: nat | i < numBits ensures i in BitsSet(WithoutBit(words, which), numBits) <==> i != which && i in BitsSet(words, numBits) {
      BitClearedAt(words, which, i);
    }
  }

  class BitMap {
    const numBits: nat
    const words: array<bv32>

    ghost predicate Valid() {
      words.Length == DivRoundUp(numBits, BITS_IN_WORD)
    }

    /** The bits that are set. */
    ghost function Marked(): (s: set<nat>)
      requires Valid()
      reads words
      ensures s <= Below(numBits)
    {
      BitsSet(words[..], numBits)
    }

    constructor (nitems: nat)
      ensures Valid() && fresh(words) && numBits == nitems
      ensures Marked() == {}
    {
      numBits := nitems;
      words := new bv32[DivRoundUp(nitems, BITS_IN_WORD)];
      new;
      for i := 0 to numBits
        invariant Marked() * Below(i) == {}
      {
        Clear(i);
        assert Below(i + 1) == Below(i) + {i};
      }
      assert Marked() * Below(numBits) == Marked();
    }

    method Mark(which: nat)
      requires Valid() && which < numBits
      modifies words
      ensures Marked() == old(Marked()) + {which}
    {
      ghost var before := words[..];
      words[which / 32] := words[which / 32] | Mask(which % 32);
      BitSet(before, numBits, which);
      assert words[..] == WithBit(before, which);
    }

    method Clear(which: nat)
      requires Valid() && which < numBits
      modifies words
      ensures Marked() == old(Marked()) - {which}
    {
      ghost var before := words[..];
      words[which / 32] := words[which / 32] & !Mask(which % 32);
      BitCleared(before, numBits, which);
      assert words[..] == WithoutBit(before, which);
    }

    predicate Test(which: nat)
      requires Valid() && which < numBits
      reads words
      ensures Test(which) <==> which in Marked()
    {
      InBitsSet(words[..], numBits, which);
      Bit(words[which / 32], which % 32)
    }

    /** Finds the first clear bit and marks it; -1 if every bit is set. */
    method Find() returns (found: int)
      requires Valid()
      modifies words
      ensures found == -1 ==> Marked() == old(Marked()) == Below(numBits)
      ensures found != -1 ==>
                && 0 <= found < numBits && found !in old(Marked()) && Below(found) <= old(Marked())
                && Marked() == old(Marked()) + {found}
    {
      for i := 0 to numBits
        invariant words[..] == old(words[..])
        invariant Below(i) <= Marked()
      {
        if !Test(i) {
          Mark(i);
          return i;
        }
      }
      return -1;
    }

    /** The number of clear bits. */
    method NumClear() returns (count: nat)
      requires Valid()
      ensures count == |Below(numBits) - Marked()|
      ensures count + |Marked()| == numBits
    {
      count := 0;
      for i := 0 to numBits
        invariant count == |Below(i) - Marked()|
      {
        CountOneMore(Marked(), i);
        if !Test(i) {
          count := count + 1;
        }
      }
      CountAll(Marked(), numBits);
    }
  }

  lemma CountOneMore(marked: set<nat>, i: nat)
    ensures |Below(i + 1) - marked| == |Below(i) - marked| + (if i in marked then 0 else 1)
  {
    if i in marked {
      assert Below(i + 1) - marked == Below(i) - marked;
    } else {
      assert Below(i + 1) - marked == (Below(i) - marked) + {i};
    }
  }

  lemma CountAll(marked: set<nat>, n: nat)
    requires marked <= Below(n)
    ensures |Below(n) - marked| + |marked| == n
  {
    BelowSize(n);
    assert Below(n) == (Below(n) - marked) + marked;
  }

  lemma SplitIndex(i: nat, j: nat)
    ensures i == j <==> i / 32 == j / 32 && i % 32 == j % 32
  {
  }
}

/** The shift-and-add multiplication of the simulated R2000 (machine/mipssim.cc). */
module Mult {
  import opened Words

  /** The double-length product; the two words are its upper and lower half. */
  function Product(a: Word, b: Word, signedArith: bool): int {
    if signedArith then a * b else U(a) * U(b)
  }

  /** The number the words hi:lo stand for. */
  function DoubleWord(hi: Word, lo: Word, signedArith: bool): int {
    (if signedArith then hi else U(hi)) * TWO_TO_32 + U(lo)
  }

  /** -x on 32 bits: the most negative word is its own negation. */
  function Negate(x: Word): Word {
    Wrap(0 - x)
  }

  lemma MagnitudeOf(x: Word)
    ensures U(if x < 0 then Negate(x) else x) == if x < 0 then 0 - x else x
  {
  }

  lemma Bounds(x: nat, y: nat, m: nat)
    requires x <= m && y <= m
    ensures 0 <= x * y <= m * m
  {
    assert x * y <= m * y <= m * m;
  }

  /** One step of the loop on exact numbers. */
  lemma Halve(rem: nat, shifted: nat, acc: nat, total: nat)
    requires acc + rem * shifted == total
    ensures acc + (if rem % 2 == 1 then shifted else 0) + rem / 2 * (2 * shifted) == total
    ensures rem % 2 == 1 ==> acc + shifted <= total
  {
    var half, bit := rem / 2, rem % 2;
    assert rem == 2 * half + bit;
    assert rem * shifted == half * (2 * shifted) + bit * shifted;
    assert half * (2 * shifted) >= 0;
  }

  /** The arithmetic shift of a negative `a` keeps its low bits those of the unsigned word. */
  lemma ShiftRight(a: int, rem: nat, top: nat, negative: bool)
    requires top % 2 == 0 && rem < top && a == rem - (if negative then top else 0)
    ensures a % 2 == rem % 2 && a / 2 == rem / 2 - (if negative then top / 2 else 0) && rem / 2 < top / 2
    ensures a == 0 || a == 1 ==> rem == a
  {
  }

  lemma ShiftedFits(shifted: nat, top: nat, magnitude: nat)
    requires shifted * top == magnitude * TWO_TO_32 && top >= 1 && magnitude < TWO_TO_32
    ensures shifted < TWO_TO_32 * TWO_TO_32
  {
    assert shifted * top >= shifted;
  }

  lemma Rescale(shifted: nat, top: nat)
    requires top % 2 == 0
    ensures (2 * shifted) * (top / 2) == shifted * top
  {
    assert top == 2 * (top / 2);
    assert (2 * shifted) * (top / 2) == shifted * (2 * (top / 2));
  }

  function PowerOfTwo(n: nat): (p: nat)
    ensures p >= 1 && (n > 0 ==> p % 2 == 0)
  {
    if n == 0 then 1 else 2 * PowerOfTwo(n - 1)
  }

  method Mult(a: Word, b: Word, signedArith: bool) returns (hiWord: Word, loWord: Word)
    ensures DoubleWord(hiWord, loWord, signedArith) == Product(a, b, signedArith)
  {
    if a == 0 || b == 0 {
      return 0, 0;
    }
    var negative := false;
    var a', b' := a, b;
    if signedArith {
      if a' < 0 {
        negative := !negative;
        a' := Negate(a');
      }
      if b' < 0 {
        negative := !negative;
        b' := Negate(b');
      }
    }
    var hi, lo := ShiftAndAdd(a', b');
    Signs(a, b, signedArith, a', b', negative, hi, lo);
    if negative {
      hi, lo := Complement(hi, lo);
    }
    ReadBack(hi, lo, Product(a, b, signedArith), signedArith);
    hiWord, loWord := Wrap(hi), Wrap(lo);
  }

  /** Two unsigned words that hold a product modulo 2^64 hold it exactly when read back as a double word. */
  lemma ReadBack(hi: Unsigned, lo: Unsigned, product: int, signedArith: bool)
    requires hi * TWO_TO_32 + lo == if product < 0 then TWO_TO_32 * TWO_TO_32 + product else product
    requires signedArith ==> -TWO_TO_31 * TWO_TO_31 <= product <= TWO_TO_31 * TWO_TO_31
    requires !signedArith ==> product >= 0
    ensures DoubleWord(Wrap(hi), Wrap(lo), signedArith) == product
  {
  }

  /** The magnitudes multiplied, with the sign applied afterwards, give the product. */
  lemma Signs(a: Word, b: Word, signedArith: bool, a': Word, b': Word, negative: bool, hi: Unsigned, lo: Unsigned)
    requires a != 0 && b != 0
    requires a' == (if signedArith && a < 0 then Negate(a) else a) && b' == (if signedArith && b < 0 then Negate(b) else b)
    requires negative == (signedArith && (a < 0) != (b < 0))
    requires hi * TWO_TO_32 + lo == U(a') * U(b')
    ensures Product(a, b, signedArith) == if negative then 0 - (hi * TWO_TO_32 + lo) else hi * TWO_TO_32 + lo
    ensures hi * TWO_TO_32 + lo > 0
    ensures signedArith ==> hi * TWO_TO_32 + lo <= TWO_TO_31 * TWO_TO_31
  {
    MagnitudeOf(a);
    MagnitudeOf(b);
    var x: int, y: int := U(a'), U(b');
    assert x > 0 && y > 0;
    PositiveProduct(x, y);
    if signedArith {
      assert x == (if a < 0 then 0 - a else a) && y == if b < 0 then 0 - b else b;
      ProductOfMagnitudes(a, b);
      Bounds(x, y, TWO_TO_31);
    }
  }

  lemma PositiveProduct(x: int, y: int)
    requires x > 0 && y > 0
    ensures x * y > 0
  {
  }

  lemma ProductOfMagnitudes(a: int, b: int)
    ensures (0 - a) * (0 - b) == a * b && (0 - a) * b == 0 - a * b && a * (0 - b) == 0 - a * b
  {
  }

  /** The two's complement of a double word. */
  method Complement(hi: Unsigned, lo: Unsigned) returns (hi': Unsigned, lo': Unsigned)
    requires hi * TWO_TO_32 + lo > 0
    ensures hi' * TWO_TO_32 + lo' == TWO_TO_32 * TWO_TO_32 - (hi * TWO_TO_32 + lo)
  {
    hi' := TWO_TO_32 - 1 - hi;
    lo' := TWO_TO_32 - 1 - lo;
    lo' := (lo' + 1) % TWO_TO_32;
    if lo' == 0 {
      hi' := (hi' + 1) % TWO_TO_32;
    }
  }

  /** The main loop: checks a's bits one at a time and adds in the shifted b. */
  method ShiftAndAdd(a: Word, b: Word) returns (hi: Unsigned, lo: Unsigned)
    ensures hi * TWO_TO_32 + lo == U(a) * U(b)
  {
    var a' := a;
    var bLo: Unsigned, bHi: Unsigned := U(b), 0;
    lo, hi := 0, 0;
    ghost var rem: nat, shifted: nat, top: nat := U(a), U(b), TWO_TO_32;
    ghost var total := U(a) * U(b);
    Bounds(U(a), U(b), TWO_TO_32 - 1);
    PowerOf32();
    var i := 0;
    while i < 32
      invariant 0 <= i <= 32
      invariant top == PowerOfTwo(32 - i) && rem < top
      invariant a' == rem - (if a < 0 then top else 0)
      invariant shifted == bHi * TWO_TO_32 + bLo
      invariant shifted * top == U(b) * TWO_TO_32
      invariant hi * TWO_TO_32 + lo + rem * shifted == total
    {
      Halve(rem, shifted, hi * TWO_TO_32 + lo, total);
      ShiftRight(a', rem, top, a < 0);
      Rescale(shifted, top);
      ShiftedFits(2 * shifted, top / 2, U(b));
      if a' % 2 == 1 {
        hi, lo := AddDouble(hi, lo, bHi, bLo);
        if a' == 0 || a' == 1 {
          return;
        }
      }
      bHi, bLo := ShiftLeft(bHi, bLo);
      a' := a' / 2;
      rem, shifted, top := rem / 2, 2 * shifted, top / 2;
      i := i + 1;
    }
  }

  lemma PowerOf32()
    ensures PowerOfTwo(32) == TWO_TO_32
  {
    assert PowerOfTwo(8) == 256;
    assert PowerOfTwo(16) == 65536;
    assert PowerOfTwo(24) == 0x100_0000;
  }

  method AddDouble(hi: Unsigned, lo: Unsigned, bHi: Unsigned, bLo: Unsigned) returns (hi': Unsigned, lo': Unsigned)
    requires hi * TWO_TO_32 + lo + bHi * TWO_TO_32 + bLo < TWO_TO_32 * TWO_TO_32
    ensures hi' * TWO_TO_32 + lo' == hi * TWO_TO_32 + lo + bHi * TWO_TO_32 + bLo
  {
    hi' := hi;
    lo' := (lo + bLo) % TWO_TO_32;
    if lo' < bLo {
      hi' := (hi' + 1) % TWO_TO_32;
    }
    hi' := (hi' + bHi) % TWO_TO_32;
  }

  method ShiftLeft(bHi: Unsigned, bLo: Unsigned) returns (hi: Unsigned, lo: Unsigned)
    requires 2 * (bHi * TWO_TO_32 + bLo) < TWO_TO_32 * TWO_TO_32
    ensures hi * TWO_TO_32 + lo == 2 * (bHi * TWO_TO_32 + bLo)
  {
    hi := 2 * bHi % TWO_TO_32;
    if bLo >= TWO_TO_31 {
      hi := hi + 1;
    }
    lo := 2 * bLo % TWO_TO_32;
  }
}

/** The bits of words, and what the logical and shift instructions of Mips do to them. */
module Bits {
  import opened Words
  import opened Translation
  import opened Mult
  import opened Mips

  /** Bit k of a word. */
  predicate Bit(x: Word, k: nat) {
    U(x) / PowerOfTwo(k) % 2 == 1
  }

  predicate Combined(both: Word, one: Word, x: bool, y: bool) {
    if x && y then both == 1 else if x != y then one == 1 else false
  }

  lemma HalfOf(n: int, rest: nat)
    requires rest < 2
    ensures (2 * n + rest) / 2 == n && (2 * n + rest) % 2 == rest
  {
  }

  lemma Distribute(x: int, y: int, m: int)
    ensures (x + y) * m == x * m + y * m
  {
  }

  lemma Associate(x: int, y: int, m: int)
    ensures x * y * m == x * (y * m)
  {
  }

  lemma SmallProduct(r: int, b: int, a: int)
    requires 0 <= r < b && a > 0
    ensures 0 <= r * a <= b * a - a
  {
    Distribute(b - 1 - r, r, a);
    Distribute(b - 1, 1, a);
  }

  lemma Quotients(n: int, m: int, q: int, r: int)
    requires m > 0 && n == q * m + r && 0 <= r < m
    ensures n / m == q
  {
    ModUnique(n, m, q, r);
  }

  lemma ScaledDivision(n: int, a: int, b: int, q: int, r: int, q': int, r': int)
    requires a > 0 && b > 0 && n == q * a + r && 0 <= r < a && q == q' * b + r' && 0 <= r' < b
    ensures b * a > 0 && n / (b * a) == q'
  {
    Distribute(q' * b, r', a);
    Associate(q', b, a);
    SmallProduct(r', b, a);
    SmallProduct(0, b, a);
    Quotients(n, b * a, q', r' * a + r);
  }

  /** Dividing by a and then by b is dividing by their product. */
  lemma DivideTwice(n: int, a: int, b: int)
    requires a > 0 && b > 0
    ensures a * b > 0 && n / (a * b) == n / a / b
  {
    ScaledDivision(n, a, b, n / a, n % a, n / a / b, n / a % b);
  }

  /** The bits of a combination are the combinations of the bits. */
  lemma {:induction false} BitwiseBits(both: Word, one: Word, x: nat, y: nat, k: nat)
    requires both in {0, 1} && one in {0, 1}
    ensures Bitwise(both, one, x, y) >= 0
    ensures Bitwise(both, one, x, y) / PowerOfTwo(k) % 2 == 1 <==>
            Combined(both, one, x / PowerOfTwo(k) % 2 == 1, y / PowerOfTwo(k) % 2 == 1)
    decreases x + y
  {
    if x == 0 && y == 0 {
      NoBits(PowerOfTwo(k));
    } else {
      var n := Bitwise(both, one, x / 2, y / 2);
      BitwiseBits(both, one, x / 2, y / 2, if k == 0 then 0 else k - 1);
      HalfOf(n, Bitwise(both, one, x, y) - 2 * n);
      if k > 0 {
        DivideTwice(x, 2, PowerOfTwo(k - 1));
        DivideTwice(y, 2, PowerOfTwo(k - 1));
        DivideTwice(Bitwise(both, one, x, y), 2, PowerOfTwo(k - 1));
      }
    }
  }

  lemma NoBits(p: nat)
    requires p >= 1
    ensures 0 / p == 0
  {
  }

  lemma {:induction false} BitwiseFits(both: Word, one: Word, x: nat, y: nat, n: nat)
    requires both in {0, 1} && one in {0, 1} && x < PowerOfTwo(n) && y < PowerOfTwo(n)
    ensures 0 <= Bitwise(both, one, x, y) < PowerOfTwo(n)
    decreases n
  {
    if x != 0 || y != 0 {
      BitwiseFits(both, one, x / 2, y / 2, n - 1);
    }
  }

  lemma CombinedBits(both: Word, one: Word, a: Word, b: Word, k: nat)
    requires both in {0, 1} && one in {0, 1}
    ensures Bit(Wrap(Bitwise(both, one, U(a), U(b))), k) <==> Combined(both, one, Bit(a, k), Bit(b, k))
  {
    PowerOf32();
    BitwiseFits(both, one, U(a), U(b), 32);
    UnsignedOf(Bitwise(both, one, U(a), U(b)));
    BitwiseBits(both, one, U(a), U(b), k);
  }

  /** The bits of a conjunction, a disjunction and an exclusive disjunction of words. */
  lemma LogicalBits(a: Word, b: Word, k: nat)
    ensures Bit(BitAnd(a, b), k) <==> Bit(a, k) && Bit(b, k)
    ensures Bit(BitOr(a, b), k) <==> Bit(a, k) || Bit(b, k)
    ensures Bit(BitXor(a, b), k) <==> Bit(a, k) != Bit(b, k)
  {
    CombinedBits(1, 0, a, b, k);
    CombinedBits(1, 1, a, b, k);
    CombinedBits(0, 1, a, b, k);
  }

  lemma {:induction false} BitwiseSame(x: nat)
    ensures Bitwise(1, 1, x, x) == x
  {
    if x > 0 {
      BitwiseSame(x / 2);
    }
  }

  lemma {:induction false} PowerSum(m: nat, n: nat)
    ensures PowerOfTwo(m + n) == PowerOfTwo(m) * PowerOfTwo(n)
  {
    if m > 0 {
      PowerSum(m - 1, n);
      assert PowerOfTwo(m + n) == 2 * PowerOfTwo(m - 1 + n);
      assert 2 * PowerOfTwo(m - 1) * PowerOfTwo(n) == 2 * (PowerOfTwo(m - 1) * PowerOfTwo(n));
    }
  }

  lemma Cancel(x: int, a: int, b: int)
    requires a > 0 && b > 0
    ensures a * b > 0 && (x * b) / (a * b) == x / a
  {
    CancelFrom(x, a, b, x / a, x % a);
  }

  lemma CancelFrom(x: int, a: int, b: int, q: int, r: int)
    requires a > 0 && b > 0 && x == q * a + r && 0 <= r < a
    ensures a * b > 0 && (x * b) / (a * b) == q
  {
    Distribute(q * a, r, b);
    Associate(q, a, b);
    SmallProduct(r, a, b);
    SmallProduct(0, a, b);
    Quotients(x * b, a * b, q, r * b);
  }

  lemma EvenMultiple(x: int, e: int)
    requires e % 2 == 0
    ensures x * e % 2 == 0
  {
    assert e == 2 * (e / 2);
    assert x * e == 2 * (x * (e / 2));
  }

  /** What is left of a number moved up n places, at place k. */
  lemma ShiftedUp(x: int, n: nat, k: nat)
    ensures x * PowerOfTwo(n) / PowerOfTwo(k) % 2 == if k < n then 0 else x / PowerOfTwo(k - n) % 2
  {
    if k < n {
      PowerSum(n - k, k);
      var e := PowerOfTwo(n - k);
      assert x * PowerOfTwo(n) == (x * e) * PowerOfTwo(k);
      Quotients((x * e) * PowerOfTwo(k), PowerOfTwo(k), x * e, 0);
      EvenMultiple(x, e);
    } else {
      PowerSum(k - n, n);
      Cancel(x, PowerOfTwo(k - n), PowerOfTwo(n));
    }
  }

  /** Multiples of 2^32 do not show in the bits of a word. */
  lemma HighPart(x: int, z: int, k: nat)
    requires k < 32
    ensures (x + z * TWO_TO_32) / PowerOfTwo(k) % 2 == x / PowerOfTwo(k) % 2
  {
    WordPower(k);
    Divided(x, PowerOfTwo(k));
    HighMultiple(x, z, PowerOfTwo(k), PowerOfTwo(32 - k), x / PowerOfTwo(k), x % PowerOfTwo(k));
  }

  lemma WordPower(k: nat)
    requires k < 32
    ensures PowerOfTwo(32 - k) * PowerOfTwo(k) == TWO_TO_32 && PowerOfTwo(32 - k) % 2 == 0
  {
    PowerOf32();
    PowerSum(32 - k, k);
  }

  lemma Divided(x: int, p: int)
    requires p > 0
    ensures x == x / p * p + x % p && 0 <= x % p < p
  {
  }

  lemma HighMultiple(x: int, z: int, p: int, e: int, q: int, r: int)
    requires p > 0 && e % 2 == 0 && e * p == TWO_TO_32 && x == q * p + r && 0 <= r < p
    ensures (x + z * TWO_TO_32) / p % 2 == q % 2
  {
    Associate(z, e, p);
    Distribute(q, z * e, p);
    Quotients(x + z * TWO_TO_32, p, q + z * e, r);
    EvenMultiple(z, e);
    SameParity(q, z * e);
  }

  lemma SameParity(q: int, e: int)
    requires e % 2 == 0
    ensures (q + e) % 2 == q % 2
  {
  }

  /** The bits of a word that a number wraps to are the low bits of the number. */
  lemma WrappedBit(x: int, k: nat)
    requires k < 32
    ensures Bit(Wrap(x), k) <==> x / PowerOfTwo(k) % 2 == 1
  {
    var z := (U(Wrap(x)) - x) / TWO_TO_32;
    assert (U(Wrap(x)) - x) % TWO_TO_32 == 0;
    assert U(Wrap(x)) == x + z * TWO_TO_32;
    HighPart(x, z, k);
  }

  lemma SignedBit(x: Word, k: nat)
    requires k < 32
    ensures Bit(x, k) <==> x / PowerOfTwo(k) % 2 == 1
  {
    WrappedBit(x, k);
  }

  lemma LeftShiftBits(x: Word, n: nat, k: nat)
    requires k < 32
    ensures Bit(Mips.ShiftLeft(x, n), k) <==> k >= n && Bit(x, k - n)
  {
    WrappedBit(x * PowerOfTwo(n), k);
    ShiftedUp(x, n, k);
    if k >= n {
      SignedBit(x, k - n);
    }
  }

  /** Far enough to the right there is only the sign. */
  lemma {:induction false} OnlySign(x: Word, k: nat)
    requires k >= 31
    ensures x / PowerOfTwo(k) == if x < 0 then -1 else 0
    decreases k
  {
    if k == 31 {
      PowerOf32();
    } else {
      OnlySign(x, k - 1);
      DivideTwice(x, PowerOfTwo(k - 1), 2);
    }
  }

  lemma RightShiftBits(x: Word, n: nat, k: nat)
    requires k < 32
    ensures Bit(Mips.ShiftRight(x, n), k) <==> Bit(x, if n + k < 32 then n + k else 31)
  {
    WrappedBit(x / PowerOfTwo(n), k);
    DivideTwice(x, PowerOfTwo(n), PowerOfTwo(k));
    PowerSum(n, k);
    SignedBit(x, if n + k < 32 then n + k else 31);
    if n + k >= 32 {
      OnlySign(x, n + k);
      OnlySign(x, 31);
    }
  }

  /** Multiples of 2^16 do not show in the lower sixteen bits. */
  lemma LowHalfBit(x: int, z: int, k: nat)
    requires k < 16
    ensures (x + z * 0x1_0000) / PowerOfTwo(k) % 2 == x / PowerOfTwo(k) % 2
  {
    PowerOf16();
    PowerSum(16 - k, k);
    Divided(x, PowerOfTwo(k));
    EvenPart(x, z, PowerOfTwo(k), PowerOfTwo(16 - k), x / PowerOfTwo(k), x % PowerOfTwo(k));
  }

  lemma PowerOf16()
    ensures PowerOfTwo(16) == 0x1_0000
  {
    assert PowerOfTwo(8) == 256;
  }

  lemma EvenPart(x: int, z: int, p: int, e: int, q: int, r: int)
    requires p > 0 && e % 2 == 0 && e * p == 0x1_0000 && x == q * p + r && 0 <= r < p
    ensures (x + z * 0x1_0000) / p % 2 == q % 2
  {
    Associate(z, e, p);
    Distribute(q, z * e, p);
    Quotients(x + z * 0x1_0000, p, q + z * e, r);
    EvenMultiple(z, e);
    SameParity(q, z * e);
  }

  lemma SmallOverLarge(x: nat, k: nat)
    requires x < 0x1_0000 && k >= 16
    ensures x / PowerOfTwo(k) == 0
  {
    PowerOf16();
    PowerSum(k - 16, 16);
    SmallProduct(0, PowerOfTwo(k - 16), 0x1_0000);
    Quotients(x, PowerOfTwo(k), 0, x);
  }

  /** An immediate operand of a logical instruction has its lower sixteen bits. */
  lemma HalfBits(x: Word, k: nat)
    ensures Bit(Half(x), k) <==> k < 16 && Bit(x, k)
  {
    if k < 16 {
      assert U(x) == U(x) % 0x1_0000 + U(x) / 0x1_0000 * 0x1_0000;
      LowHalfBit(U(x) % 0x1_0000, U(x) / 0x1_0000, k);
    } else {
      SmallOverLarge(U(x) % 0x1_0000, k);
    }
  }

  lemma UpperHalfBits(x: Word, k: nat)
    requires k < 32
    ensures Bit(Wrap(x * 0x1_0000), k) <==> k >= 16 && Bit(x, k - 16)
  {
    PowerOf16();
    LeftShiftBits(x, 16, k);
  }

  lemma NegatedQuotient(x: int, p: int)
    requires p > 0
    ensures (-1 - x) / p == -1 - x / p
  {
    Divided(x, p);
    Distribute(-1, 0 - x / p, p);
    NegatedFrom(x, p, x / p, x % p);
  }

  lemma NegatedFrom(x: int, p: int, q: int, r: int)
    requires p > 0 && x == q * p + r && 0 <= r < p
    ensures (-1 - x) / p == -1 - q
  {
    Distribute(-1 - q, q, p);
    Quotients(-1 - x, p, -1 - q, p - 1 - r);
  }

  lemma ComplementBits(x: Word, k: nat)
    requires k < 32
    ensures Bit(-1 - x, k) <==> !Bit(x, k)
  {
    SignedBit(x, k);
    SignedBit(-1 - x, k);
    NegatedQuotient(x, PowerOfTwo(k));
    OtherParity(x / PowerOfTwo(k));
  }

  lemma OtherParity(q: int)
    ensures (-1 - q) % 2 == 1 - q % 2
  {
  }

  /** OR takes both operands from the same register. */
  lemma OrOfSame(x: Word)
    ensures BitOr(x, x) == x
  {
    BitwiseSame(U(x));
    WrapOfUnsigned(x);
  }
}

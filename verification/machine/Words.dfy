/** 32-bit machine words as the C++ int and unsigned int hold them. */
module Words {
  const TWO_TO_31: int := 0x8000_0000
  const TWO_TO_32: int := 0x1_0000_0000

  /** A register: a signed 32-bit integer. */
  type Word = x: int | -0x8000_0000 <= x < 0x8000_0000

  type Unsigned = x: int | 0 <= x < 0x1_0000_0000

  type Byte = b: int | 0 <= b < 256

  /** The conversion to unsigned int. */
  function U(w: Word): (u: Unsigned)
    ensures u == w || u == w + TWO_TO_32
  {
    if w < 0 then w + TWO_TO_32 else w
  }

  /** Wrap-around to a signed word. */
  function Wrap(x: int): (w: Word)
    ensures (x - w) % TWO_TO_32 == 0
    ensures -TWO_TO_31 <= x < TWO_TO_31 ==> w == x
  {
    var m := x % TWO_TO_32;
    if m < TWO_TO_31 then m else m - TWO_TO_32
  }

  lemma WrapOfUnsigned(w: Word)
    ensures Wrap(U(w)) == w
  {
  }

  lemma UnsignedOf(v: int)
    requires 0 <= v < TWO_TO_32
    ensures U(Wrap(v)) == v
  {
  }
}

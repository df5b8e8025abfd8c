/** The division step of the checksum and the bit-vector facts about it. */
module Polynomial {
  const POLYNOMIAL: bv32 := 0xEDB88320
  const ONES: bv32 := 0xFFFFFFFF

  /** One step of the division: the lowest register bit decides whether the polynomial is subtracted. */
  function Shift(r: bv32): bv32
  {
    if r & 1 == 1 then (r >> 1) ^ POLYNOMIAL else r >> 1
  }

  function Xor(x: bv32, y: bv32): bv32
  {
    x ^ y
  }

  function ShiftOut(r: bv32): bv32
  {
    Shift(Shift(Shift(Shift(Shift(Shift(Shift(Shift(r))))))))
  }

  lemma BitIsZeroOrOne(x: bv32)
    ensures x & 1 == 0 || x & 1 == 1
  {
  }

  lemma ShiftXorEvenEven(x: bv32, y: bv32)
    requires x & 1 == 0 && y & 1 == 0
    ensures Shift(x ^ y) == Shift(x) ^ Shift(y)
  {
  }

  lemma ShiftXorEvenOdd(x: bv32, y: bv32)
    requires x & 1 == 0 && y & 1 == 1
    ensures Shift(x ^ y) == Shift(x) ^ Shift(y)
  {
  }

  lemma ShiftXorOddEven(x: bv32, y: bv32)
    requires x & 1 == 1 && y & 1 == 0
    ensures Shift(x ^ y) == Shift(x) ^ Shift(y)
  {
  }

  lemma ShiftXorOddOdd(x: bv32, y: bv32)
    requires x & 1 == 1 && y & 1 == 1
    ensures Shift(x ^ y) == Shift(x) ^ Shift(y)
  {
  }

  lemma ShiftXorCases(x: bv32, y: bv32)
    ensures Shift(x ^ y) == Shift(x) ^ Shift(y)
  {
    BitIsZeroOrOne(x);
    BitIsZeroOrOne(y);
    if x & 1 == 0 {
      if y & 1 == 0 {
        ShiftXorEvenEven(x, y);
      } else {
        ShiftXorEvenOdd(x, y);
      }
    } else {
      if y & 1 == 0 {
        ShiftXorOddEven(x, y);
      } else {
        ShiftXorOddOdd(x, y);
      }
    }
  }

  lemma ShiftXor(x: bv32, y: bv32)
    ensures Shift(Xor(x, y)) == Xor(Shift(x), Shift(y))
  {
    ShiftXorCases(x, y);
  }

  lemma ShiftInjective(x: bv32, y: bv32)
    requires Shift(x) == Shift(y)
    ensures x == y
  {
  }

  lemma XorMoves(x: bv32, y: bv32, z: bv32)
    ensures Xor(x, y ^ z) == Xor(x ^ y, z)
  {
  }

  lemma XorAssociative(x: bv32, y: bv32, z: bv32)
    ensures Xor(x, Xor(y, z)) == Xor(Xor(x, y), z)
  {
    XorMoves(x, y, z);
  }

  lemma XorCancels(x: bv32, y: bv32, z: bv32)
    ensures Xor(x, y) == Xor(x, z) ==> y == z
    ensures Xor(y, x) == Xor(z, x) ==> y == z
    ensures Xor(Xor(x, y), y) == x
    ensures Xor(x, 0) == x
  {
  }

  function LowBit(v: bv32): bv32
  {
    v & 1
  }

  function Halve(v: bv32): bv32
  {
    v >> 1
  }

  lemma HalvedFour(w: bv32)
    ensures Halve(w) == w >> 1 && Halve(w >> 1) == w >> 2 && Halve(w >> 2) == w >> 3 && Halve(w >> 3) == w >> 4
  {
  }

  lemma HalvedEight(w: bv32)
    ensures Halve(w >> 4) == w >> 5 && Halve(w >> 5) == w >> 6 && Halve(w >> 6) == w >> 7
    ensures w & 0xFF == w ==> Halve(w >> 7) == 0
  {
  }

  lemma Halves(v: bv32)
    ensures Xor(LowBit(v), v & 0xFFFFFFFE) == v
    ensures Shift(v & 0xFFFFFFFE) == Halve(v)
  {
  }

  lemma FeedLaw(r: bv32, v: bv32)
    ensures Shift(Xor(r, v)) == Xor(Shift(Xor(r, LowBit(v))), Halve(v))
  {
    Halves(v);
    XorAssociative(r, LowBit(v), v & 0xFFFFFFFE);
    ShiftXor(Xor(r, LowBit(v)), v & 0xFFFFFFFE);
  }

  function Pack(x0: bv32, x1: bv32, x2: bv32, x3: bv32, x4: bv32, x5: bv32, x6: bv32, x7: bv32): bv32
  {
    x0 | (x1 << 1) | (x2 << 2) | (x3 << 3) | (x4 << 4) | (x5 << 5) | (x6 << 6) | (x7 << 7)
  }

  predicate IsBit(x: bv32)
  {
    x & 1 == x
  }

  lemma Unpacked(x0: bv32, x1: bv32, x2: bv32, x3: bv32, x4: bv32, x5: bv32, x6: bv32, x7: bv32)
    requires IsBit(x0) && IsBit(x1) && IsBit(x2) && IsBit(x3) && IsBit(x4) && IsBit(x5) && IsBit(x6) && IsBit(x7)
    ensures var w := Pack(x0, x1, x2, x3, x4, x5, x6, x7);
            w & 0xFF == w
            && w & 1 == x0 && (w >> 1) & 1 == x1 && (w >> 2) & 1 == x2 && (w >> 3) & 1 == x3
            && (w >> 4) & 1 == x4 && (w >> 5) & 1 == x5 && (w >> 6) & 1 == x6 && (w >> 7) & 1 == x7
  {
  }

  function Up(w: bv32): bv32
  {
    w << 8
  }

  function Mask(n: nat): bv32
  {
    if n == 0 then 0 else if n == 1 then 0xFF else if n == 2 then 0xFFFF else if n == 3 then 0xFFFFFF else 0xFFFFFFFF
  }

  predicate FitsBytes(w: bv32, n: nat)
  {
    w & Mask(n) == w
  }

  lemma FitsStep(w: bv32, v: bv32, n: nat)
    requires n < 4 && FitsBytes(w, n) && v & 0xFF == v
    ensures FitsBytes(Xor(v, Up(w)), n + 1)
  {
  }

  lemma Unpack(v: bv32, w: bv32, n: nat)
    requires n < 4 && FitsBytes(w, n) && v & 0xFF == v
    ensures Xor(v, Up(w)) & 0xFF == v && Xor(v, Up(w)) >> 8 == w
  {
  }

  lemma ShiftOutHigh(v: bv32)
    requires v & 0xFF == 0
    ensures ShiftOut(v) == v >> 8
  {
  }

  lemma UpAndBack(w: bv32, n: nat)
    requires n < 4 && FitsBytes(w, n)
    ensures Up(w) & 0xFF == 0 && Up(w) >> 8 == w
  {
  }

  /** The index byte the loop looks up. */
  function IndexByte(r: bv32, w: bv32): bv32
  {
    (r ^ w) & 0xFF
  }

  /** What is left of the register besides the index byte. */
  function HighBytes(r: bv32, w: bv32): bv32
  {
    (r ^ w) & 0xFFFFFF00
  }

  lemma IndexAndHigh(r: bv32, w: bv32)
    ensures Xor(IndexByte(r, w), HighBytes(r, w)) == Xor(r, w)
  {
  }

  lemma HighIsHigh(r: bv32, w: bv32)
    ensures HighBytes(r, w) & 0xFF == 0
  {
  }

  lemma IndexIsByte(r: bv32, w: bv32)
    ensures IndexByte(r, w) & 0xFF == IndexByte(r, w)
  {
  }

  lemma HighOfRegister(r: bv32, w: bv32)
    requires w & 0xFF == w
    ensures HighBytes(r, w) >> 8 == r >> 8
  {
  }
}

/** What pins the checksum down to the last bit: how bytes enter it, and what a byte in front does. */
module CrcValues {
  import opened Bytes
  import opened LinearRegister
  import opened Polynomial
  import opened Crc32
  import opened CrcNumber

  // ---------------------------------------------------------------- a byte enters as its own number

  lemma NumberOfZero(nibbles: nat)
    ensures Number(0, nibbles) == 0
  {
    if nibbles > 0 {
      NumberOfZero(nibbles - 1);
    }
  }

  /** A word of eight bits has two nibbles. */
  lemma TwoNibbles(w: bv32)
    requires w & 0xFF == w
    ensures Number(w, 8) == 16 * LowNibble(Rest(w)) + LowNibble(w)
  {
    hide LowNibble, Rest;
    assert Rest(Rest(w)) == 0 by { RestOfByte(w); }
    NumberOfZero(6);
    assert Number(Rest(Rest(w)), 6) == 0;
  }

  lemma RestOfByte(w: bv32)
    requires w & 0xFF == w
    ensures Rest(Rest(w)) == 0
  {
  }

  lemma HighBits(w: bv32)
    ensures var r := Rest(w);
            && (r & 1 == 1 <==> (w >> 4) & 1 == 1) && ((r >> 1) & 1 == 1 <==> (w >> 5) & 1 == 1)
            && ((r >> 2) & 1 == 1 <==> (w >> 6) & 1 == 1) && ((r >> 3) & 1 == 1 <==> (w >> 7) & 1 == 1)
  {
  }

  lemma NibbleFromBits(x: bv32)
    ensures LowNibble(x) == Nibble((x >> 3) & 1 == 1, (x >> 2) & 1 == 1, (x >> 1) & 1 == 1, x & 1 == 1)
  {
    SingleBits(x);
  }

  /** Halved four times, with the bits that went. */
  lemma FourHalves(x0: nat, x1: nat, x2: nat, x3: nat, x4: nat)
    requires x1 == x0 / 2 && x2 == x1 / 2 && x3 == x2 / 2 && x4 == x3 / 2
    ensures x0 == 16 * x4 + Nibble(x3 % 2 == 1, x2 % 2 == 1, x1 % 2 == 1, x0 % 2 == 1)
  {
  }

  /** A byte is the sum of its bits. */
  lemma ByteOfBits(b: byte)
    ensures b == 16 * Nibble(Half(b, 7) % 2 == 1, Half(b, 6) % 2 == 1, Half(b, 5) % 2 == 1, Half(b, 4) % 2 == 1)
               + Nibble(Half(b, 3) % 2 == 1, Half(b, 2) % 2 == 1, Half(b, 1) % 2 == 1, b % 2 == 1)
  {
    hide Half, Nibble;
    HalvesBounded(b);
    HalvesPositive(b);
    FourHalves(b, Half(b, 1), Half(b, 2), Half(b, 3), Half(b, 4));
    FourHalves(Half(b, 4), Half(b, 5), Half(b, 6), Half(b, 7), 0);
  }

  lemma HalvesPositive(b: byte)
    ensures forall k: nat :: Half(b, k) >= 0
  {
    forall k: nat
      ensures Half(b, k) >= 0
    {
      HalfPositive(b, k);
    }
  }

  lemma HalfPositive(b: nat, k: nat)
    ensures Half(b, k) >= 0
  {
  }

  lemma BitIsOdd(n: int)
    ensures Bit(n) == 1 <==> n % 2 == 1
  {
  }

  /** A byte goes into the register as the number it is, its lowest bit first. */
  lemma EntersAsNumber(b: byte)
    ensures Number(Wide(b), 8) == b
  {
    hide Wide, Number, LowNibble, Bit, Half, Rest;
    var w := Wide(b);
    WideBits(b);
    TwoNibbles(w);
    NibbleFromBits(w);
    NibbleFromBits(Rest(w));
    HighBits(w);
    BitIsOdd(b);
    BitIsOdd(Half(b, 1));
    BitIsOdd(Half(b, 2));
    BitIsOdd(Half(b, 3));
    BitIsOdd(Half(b, 4));
    BitIsOdd(Half(b, 5));
    BitIsOdd(Half(b, 6));
    BitIsOdd(Half(b, 7));
    ByteOfBits(b);
  }

  // ---------------------------------------------------------------- what is in front counts

  lemma ZeroIsWideZero()
    ensures Wide(0) == 0
  {
    EntersAsNumber(0);
    NumberOfZero(8);
    NumberInjective(Wide(0), 0);
  }

  /** A zero byte shifts the register. */
  lemma DivideZero(r: bv32)
    ensures DivideByte(r, 0) == ShiftOut(r)
  {
    hide DivideByte, Wide, Shift, Xor;
    DivideByteIsAbsorb(r, 0);
    ZeroIsWideZero();
    XorZero(r);
    ShiftOutIsIterate(r, REGISTER.width);
  }

  lemma XorZero(r: bv32)
    ensures Xor(r, 0) == r
  {
  }

  lemma FoldOne(r: bv32, b: byte)
    ensures Fold(DivideByte, r, [b]) == DivideByte(r, b)
  {
    hide DivideByte;
    assert [b][1..] == [];
  }

  lemma OnesShifted()
    ensures ShiftOut(Xor(0, 0xFFFFFFFF)) == 0x2DFD1072 && Xor(0x2DFD1072, 0xFFFFFFFF) == 0xD202EF8D
    ensures ShiftOut(Xor(0, 0xFFFFFFFF)) != Xor(0, 0xFFFFFFFF)
  {
  }

  /** The checksum of a single zero byte. */
  lemma ZeroByte()
    ensures Checksum(0, [0]) == 0xD202EF8D
  {
    hide DivideByte, Xor, ShiftOut;
    FoldOne(Xor(0, ONES), 0);
    DivideZero(Xor(0, ONES));
    OnesShifted();
  }

  /** A zero byte in front changes the checksum, whatever follows: the register does not start at zero. */
  lemma LeadingZeroCounts(buf: seq<byte>)
    ensures Checksum(0, [0] + buf) != Checksum(0, buf)
  {
    hide DivideByte, Xor, ShiftOut;
    if Checksum(0, [0] + buf) == Checksum(0, buf) {
      var r := Xor(0, ONES);
      FoldConcat(DivideByte, r, [0], buf);
      FoldOne(r, 0);
      DivideZero(r);
      XorCancels(ONES, Divide(r, [0] + buf), Divide(r, buf));
      forall a, b, u | DivideByte(a, u) == DivideByte(b, u)
        ensures a == b
      {
        DivideByteInjective(a, b, u);
      }
      FoldInjective(DivideByte, ShiftOut(r), r, buf);
      OnesShifted();
      assert false;
    }
  }
}

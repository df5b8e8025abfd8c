/** The checksum of the serial frames: the reflected CRC-32 of RFC 1952 section 8. */
module Crc32 {
  import opened Bytes
  import opened LinearRegister
  import opened Polynomial
  import opened CrcTable

  // ---------------------------------------------------------------- reference

  function Bit(b: int): bv32
  {
    if b % 2 == 1 then 1 else 0
  }

  /** The eight bits of a byte, least significant first. */
  function BitsOf(b: byte): seq<bv32>
  {
    [Bit(b), Bit(Half(b, 1)), Bit(Half(b, 2)), Bit(Half(b, 3)), Bit(Half(b, 4)), Bit(Half(b, 5)), Bit(Half(b, 6)),
     Bit(Half(b, 7))]
  }

  /** `b` halved `n` times. */
  function Half(b: int, n: nat): int
    decreases n
  {
    if n == 0 then b else Half(b, n - 1) / 2
  }

  /** A byte in the width of the register. */
  function Wide(b: byte): bv32
  {
    var p := BitsOf(b);
    Pack(p[0], p[1], p[2], p[3], p[4], p[5], p[6], p[7])
  }

  /** Divides one byte: its bits go into the register one by one. */
  function DivideByte(r: bv32, b: byte): bv32
  {
    Feed(Shift, Xor, r, BitsOf(b))
  }

  /** The register after all bytes of `buf`. */
  function Divide(r: bv32, buf: seq<byte>): bv32
  {
    Fold(DivideByte, r, buf)
  }

  /** The checksum of `buf`, continuing from the checksum `crc` of what came before. */
  function Checksum(crc: bv32, buf: seq<byte>): bv32
  {
    Xor(Divide(Xor(crc, ONES), buf), ONES)
  }

  // ---------------------------------------------------------------- a byte is eight steps

  lemma WideBits(b: byte)
    ensures var w, p := Wide(b), BitsOf(b);
            w & 0xFF == w
            && w & 1 == p[0] && (w >> 1) & 1 == p[1] && (w >> 2) & 1 == p[2] && (w >> 3) & 1 == p[3]
            && (w >> 4) & 1 == p[4] && (w >> 5) & 1 == p[5] && (w >> 6) & 1 == p[6] && (w >> 7) & 1 == p[7]
  {
    var p := BitsOf(b);
    Unpacked(p[0], p[1], p[2], p[3], p[4], p[5], p[6], p[7]);
  }

  lemma WideInjective(b: byte, c: byte)
    requires Wide(b) == Wide(c)
    ensures b == c
  {
    WideBits(b);
    WideBits(c);
    var p, q := BitsOf(b), BitsOf(c);
    assert p[0] == q[0] && p[1] == q[1] && p[2] == q[2] && p[3] == q[3];
    assert p[4] == q[4] && p[5] == q[5] && p[6] == q[6] && p[7] == q[7];
    HalvesBounded(b);
    HalvesBounded(c);
    BitEqual(Half(b, 7), Half(c, 7));
    BitEqual(Half(b, 6), Half(c, 6));
    BitEqual(Half(b, 5), Half(c, 5));
    BitEqual(Half(b, 4), Half(c, 4));
    BitEqual(Half(b, 3), Half(c, 3));
    BitEqual(Half(b, 2), Half(c, 2));
    BitEqual(Half(b, 1), Half(c, 1));
    BitEqual(b, c);
  }

  lemma HalvesBounded(b: byte)
    ensures Half(b, 7) / 2 == 0
    ensures Half(b, 6) / 2 == Half(b, 7) && Half(b, 5) / 2 == Half(b, 6) && Half(b, 4) / 2 == Half(b, 5)
    ensures Half(b, 3) / 2 == Half(b, 4) && Half(b, 2) / 2 == Half(b, 3) && Half(b, 1) / 2 == Half(b, 2)
    ensures b / 2 == Half(b, 1)
  {
    assert 0 <= Half(b, 4) < 16;
  }

  lemma BitEqual(x: int, y: int)
    requires Bit(x) == Bit(y) && x / 2 == y / 2
    ensures x == y
  {
  }

  lemma WordComposed(w: bv32, p: seq<bv32>)
    requires w & 0xFF == w && |p| == 8
    requires LowBit(w) == p[0] && LowBit(w >> 1) == p[1] && LowBit(w >> 2) == p[2] && LowBit(w >> 3) == p[3]
    requires LowBit(w >> 4) == p[4] && LowBit(w >> 5) == p[5] && LowBit(w >> 6) == p[6] && LowBit(w >> 7) == p[7]
    ensures Composed(LowBit, Halve, 0, w, p)
  {
    hide LowBit, Halve;
    HalvedFour(w);
    HalvedEight(w);
    ComposedOfEight(LowBit, Halve, 0, w, w >> 1, w >> 2, w >> 3, w >> 4, w >> 5, w >> 6, w >> 7, p);
  }

  lemma ByteComposed(b: byte)
    ensures Composed(LowBit, Halve, 0, Wide(b), BitsOf(b))
  {
    WideBits(b);
    WordComposed(Wide(b), BitsOf(b));
  }

  /** Feeding a byte bit by bit is adding it first and dividing then. */
  lemma DivideByteIsAbsorb(r: bv32, b: byte)
    ensures DivideByte(r, b) == REGISTER.Absorb(r, b)
  {
    forall a, v
      ensures Shift(Xor(a, v)) == Xor(Shift(Xor(a, LowBit(v))), Halve(v))
    {
      FeedLaw(a, v);
    }
    forall a
      ensures Xor(a, 0) == a
    {
      XorCancels(a, 0, 0);
    }
    ByteComposed(b);
    FeedIsIterate(Shift, Xor, LowBit, Halve, 0, r, Wide(b), BitsOf(b));
  }

  // ---------------------------------------------------------------- the register holds four bytes

  const REGISTER: Register<bv32, byte> := Register(Shift, Xor, 0, Wide, Up, 8, 4, FitsBytes)

  lemma EightShiftsOfHigh(v: bv32, n: nat)
    requires n == 8 && v & 0xFF == 0
    ensures Iterate(Shift, v, n) == v >> 8
  {
    ShiftOutIsIterate(v, n);
    ShiftOutHigh(v);
  }

  lemma ShiftOutIsIterate(x: bv32, n: nat)
    requires n == 8
    ensures Iterate(Shift, x, n) == ShiftOut(x)
  {
  }

  lemma RegisterLinear()
    ensures Linear(REGISTER)
  {
    forall a, b
      ensures Shift(Xor(a, b)) == Xor(Shift(a), Shift(b))
    {
      ShiftXor(a, b);
    }
    forall a, b | Shift(a) == Shift(b)
      ensures a == b
    {
      ShiftInjective(a, b);
    }
  }

  lemma XorGroup()
    ensures forall a, b, c :: Xor(a, Xor(b, c)) == Xor(Xor(a, b), c)
  {
    forall a, b, c
      ensures Xor(a, Xor(b, c)) == Xor(Xor(a, b), c)
    {
      XorAssociative(a, b, c);
    }
  }

  lemma XorGroupCancels()
    ensures forall a, b, c :: Xor(a, b) == Xor(a, c) ==> b == c
    ensures forall a, b, c :: Xor(b, a) == Xor(c, a) ==> b == c
    ensures forall a :: Xor(a, 0) == a
  {
    forall a, b, c
      ensures Xor(a, b) == Xor(a, c) ==> b == c
    {
      XorCancels(a, b, c);
    }
    forall a, b, c
      ensures Xor(b, a) == Xor(c, a) ==> b == c
    {
      XorCancels(a, b, c);
    }
  }

  lemma RegisterGroup()
    ensures Group(REGISTER)
  {
    XorGroup();
    XorGroupCancels();
  }

  lemma BytesFit(u: byte, w: bv32, n: nat)
    requires n < 4 && FitsBytes(w, n)
    ensures FitsBytes(Xor(Wide(u), Up(w)), n + 1)
  {
    WideBits(u);
    FitsStep(w, Wide(u), n);
  }

  lemma BytesMoveDown(w: bv32, n: nat)
    requires n < 4 && FitsBytes(w, n)
    ensures Iterate(Shift, Up(w), REGISTER.width) == w
  {
    UpAndBack(w, n);
    EightShiftsOfHigh(Up(w), REGISTER.width);
  }

  lemma BytesApart(u: byte, u': byte, w: bv32, w': bv32, n: nat)
    requires n < 4 && FitsBytes(w, n) && FitsBytes(w', n) && Xor(Wide(u), Up(w)) == Xor(Wide(u'), Up(w'))
    ensures u == u' && w == w'
  {
    hide Wide, Xor, Up, FitsBytes;
    WideIsByte(u);
    WideIsByte(u');
    Unpack(Wide(u), w, n);
    Unpack(Wide(u'), w', n);
    WideInjective(u, u');
  }

  lemma WideIsByte(b: byte)
    ensures Wide(b) & 0xFF == Wide(b)
  {
    WideBits(b);
  }

  lemma RegisterPacks()
    ensures Packs(REGISTER)
  {
    forall u, w, n: nat | n < 4 && FitsBytes(w, n)
      ensures FitsBytes(Xor(Wide(u), Up(w)), n + 1)
    {
      BytesFit(u, w, n);
    }
    forall w, n: nat | n < 4 && FitsBytes(w, n)
      ensures Iterate(Shift, Up(w), REGISTER.width) == w
    {
      BytesMoveDown(w, n);
    }
    forall u, u', w, w', n: nat
      | n < 4 && FitsBytes(w, n) && FitsBytes(w', n) && Xor(Wide(u), Up(w)) == Xor(Wide(u'), Up(w'))
      ensures u == u' && w == w'
    {
      BytesApart(u, u', w, w', n);
    }
  }

  lemma RegisterLawful()
    ensures Lawful(REGISTER)
  {
    RegisterLinear();
    RegisterGroup();
    RegisterPacks();
  }

  // ---------------------------------------------------------------- the loop

  lemma EightShiftsOfSum(low: bv32, high: bv32, n: nat)
    requires n == 8 && high & 0xFF == 0
    ensures Iterate(Shift, Xor(low, high), n) == Xor(Iterate(Shift, low, n), high >> 8)
  {
    RegisterLinear();
    assert forall a, b :: REGISTER.step(REGISTER.plus(a, b)) == REGISTER.plus(REGISTER.step(a), REGISTER.step(b));
    IterateLinear(REGISTER.step, REGISTER.plus, low, high, n);
    EightShiftsOfHigh(high, n);
  }

  lemma TurnIsIterate(r: bv32, b: byte)
    ensures var index := IndexByte(r, Wide(b));
            index & 0xFF == index && DivideByte(r, b) == Xor(Iterate(Shift, index, 8), r >> 8)
  {
    hide DivideByte, Wide, IndexByte, HighBytes, Shift, Xor, Iterate;
    var w := Wide(b);
    var index, high := IndexByte(r, w), HighBytes(r, w);
    WideBits(b);
    IndexAndHigh(r, w);
    HighIsHigh(r, w);
    IndexIsByte(r, w);
    HighOfRegister(r, w);
    DivideByteIsAbsorb(r, b);
    EightShiftsOfSum(index, high, REGISTER.width);
    assert REGISTER.Absorb(r, b) == Iterate(Shift, Xor(r, w), 8);
  }

  lemma TableIsIterate(x: bv32, n: nat)
    requires x & 0xFF == x && n == 8
    ensures x as int < 256 && TableEntry(x as int) == Iterate(Shift, x, n)
  {
    TableIsDivision(x);
    ShiftOutIsIterate(x, n);
  }

  /** One turn of the program's loop divides one byte. */
  lemma TurnIsDivideByte(r: bv32, b: byte)
    ensures var index := IndexByte(r, Wide(b));
            index as int < 256 && DivideByte(r, b) == Xor(TableEntry(index as int), r >> 8)
  {
    hide DivideByte, Wide, IndexByte, Shift, TableEntry, Iterate, Xor;
    TurnIsIterate(r, b);
    TableIsIterate(IndexByte(r, Wide(b)), 8);
  }

  /** The table-driven loop computes the bit-by-bit division. */
  method Crc32(crc: bv32, buf: seq<byte>) returns (checksum: bv32)
    ensures checksum == Checksum(crc, buf)
  {
    var r := Xor(crc, ONES);
    for k := 0 to |buf|
      invariant r == Divide(Xor(crc, ONES), buf[..k])
    {
      TurnIsDivideByte(r, buf[k]);
      FoldSnoc(DivideByte, Xor(crc, ONES), buf, k);
      r := Xor(TableEntry(IndexByte(r, Wide(buf[k])) as int), r >> 8);
    }
    assert buf[..|buf|] == buf;
    checksum := Xor(r, ONES);
  }

  // ---------------------------------------------------------------- what the checksum promises

  /** A checksum can be computed in two calls, as the sender does; the receiver uses one. */
  lemma ChecksumConcat(crc: bv32, a: seq<byte>, b: seq<byte>)
    ensures Checksum(Checksum(crc, a), b) == Checksum(crc, a + b)
  {
    FoldConcat(DivideByte, Xor(crc, ONES), a, b);
    XorCancels(Divide(Xor(crc, ONES), a), ONES, 0);
  }

  /** The update for one byte is injective in the register... */
  lemma DivideByteInjective(x: bv32, y: bv32, b: byte)
    requires DivideByte(x, b) == DivideByte(y, b)
    ensures x == y
  {
    DivideByteIsAbsorb(x, b);
    DivideByteIsAbsorb(y, b);
    RegisterLawful();
    AbsorbInjective(REGISTER, x, y, b);
  }

  /** ...and in the byte. */
  lemma DivideByteSeparates(x: bv32, b: byte, c: byte)
    requires DivideByte(x, b) == DivideByte(x, c)
    ensures b == c
  {
    FoldSingletons(DivideByte, x, b, c);
    FourBytesDiffer(x, [b], [c]);
  }

  lemma FourBytesDiffer(r: bv32, m: seq<byte>, m': seq<byte>)
    requires |m| == |m'| <= 4 && Divide(r, m) == Divide(r, m')
    ensures m == m'
  {
    forall a, b
      ensures DivideByte(a, b) == REGISTER.Absorb(a, b)
    {
      DivideByteIsAbsorb(a, b);
    }
    FoldSame(DivideByte, REGISTER.Absorb, r, m);
    FoldSame(DivideByte, REGISTER.Absorb, r, m');
    RegisterLawful();
    ShortInputsDiffer(REGISTER, r, m, m');
  }

  /** Two buffers of one length that differ only inside four consecutive bytes never share a checksum. */
  lemma BurstDetected(crc: bv32, before: seq<byte>, burst: seq<byte>, burst': seq<byte>, after: seq<byte>)
    requires |burst| == |burst'| <= 4 && burst != burst'
    ensures Checksum(crc, before + burst + after) != Checksum(crc, before + burst' + after)
  {
    forall a, b, u | DivideByte(a, u) == DivideByte(b, u)
      ensures a == b
    {
      DivideByteInjective(a, b, u);
    }
    forall r, m, m' | |m| == |m'| <= 4 && Fold(DivideByte, r, m) == Fold(DivideByte, r, m')
      ensures m == m'
    {
      FourBytesDiffer(r, m, m');
    }
    WindowDetected(DivideByte, 4, Xor(crc, ONES), before, burst, burst', after);
    XorCancels(ONES, Divide(Xor(crc, ONES), before + burst + after), Divide(Xor(crc, ONES), before + burst' + after));
  }
}

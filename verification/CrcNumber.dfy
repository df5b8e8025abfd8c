/** The checksum as a number, nibble by nibble, as it is written in the footer of a frame. */
module CrcNumber {
  import opened Arithmetic

  /** The number of four bits. */
  function Nibble(b3: bool, b2: bool, b1: bool, b0: bool): nat
  {
    (if b3 then 8 else 0) + (if b2 then 4 else 0) + (if b1 then 2 else 0) + if b0 then 1 else 0
  }

  function LowNibble(x: bv32): nat
  {
    Nibble(x & 8 == 8, x & 4 == 4, x & 2 == 2, x & 1 == 1)
  }

  function Rest(x: bv32): bv32
  {
    x >> 4
  }

  /** The number of the `nibbles` lowest nibbles of a word. */
  function Number(x: bv32, nibbles: nat): nat
    decreases nibbles
  {
    if nibbles == 0 then 0 else 16 * Number(Rest(x), nibbles - 1) + LowNibble(x)
  }

  function Power16(n: nat): nat
    ensures Power16(n) > 0
  {
    if n == 0 then 1 else 16 * Power16(n - 1)
  }

  lemma {:induction false} NumberBounded(x: bv32, nibbles: nat)
    ensures Number(x, nibbles) < Power16(nibbles)
    decreases nibbles
  {
    if nibbles > 0 {
      NumberBounded(Rest(x), nibbles - 1);
    }
  }

  lemma NibbleInjective(x: bv32, y: bv32)
    requires LowNibble(x) == LowNibble(y)
    ensures x & 15 == y & 15
  {
    SameBits(x & 8 == 8, x & 4 == 4, x & 2 == 2, x & 1 == 1, y & 8 == 8, y & 4 == 4, y & 2 == 2, y & 1 == 1);
    FourBits(x, y);
  }

  lemma SameBits(b3: bool, b2: bool, b1: bool, b0: bool, c3: bool, c2: bool, c1: bool, c0: bool)
    requires Nibble(b3, b2, b1, b0) == Nibble(c3, c2, c1, c0)
    ensures b3 == c3 && b2 == c2 && b1 == c1 && b0 == c0
  {
  }

  lemma FourBits(x: bv32, y: bv32)
    requires (x & 8 == 8) == (y & 8 == 8) && (x & 4 == 4) == (y & 4 == 4)
    requires (x & 2 == 2) == (y & 2 == 2) && (x & 1 == 1) == (y & 1 == 1)
    ensures x & 15 == y & 15
  {
  }

  lemma NibbleAndRest(x: bv32, y: bv32)
    requires x & 15 == y & 15 && Rest(x) == Rest(y)
    ensures x == y
  {
  }

  /** Nothing is left of the word after taking `nibbles` of it. */
  predicate Fits(x: bv32, nibbles: nat)
    decreases nibbles
  {
    if nibbles == 0 then x == 0 else Fits(Rest(x), nibbles - 1)
  }

  lemma EightNibbles(x: bv32)
    ensures Rest(Rest(Rest(Rest(Rest(Rest(Rest(Rest(x)))))))) == 0
  {
  }

  lemma FitsMore(x: bv32, nibbles: nat)
    requires Fits(Rest(x), nibbles)
    ensures Fits(x, nibbles + 1)
  {
  }

  lemma EveryWordFits(x: bv32)
    ensures Fits(x, 8)
  {
    hide Rest;
    EightNibbles(x);
    var x1 := Rest(x);
    var x2 := Rest(x1);
    var x3 := Rest(x2);
    var x4 := Rest(x3);
    var x5 := Rest(x4);
    var x6 := Rest(x5);
    var x7 := Rest(x6);
    FitsMore(x7, 0);
    FitsMore(x6, 1);
    FitsMore(x5, 2);
    FitsMore(x4, 3);
    FitsMore(x3, 4);
    FitsMore(x2, 5);
    FitsMore(x1, 6);
    FitsMore(x, 7);
  }

  lemma {:induction false} NumberInjectiveOn(x: bv32, y: bv32, nibbles: nat)
    requires Fits(x, nibbles) && Fits(y, nibbles) && Number(x, nibbles) == Number(y, nibbles)
    ensures x == y
    decreases nibbles
  {
    hide Rest, LowNibble;
    if nibbles > 0 {
      NibbleBounded(x);
      NibbleBounded(y);
      NumberInjectiveOn(Rest(x), Rest(y), nibbles - 1);
      NibbleInjective(x, y);
      NibbleAndRest(x, y);
    }
  }

  lemma NibbleBounded(x: bv32)
    ensures LowNibble(x) < 16
  {
  }

  /** Different registers are different numbers. */
  lemma NumberInjective(x: bv32, y: bv32)
    requires Number(x, 8) == Number(y, 8)
    ensures x == y
  {
    EveryWordFits(x);
    EveryWordFits(y);
    NumberInjectiveOn(x, y, 8);
  }

  // ---------------------------------------------------------------- which number it is

  function Power2(n: nat): nat
    ensures Power2(n) > 0
  {
    if n == 0 then 1 else 2 * Power2(n - 1)
  }

  /** The word without its `j` lowest nibbles. */
  function Later(x: bv32, j: nat): bv32
    decreases j
  {
    if j == 0 then x else Later(Rest(x), j - 1)
  }

  lemma {:induction false} NumberDigit(x: bv32, nibbles: nat, j: nat)
    requires j < nibbles
    ensures Number(x, nibbles) / Power16(j) % 16 == LowNibble(Later(x, j))
    decreases j
  {
    hide Rest, LowNibble;
    NibbleBounded(x);
    if j > 0 {
      var n := Number(Rest(x), nibbles - 1);
      NumberDigit(Rest(x), nibbles - 1, j - 1);
      DivideTwice(n, LowNibble(x), Power16(j - 1));
    }
  }

  lemma DivideTwice(n: nat, d: nat, p: nat)
    requires d < 16 && p > 0
    ensures (16 * n + d) / (16 * p) == n / p
  {
    var q, r := n / p, n % p;
    assert n == q * p + r;
    assert 16 * n + d == q * (16 * p) + (16 * r + d);
    assert 0 <= 16 * r + d < 16 * p;
    Quotient(16 * n + d, 16 * p, q, 16 * r + d);
  }

  lemma Quotient(x: nat, d: nat, q: nat, r: nat)
    requires d > 0 && x == q * d + r && r < d
    ensures x / d == q
  {
    var q', r' := x / d, x % d;
    assert x == q' * d + r';
    if q' > q {
      AtLeastOnce(q' - q, d);
    } else if q' < q {
      AtLeastOnce(q - q', d);
    }
  }

  /** The four bits of a nibble are the places of its number. */
  lemma NibbleBits(x: bv32)
    ensures LowNibble(x) % 2 == 1 <==> x & 1 == 1
    ensures LowNibble(x) / 2 % 2 == 1 <==> (x >> 1) & 1 == 1
    ensures LowNibble(x) / 4 % 2 == 1 <==> (x >> 2) & 1 == 1
    ensures LowNibble(x) / 8 % 2 == 1 <==> (x >> 3) & 1 == 1
  {
    NibblePlaces(x & 8 == 8, x & 4 == 4, x & 2 == 2, x & 1 == 1);
    SingleBits(x);
  }

  lemma NibblePlaces(b3: bool, b2: bool, b1: bool, b0: bool)
    ensures var n := Nibble(b3, b2, b1, b0);
            (n % 2 == 1 <==> b0) && (n / 2 % 2 == 1 <==> b1) && (n / 4 % 2 == 1 <==> b2) && (n / 8 % 2 == 1 <==> b3)
  {
  }

  lemma SingleBits(x: bv32)
    ensures (x & 2 == 2 <==> (x >> 1) & 1 == 1) && (x & 4 == 4 <==> (x >> 2) & 1 == 1) && (x & 8 == 8 <==> (x >> 3) & 1 == 1)
  {
  }

  /** The `k`-th bit of a word. */
  predicate BitAt(x: bv32, k: nat)
    decreases k
  {
    if k == 0 then x & 1 == 1 else BitAt(x >> 1, k - 1)
  }

  lemma BitOfRest(x: bv32, k: nat)
    requires k >= 4
    ensures BitAt(x, k) == BitAt(Rest(x), k - 4)
  {
    ShiftedFour(x);
    assert BitAt(x, k) == BitAt(x >> 1, k - 1) == BitAt(x >> 1 >> 1, k - 2) == BitAt(x >> 1 >> 1 >> 1, k - 3)
        == BitAt(x >> 1 >> 1 >> 1 >> 1, k - 4);
  }

  lemma ShiftedFour(x: bv32)
    ensures x >> 1 >> 1 >> 1 >> 1 == Rest(x) && x >> 1 >> 1 >> 1 == x >> 3 && x >> 1 >> 1 == x >> 2
  {
  }

  lemma {:induction false} BitOfLater(x: bv32, j: nat, b: nat)
    ensures BitAt(x, 4 * j + b) == BitAt(Later(x, j), b)
    decreases j
  {
    hide Rest, BitAt;
    if j > 0 {
      BitOfRest(x, 4 * j + b);
      BitOfLater(Rest(x), j - 1, b);
    }
  }

  lemma LowBits(x: bv32, b: nat)
    requires b < 4
    ensures LowNibble(x) / Power2(b) % 2 == 1 <==> BitAt(x, b)
  {
    hide LowNibble;
    NibbleBits(x);
    ShiftedFour(x);
    FirstBits(x);
    assert Power2(0) == 1 && Power2(1) == 2 && Power2(2) == 4 && Power2(3) == 8;
  }

  lemma FirstBits(x: bv32)
    ensures BitAt(x, 0) == (x & 1 == 1) && BitAt(x, 1) == ((x >> 1) & 1 == 1)
    ensures BitAt(x, 2) == ((x >> 1 >> 1) & 1 == 1) && BitAt(x, 3) == ((x >> 1 >> 1 >> 1) & 1 == 1)
  {
  }

  /** The places of the number are the bits of the word: bit 4 j + b is place b of the hexadecimal digit j. */
  lemma NumberBits(x: bv32, j: nat, b: nat)
    requires j < 8 && b < 4
    ensures Number(x, 8) / Power16(j) % 16 / Power2(b) % 2 == 1 <==> BitAt(x, 4 * j + b)
  {
    hide Number, LowNibble, BitAt, Later;
    NumberDigit(x, 8, j);
    LowBits(Later(x, j), b);
    BitOfLater(x, j, b);
  }
}

/** Division and remainder. */
module Arithmetic {
  lemma DivModStep(x: nat, d: nat)
    requires d > 0
    ensures (x + d) / d == x / d + 1 && (x + d) % d == x % d
  {
    var more := (x + d) / d - x / d - 1;
    assert more * d == x % d - (x + d) % d;
    if more > 0 {
      AtLeastOnce(more, d);
    } else if more < 0 {
      AtLeastOnce(-more, d);
    }
  }

  lemma AtLeastOnce(k: nat, d: nat)
    requires k > 0
    ensures k * d >= d
  {
    assert (k - 1) * d >= 0;
  }

  lemma {:induction false} ModMultiple(q: nat, d: nat, x: nat)
    requires d > 0
    ensures (q * d + x) % d == x % d
    decreases q
  {
    if q > 0 {
      ModMultiple(q - 1, d, x);
      assert q * d + x == ((q - 1) * d + x) + d;
      assert (q - 1) * d + x >= 0 by { AtLeastZero(q - 1, d); }
      DivModStep((q - 1) * d + x, d);
    }
  }

  lemma AtLeastZero(a: nat, b: nat)
    ensures a * b >= 0
  {
  }

  lemma SmallMod(x: nat, d: nat)
    requires x < d
    ensures x % d == x
  {
  }

  /** A remainder can be taken before adding. */
  lemma ModAdd(a: nat, j: nat, d: nat)
    requires d > 0
    ensures (a + j) % d == (a % d + j) % d
  {
    var q, r := a / d, a % d;
    assert a == q * d + r;
    ModMultiple(q, d, r + j);
  }

  /** Numbers less than `d` apart have different remainders. */
  lemma ModDiffers(a: nat, j: nat, d: nat)
    requires 0 < j < d
    ensures (a + j) % d != a % d
  {
    ModAdd(a, j, d);
    RemainderMoves(a % d, j, d);
  }

  lemma RemainderMoves(r: nat, j: nat, d: nat)
    requires 0 < j < d && r < d
    ensures (r + j) % d == if r + j < d then r + j else r + j - d
  {
    if r + j < d {
      SmallMod(r + j, d);
    } else {
      DivModStep(r + j - d, d);
      SmallMod(r + j - d, d);
    }
  }
}

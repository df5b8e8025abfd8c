/** Shift registers in general: iterating one linear step, feeding input, and the effect of short inputs. */
module LinearRegister {
  function Iterate<T>(step: T -> T, x: T, n: nat): T
    decreases n
  {
    if n == 0 then x else Iterate(step, step(x), n - 1)
  }

  lemma {:induction false} IterateAdd<T>(step: T -> T, x: T, m: nat, n: nat)
    ensures Iterate(step, x, m + n) == Iterate(step, Iterate(step, x, m), n)
    decreases m
  {
    if m > 0 {
      IterateAdd(step, step(x), m - 1, n);
    }
  }

  lemma {:induction false} IterateInjective<T(!new)>(step: T -> T, x: T, y: T, n: nat)
    requires forall a, b :: step(a) == step(b) ==> a == b
    requires Iterate(step, x, n) == Iterate(step, y, n)
    ensures x == y
    decreases n
  {
    if n > 0 {
      IterateInjective(step, step(x), step(y), n - 1);
    }
  }

  lemma {:induction false} IterateLinear<T(!new)>(step: T -> T, plus: (T, T) -> T, x: T, y: T, n: nat)
    requires forall a, b :: step(plus(a, b)) == plus(step(a), step(b))
    ensures Iterate(step, plus(x, y), n) == plus(Iterate(step, x, n), Iterate(step, y, n))
    decreases n
  {
    if n > 0 {
      IterateLinear(step, plus, step(x), step(y), n - 1);
    }
  }

  /** Feeds `parts` into the register: add one, step, go on with the next. */
  function Feed<T>(step: T -> T, plus: (T, T) -> T, r: T, parts: seq<T>): T
    decreases |parts|
  {
    if parts == [] then r else Feed(step, plus, step(plus(r, parts[0])), parts[1..])
  }

  /** `parts` are what taking `part` and going on with `rest` finds in `v` until `zero` is left. */
  ghost predicate Composed<T>(part: T -> T, rest: T -> T, zero: T, v: T, parts: seq<T>)
    decreases |parts|
  {
    if parts == [] then v == zero
    else parts[0] == part(v) && Composed(part, rest, zero, rest(v), parts[1..])
  }

  lemma ComposedOfEight<T>(part: T -> T, rest: T -> T, zero: T,
                           v0: T, v1: T, v2: T, v3: T, v4: T, v5: T, v6: T, v7: T, parts: seq<T>)
    requires v1 == rest(v0) && v2 == rest(v1) && v3 == rest(v2) && v4 == rest(v3)
    requires v5 == rest(v4) && v6 == rest(v5) && v7 == rest(v6) && zero == rest(v7)
    requires parts == [part(v0), part(v1), part(v2), part(v3), part(v4), part(v5), part(v6), part(v7)]
    ensures Composed(part, rest, zero, v0, parts)
  {
    assert Composed(part, rest, zero, v7, parts[7..]);
    assert parts[6..][1..] == parts[7..];
    assert Composed(part, rest, zero, v6, parts[6..]);
    assert parts[5..][1..] == parts[6..];
    assert Composed(part, rest, zero, v5, parts[5..]);
    assert parts[4..][1..] == parts[5..];
    assert Composed(part, rest, zero, v4, parts[4..]);
    assert parts[3..][1..] == parts[4..];
    assert Composed(part, rest, zero, v3, parts[3..]);
    assert parts[2..][1..] == parts[3..];
    assert Composed(part, rest, zero, v2, parts[2..]);
    assert parts[1..][1..] == parts[2..];
    assert Composed(part, rest, zero, v1, parts[1..]);
  }

  /** If one step takes the current part away, feeding the parts is adding the whole first and stepping then. */
  lemma {:induction false} FeedIsIterate<T(!new)>(step: T -> T, plus: (T, T) -> T, part: T -> T, rest: T -> T,
                                                  zero: T, r: T, v: T, parts: seq<T>)
    requires forall a :: plus(a, zero) == a
    requires forall a, b :: step(plus(a, b)) == plus(step(plus(a, part(b))), rest(b))
    requires Composed(part, rest, zero, v, parts)
    ensures Feed(step, plus, r, parts) == Iterate(step, plus(r, v), |parts|)
    decreases |parts|
  {
    if parts != [] {
      FeedIsIterate(step, plus, part, rest, zero, step(plus(r, part(v))), rest(v), parts[1..]);
    }
  }

  /** A register folded over a buffer. */
  function Fold<T, U>(f: (T, U) -> T, r: T, buf: seq<U>): T
    decreases |buf|
  {
    if buf == [] then r else Fold(f, f(r, buf[0]), buf[1..])
  }

  lemma {:induction false} FoldConcat<T, U>(f: (T, U) -> T, r: T, a: seq<U>, b: seq<U>)
    ensures Fold(f, r, a + b) == Fold(f, Fold(f, r, a), b)
    decreases |a|
  {
    if a == [] {
      assert a + b == b;
    } else {
      assert (a + b)[1..] == a[1..] + b;
      FoldConcat(f, f(r, a[0]), a[1..], b);
    }
  }

  lemma FoldSnoc<T, U>(f: (T, U) -> T, r: T, buf: seq<U>, k: nat)
    requires k < |buf|
    ensures Fold(f, r, buf[..k + 1]) == f(Fold(f, r, buf[..k]), buf[k])
  {
    FoldConcat(f, r, buf[..k], [buf[k]]);
    assert buf[..k + 1] == buf[..k] + [buf[k]];
    assert [buf[k]][1..] == [];
  }

  lemma FoldSingletons<T, U>(f: (T, U) -> T, r: T, u: U, u': U)
    requires f(r, u) == f(r, u')
    ensures Fold(f, r, [u]) == Fold(f, r, [u'])
    ensures [u] == [u'] ==> u == u'
  {
    assert [u][0] == u && [u'][0] == u';
    assert [u][1..] == [] && [u'][1..] == [];
  }

  lemma {:induction false} FoldSame<T(!new), U(!new)>(f: (T, U) -> T, g: (T, U) -> T, r: T, buf: seq<U>)
    requires forall a, u :: f(a, u) == g(a, u)
    ensures Fold(f, r, buf) == Fold(g, r, buf)
    decreases |buf|
  {
    if buf != [] {
      FoldSame(f, g, f(r, buf[0]), buf[1..]);
    }
  }

  lemma {:induction false} FoldInjective<T(!new), U(!new)>(f: (T, U) -> T, x: T, y: T, buf: seq<U>)
    requires forall a, b, u :: f(a, u) == f(b, u) ==> a == b
    requires Fold(f, x, buf) == Fold(f, y, buf)
    ensures x == y
    decreases |buf|
  {
    if buf != [] {
      FoldInjective(f, f(x, buf[0]), f(y, buf[0]), buf[1..]);
    }
  }

  // ---------------------------------------------------------------- short inputs act as one word

  /** A register of type `T` that takes inputs of type `U`: `width` steps for each of them. */
  datatype Register<!T, !U> = Register(
    step: T -> T, plus: (T, T) -> T, zero: T,
    wide: U -> T,          // an input in the width of the register
    up: T -> T,            // one input position higher
    width: nat, capacity: nat,
    fits: (T, nat) -> bool // the value takes at most so many input positions
  )
  {
    function Absorb(r: T, u: U): T
    {
      Iterate(step, plus(r, wide(u)), width)
    }

    function Word(m: seq<U>): T
    {
      if m == [] then zero else plus(wide(m[0]), up(Word(m[1..])))
    }
  }

  ghost predicate Linear<T(!new), U(!new)>(reg: Register<T, U>)
  {
    && (forall a, b :: reg.step(reg.plus(a, b)) == reg.plus(reg.step(a), reg.step(b)))
    && (forall a, b :: reg.step(a) == reg.step(b) ==> a == b)
  }

  ghost predicate Group<T(!new), U(!new)>(reg: Register<T, U>)
  {
    && (forall a :: reg.plus(a, reg.zero) == a)
    && (forall a, b, c :: reg.plus(a, reg.plus(b, c)) == reg.plus(reg.plus(a, b), c))
    && (forall a, b, c :: reg.plus(a, b) == reg.plus(a, c) ==> b == c)
    && (forall a, b, c :: reg.plus(b, a) == reg.plus(c, a) ==> b == c)
  }

  /** Inputs side by side stay apart, and `width` steps move them one position down. */
  ghost predicate Packs<T(!new), U(!new)>(reg: Register<T, U>)
  {
    && reg.fits(reg.zero, 0)
    && (forall u, w, n: nat {:trigger reg.plus(reg.wide(u), reg.up(w)), reg.fits(w, n)} | n < reg.capacity && reg.fits(w, n) ::
          reg.fits(reg.plus(reg.wide(u), reg.up(w)), n + 1))
    && (forall w, n: nat {:trigger Iterate(reg.step, reg.up(w), reg.width), reg.fits(w, n)} | n < reg.capacity && reg.fits(w, n) ::
          Iterate(reg.step, reg.up(w), reg.width) == w)
    && (forall u, u', w, w', n: nat
          {:trigger reg.plus(reg.wide(u), reg.up(w)), reg.plus(reg.wide(u'), reg.up(w')), reg.fits(w, n)}
          | n < reg.capacity && reg.fits(w, n) && reg.fits(w', n)
            && reg.plus(reg.wide(u), reg.up(w)) == reg.plus(reg.wide(u'), reg.up(w')) :: u == u' && w == w')
  }

  ghost predicate Lawful<T(!new), U(!new)>(reg: Register<T, U>)
  {
    Linear(reg) && Group(reg) && Packs(reg)
  }

  lemma {:induction false} WordFits<T(!new), U(!new)>(reg: Register<T, U>, m: seq<U>)
    requires Lawful(reg) && |m| <= reg.capacity
    ensures reg.fits(reg.Word(m), |m|)
    decreases |m|
  {
    if m != [] {
      WordFits(reg, m[1..]);
    }
  }

  lemma {:induction false} WordInjective<T(!new), U(!new)>(reg: Register<T, U>, m: seq<U>, m': seq<U>)
    requires Lawful(reg) && |m| == |m'| <= reg.capacity && reg.Word(m) == reg.Word(m')
    ensures m == m'
    decreases |m|
  {
    if m != [] {
      WordFits(reg, m[1..]);
      WordFits(reg, m'[1..]);
      WordInjective(reg, m[1..], m'[1..]);
      assert m == [m[0]] + m[1..] && m' == [m'[0]] + m'[1..];
    }
  }

  /** The steps `n` inputs take. */
  function Steps(width: nat, n: nat): nat
    decreases n
  {
    if n == 0 then 0 else width + Steps(width, n - 1)
  }

  /** Absorbing one input before a word is absorbing the longer word. */
  lemma AbsorbThenWord<T(!new), U(!new)>(reg: Register<T, U>, r: T, m: seq<U>)
    requires Lawful(reg) && 0 < |m| <= reg.capacity
    ensures reg.plus(reg.Absorb(r, m[0]), reg.Word(m[1..])) == Iterate(reg.step, reg.plus(r, reg.Word(m)), reg.width)
  {
    WordFits(reg, m[1..]);
    IterateLinear(reg.step, reg.plus, reg.plus(r, reg.wide(m[0])), reg.up(reg.Word(m[1..])), reg.width);
  }

  lemma {:induction false} FoldIsIterate<T(!new), U(!new)>(f: (T, U) -> T, step: T -> T, plus: (T, T) -> T, word: seq<U> -> T,
                                                           width: nat, capacity: nat, r: T, m: seq<U>)
    requires forall a :: plus(a, word([])) == a
    requires forall a, p {:trigger Iterate(step, plus(a, word(p)), width)} | 0 < |p| <= capacity ::
               plus(f(a, p[0]), word(p[1..])) == Iterate(step, plus(a, word(p)), width)
    requires |m| <= capacity
    ensures Fold(f, r, m) == Iterate(step, plus(r, word(m)), Steps(width, |m|))
    decreases |m|
  {
    if m != [] {
      FoldIsIterate(f, step, plus, word, width, capacity, f(r, m[0]), m[1..]);
      IterateAdd(step, plus(r, word(m)), width, Steps(width, |m[1..]|));
    }
  }

  /** Inputs that fit into the register together act as their word. */
  lemma FoldIsWord<T(!new), U(!new)>(reg: Register<T, U>, r: T, m: seq<U>)
    requires Lawful(reg) && |m| <= reg.capacity
    ensures Fold(reg.Absorb, r, m) == Iterate(reg.step, reg.plus(r, reg.Word(m)), Steps(reg.width, |m|))
  {
    forall a, p | 0 < |p| <= reg.capacity
      ensures reg.plus(reg.Absorb(a, p[0]), reg.Word(p[1..])) == Iterate(reg.step, reg.plus(a, reg.Word(p)), reg.width)
    {
      AbsorbThenWord(reg, a, p);
    }
    FoldIsIterate(reg.Absorb, reg.step, reg.plus, reg.Word, reg.width, reg.capacity, r, m);
  }

  lemma AbsorbInjective<T(!new), U(!new)>(reg: Register<T, U>, x: T, y: T, u: U)
    requires Lawful(reg)
    requires reg.Absorb(x, u) == reg.Absorb(y, u)
    ensures x == y
  {
    IterateInjective(reg.step, reg.plus(x, reg.wide(u)), reg.plus(y, reg.wide(u)), reg.width);
  }

  /** Inputs of one length that leave the same register are the same. */
  lemma ShortInputsDiffer<T(!new), U(!new)>(reg: Register<T, U>, r: T, m: seq<U>, m': seq<U>)
    requires Lawful(reg) && |m| == |m'| <= reg.capacity
    requires Fold(reg.Absorb, r, m) == Fold(reg.Absorb, r, m')
    ensures m == m'
  {
    FoldIsWord(reg, r, m);
    FoldIsWord(reg, r, m');
    IterateInjective(reg.step, reg.plus(r, reg.Word(m)), reg.plus(r, reg.Word(m')), Steps(reg.width, |m|));
    WordInjective(reg, m, m');
  }

  /** Two inputs that differ in a window the register can hold leave different registers. */
  lemma WindowDetected<T(!new), U(!new)>(f: (T, U) -> T, capacity: nat, r: T,
                                         before: seq<U>, m: seq<U>, m': seq<U>, after: seq<U>)
    requires forall a, b, u :: f(a, u) == f(b, u) ==> a == b
    requires forall s, n, n' | |n| == |n'| <= capacity && Fold(f, s, n) == Fold(f, s, n') :: n == n'
    requires |m| == |m'| <= capacity && m != m'
    ensures Fold(f, r, before + m + after) != Fold(f, r, before + m' + after)
  {
    var start := Fold(f, r, before);
    FoldConcat(f, r, before, m);
    FoldConcat(f, r, before, m');
    FoldConcat(f, r, before + m, after);
    FoldConcat(f, r, before + m', after);
    if Fold(f, r, before + m + after) == Fold(f, r, before + m' + after) {
      FoldInjective(f, Fold(f, start, m), Fold(f, start, m'), after);
    }
  }
}

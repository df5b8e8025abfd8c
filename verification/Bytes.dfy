/** Bytes and the byte-string operations the protocol modules share. */
module Bytes {
  type byte = b: int | 0 <= b < 256

  /** The strings of `parts`, one after the other. */
  function Join<T>(parts: seq<seq<T>>): seq<T>
  {
    if parts == [] then [] else parts[0] + Join(parts[1..])
  }

  lemma {:induction false} JoinAppend<T>(a: seq<seq<T>>, b: seq<seq<T>>)
    ensures Join(a + b) == Join(a) + Join(b)
  {
    if a == [] {
      assert a + b == b;
    } else {
      assert (a + b)[1..] == a[1..] + b;
      JoinAppend(a[1..], b);
    }
  }

  lemma JoinSingle<T>(a: seq<T>)
    ensures Join([a]) == a
  {
  }

  /** `f` applied to every element. */
  function Each<S, T>(f: S -> T, s: seq<S>): (t: seq<T>)
    ensures |t| == |s|
  {
    if s == [] then [] else [f(s[0])] + Each(f, s[1..])
  }

  lemma {:induction false} EachAppend<S, T>(f: S -> T, a: seq<S>, b: seq<S>)
    ensures Each(f, a + b) == Each(f, a) + Each(f, b)
  {
    if a == [] {
      assert a + b == b;
    } else {
      assert (a + b)[1..] == a[1..] + b;
      EachAppend(f, a[1..], b);
    }
  }

  lemma {:induction false} EachAt<S, T>(f: S -> T, s: seq<S>, k: nat)
    requires k < |s|
    ensures Each(f, s)[k] == f(s[k])
  {
    if k > 0 {
      EachAt(f, s[1..], k - 1);
    }
  }

  lemma {:induction false} EachSatisfies<S(!new), T(!new)>(f: S -> T, s: seq<S>, good: T -> bool)
    requires forall x | x in s :: good(f(x))
    ensures forall y | y in Each(f, s) :: good(y)
  {
    if s != [] {
      EachSatisfies(f, s[1..], good);
      assert s[0] in s;
    }
  }

  lemma AppendTwo<T>(s: seq<T>, a: seq<T>, b: seq<T>)
    ensures s + a + b == s + (a + b)
  {
  }

  lemma SnocParts<T>(s: seq<T>, x: T)
    ensures (s + [x])[..|s|] == s && (s + [x])[|s|..] == [x]
    ensures forall y | y in s + [x] :: y in s || y == x
  {
  }

  lemma CutAt<T>(s: seq<T>, k: nat)
    requires k < |s|
    ensures s == s[..k] + [s[k]] + s[k + 1..]
  {
  }

  lemma AppendThree<T>(s: seq<T>, a: seq<T>, b: seq<T>, c: seq<T>)
    ensures s + a + b + c == s + (a + b + c)
  {
  }
}

/** Splitting a byte stream at zero bytes, without copying what is not yet complete. */
module NulSplitter {
  import opened Bytes

  /** The position of the first zero, or -1. */
  function FirstZero(s: seq<byte>): (z: int)
    ensures -1 <= z < |s|
    ensures if z == -1 then 0 !in s else s[z] == 0 && 0 !in s[..z]
  {
    if s == [] then -1
    else if s[0] == 0 then 0
    else
      var z := FirstZero(s[1..]);
      assert forall k | 0 < k < |s| :: s[k] == s[1..][k - 1];
      if z == -1 then -1 else z + 1
  }

  // ---------------------------------------------------------------- the reference

  /** The pieces of a stream that end with a zero, and what follows the last zero. */
  function Split(s: seq<byte>): (seq<seq<byte>>, seq<byte>)
    decreases |s|
  {
    var z := FirstZero(s);
    if z == -1 then ([], s)
    else
      var (pieces, rest) := Split(s[z + 1..]);
      ([s[..z]] + pieces, rest)
  }

  /** The pieces, each followed by its zero. */
  function Terminated(pieces: seq<seq<byte>>): seq<byte>
  {
    if pieces == [] then [] else pieces[0] + [0] + Terminated(pieces[1..])
  }

  predicate ZeroFree(parts: seq<seq<byte>>)
  {
    forall p | p in parts :: 0 !in p
  }

  lemma {:induction false} SplitReads(s: seq<byte>)
    ensures var (pieces, rest) := Split(s); s == Terminated(pieces) + rest && ZeroFree(pieces) && 0 !in rest
    decreases |s|
  {
    var z := FirstZero(s);
    if z == -1 {
      assert [] + s == s;
    } else {
      SplitReads(s[z + 1..]);
      var (p, r) := Split(s[z + 1..]);
      assert ([s[..z]] + p)[1..] == p;
      CutAt(s, z);
      AppendTwo(s[..z] + [0], Terminated(p), r);
    }
  }

  /** Before the first zero lies the first piece. */
  lemma FirstPiece(s: seq<byte>, piece: seq<byte>, more: seq<byte>)
    requires 0 !in piece
    ensures s == piece + [0] + more ==> FirstZero(s) == |piece| && s[..|piece|] == piece && s[|piece| + 1..] == more
  {
    if s == piece + [0] + more {
      assert s[|piece|] == 0;
      assert forall k | 0 <= k < |piece| :: s[k] == piece[k] && piece[k] in piece;
    }
  }

  lemma {:induction false} SplitOnly(pieces: seq<seq<byte>>, rest: seq<byte>)
    requires ZeroFree(pieces) && 0 !in rest
    ensures Split(Terminated(pieces) + rest) == (pieces, rest)
    decreases |pieces|
  {
    var s := Terminated(pieces) + rest;
    if pieces == [] {
      assert s == rest;
    } else {
      var more := Terminated(pieces[1..]) + rest;
      assert s == pieces[0] + [0] + more;
      FirstPiece(s, pieces[0], more);
      SplitOnly(pieces[1..], rest);
      assert [pieces[0]] + pieces[1..] == pieces;
    }
  }

  /** Splitting is the one way to read a stream as zero-free pieces, each followed by a zero, and a zero-free rest. */
  lemma SplitIsUnique(s: seq<byte>, pieces: seq<seq<byte>>, rest: seq<byte>)
    ensures (pieces, rest) == Split(s) <==> s == Terminated(pieces) + rest && ZeroFree(pieces) && 0 !in rest
  {
    SplitReads(s);
    if ZeroFree(pieces) && 0 !in rest {
      SplitOnly(pieces, rest);
    }
  }

  lemma {:induction false} TerminatedConcat(p: seq<seq<byte>>, q: seq<seq<byte>>)
    ensures Terminated(p + q) == Terminated(p) + Terminated(q)
  {
    if p == [] {
      assert p + q == q;
    } else {
      assert (p + q)[1..] == p[1..] + q;
      TerminatedConcat(p[1..], q);
    }
  }

  /** A stream can be split portion by portion: what is left of one goes before the next. */
  lemma SplitConcat(s: seq<byte>, t: seq<byte>)
    ensures var (p1, r1) := Split(s);
            var (p2, r2) := Split(r1 + t);
            Split(s + t) == (p1 + p2, r2)
  {
    hide Split, Terminated;
    var (p1, r1) := Split(s);
    var (p2, r2) := Split(r1 + t);
    SplitReads(s);
    SplitReads(r1 + t);
    TerminatedConcat(p1, p2);
    SplitOnly(p1 + p2, r2);
    assert s + t == Terminated(p1) + (r1 + t);
    assert Terminated(p1) + (Terminated(p2) + r2) == Terminated(p1) + Terminated(p2) + r2;
  }

  // ---------------------------------------------------------------- what the adapter does

  /** Chunks as they were read, none empty and none with a zero. */
  predicate Clean(list: seq<seq<byte>>)
  {
    forall c | c in list :: c != [] && 0 !in c
  }

  /** Everything up to the zero at `index` of the last chunk, and what remains of that chunk. */
  function PopBytesList(list: seq<seq<byte>>, index: nat): (seq<seq<byte>>, seq<seq<byte>>)
    requires list != [] && index < |list[|list| - 1]|
  {
    var last := list[|list| - 1];
    (list[..|list| - 1] + (if index > 0 then [last[..index]] else []),
     if index != |last| - 1 then [last[index + 1..]] else [])
  }

  function LastZero(list: seq<seq<byte>>): (z: int)
    ensures list == [] ==> z == -1
    ensures list != [] ==> z == FirstZero(list[|list| - 1])
  {
    if list == [] then -1 else FirstZero(list[|list| - 1])
  }

  /** The lists emitted after a chunk was appended, and the list kept. */
  function Drained(list: seq<seq<byte>>): (seq<seq<seq<byte>>>, seq<seq<byte>>)
    decreases if list == [] then 0 else |list[|list| - 1]|
  {
    var z := LastZero(list);
    if z == -1 then ([], list)
    else
      var (popped, kept) := PopBytesList(list, z);
      var (more, kept') := Drained(kept);
      ([popped] + more, kept')
  }

  lemma JoinLast(front: seq<seq<byte>>, last: seq<byte>)
    ensures Join(front + [last]) == Join(front) + last
  {
    JoinAppend(front, [last]);
    JoinSingle(last);
  }

  lemma PopJoins(list: seq<seq<byte>>)
    requires list != [] && LastZero(list) != -1
    ensures var (popped, kept) := PopBytesList(list, LastZero(list)); Join(list) == Join(popped) + [0] + Join(kept)
  {
    hide FirstZero;
    var front, last, z := list[..|list| - 1], list[|list| - 1], LastZero(list);
    var (popped, kept) := PopBytesList(list, z);
    assert list == front + [last];
    JoinLast(front, last);
    JoinLast(front, last[..z]);
    CutAt(last, z);
    JoinSingle(last[z + 1..]);
    AppendThree(Join(front), last[..z], [0], last[z + 1..]);
    if z == 0 {
      assert front + [] == front && Join(front) + last[..0] == Join(front);
    }
    if z == |last| - 1 {
      assert last[z + 1..] == [];
    }
  }

  lemma PopKeeps(list: seq<seq<byte>>)
    requires list != [] && list[|list| - 1] != [] && Clean(list[..|list| - 1]) && LastZero(list) != -1
    ensures var (popped, kept) := PopBytesList(list, LastZero(list));
            && Clean(popped) && 0 !in Join(popped)
            && Join(list) == Join(popped) + [0] + Join(kept)
            && (kept != [] ==> kept[|kept| - 1] != [] && Clean(kept[..|kept| - 1]))
  {
    hide FirstZero, Join;
    PopClean(list);
    PopJoins(list);
    JoinZeroFree(PopBytesList(list, LastZero(list)).0);
  }

  lemma PopClean(list: seq<seq<byte>>)
    requires list != [] && list[|list| - 1] != [] && Clean(list[..|list| - 1]) && LastZero(list) != -1
    ensures var (popped, kept) := PopBytesList(list, LastZero(list));
            Clean(popped) && (kept != [] ==> kept[|kept| - 1] != [] && Clean(kept[..|kept| - 1]))
  {
    hide FirstZero;
    var front, last, z := list[..|list| - 1], list[|list| - 1], LastZero(list);
    var (popped, kept) := PopBytesList(list, z);
    forall c | c in popped
      ensures c != [] && 0 !in c
    {
      assert c in front || c == last[..z];
    }
  }

  lemma {:induction false} JoinZeroFree(list: seq<seq<byte>>)
    requires Clean(list)
    ensures 0 !in Join(list)
  {
    if list != [] {
      assert list[0] in list && forall c | c in list[1..] :: c in list;
      JoinZeroFree(list[1..]);
    }
  }

  /** The lists emitted are, joined, the pieces of the stream; what is kept is, joined, its rest. */
  lemma {:induction false} DrainedIsSplit(list: seq<seq<byte>>)
    requires list != [] ==> list[|list| - 1] != [] && Clean(list[..|list| - 1])
    ensures var (emitted, kept) := Drained(list);
            && Split(Join(list)) == (Each((l: seq<seq<byte>>) => Join(l), emitted), Join(kept))
            && Clean(kept) && forall l | l in emitted :: Clean(l)
    decreases if list == [] then 0 else |list[|list| - 1]|
  {
    var z := LastZero(list);
    if z == -1 {
      if list != [] {
        assert list == list[..|list| - 1] + [list[|list| - 1]];
      }
      JoinZeroFree(list);
    } else {
      PopKeeps(list);
      var (popped, kept) := PopBytesList(list, z);
      FirstPiece(Join(list), Join(popped), Join(kept));
      DrainedIsSplit(kept);
    }
  }

  // ---------------------------------------------------------------- over a whole stream

  /** The chunks kept, and the lists emitted so far. */
  datatype Adapter = Adapter(list: seq<seq<byte>>, emitted: seq<seq<seq<byte>>>)

  /** A read that brought `data`; an empty one is the end of the file. */
  function Received(a: Adapter, data: seq<byte>): Adapter
  {
    if data == [] then a.(emitted := a.emitted + [a.list])
    else
      var (emitted, kept) := Drained(a.list + [data]);
      Adapter(kept, a.emitted + emitted)
  }

  function ReceivedAll(a: Adapter, portions: seq<seq<byte>>): Adapter
  {
    if portions == [] then a else Received(ReceivedAll(a, portions[..|portions| - 1]), portions[|portions| - 1])
  }

  function Joined(lists: seq<seq<seq<byte>>>): seq<seq<byte>>
  {
    Each((l: seq<seq<byte>>) => Join(l), lists)
  }

  lemma JoinedAppend(a: seq<seq<seq<byte>>>, b: seq<seq<seq<byte>>>)
    ensures Joined(a + b) == Joined(a) + Joined(b)
  {
    EachAppend((l: seq<seq<byte>>) => Join(l), a, b);
  }

  lemma NothingRead()
    ensures var none: seq<seq<byte>> := []; (Joined([]), Join(none)) == Split(Join(none))
  {
  }

  /** Whatever the portions in which a stream is read: the lists emitted are, joined, exactly its pieces between zeros, the
      chunks kept are, joined, what follows the last zero, and no chunk is empty or has a zero. */
  lemma {:induction false} PortionsIrrelevant(portions: seq<seq<byte>>)
    requires forall r | r in portions :: r != []
    ensures var a := ReceivedAll(Adapter([], []), portions);
            && (Joined(a.emitted), Join(a.list)) == Split(Join(portions))
            && Clean(a.list) && forall l | l in a.emitted :: Clean(l)
  {
    hide Split, Drained, Join;
    if portions != [] {
      var front, last := portions[..|portions| - 1], portions[|portions| - 1];
      assert forall r | r in front :: r in portions;
      PortionsIrrelevant(front);
      var a := ReceivedAll(Adapter([], []), front);
      assert last in portions;
      var list := a.list + [last];
      assert list[..|list| - 1] == a.list;
      DrainedIsSplit(list);
      JoinLast(a.list, last);
      JoinLast(front, last);
      assert portions == front + [last];
      SplitConcat(Join(front), last);
      JoinedAppend(a.emitted, Drained(list).0);
    } else {
      NothingRead();
    }
  }

  /** At the end of the file the rest is emitted as one more list. */
  lemma EndOfFile(portions: seq<seq<byte>>)
    requires forall r | r in portions :: r != []
    ensures var a := Received(ReceivedAll(Adapter([], []), portions), []);
            var (pieces, rest) := Split(Join(portions));
            Joined(a.emitted) == pieces + [rest] && forall l | l in a.emitted :: Clean(l)
  {
    PortionsIrrelevant(portions);
    var a := ReceivedAll(Adapter([], []), portions);
    JoinedAppend(a.emitted, [a.list]);
    assert Joined([a.list]) == [Join(a.list)];
  }

  // ---------------------------------------------------------------- reading a list as a stream

  const EOF := -1

  /** A byte as the `char` that is returned for it: with signed characters 0xFF is -1. */
  function AsChar(b: byte, signedChar: bool): int
  {
    if signedChar && b > 127 then b - 256 else b
  }

  /** What a reader gets until it is told that the stream has ended. */
  function ReadBack(list: seq<seq<byte>>, signedChar: bool): seq<byte>
  {
    if list == [] then []
    else if |list| == 1 || (list[1] != [] && AsChar(list[1][0], signedChar) == EOF) then list[0]
    else list[0] + ReadBack(list[1..], signedChar)
  }

  predicate BeginsWithFF(chunk: seq<byte>)
  {
    chunk != [] && chunk[0] == 0xFF
  }

  /** Reading gives back the whole exactly if no chunk after the first begins with a byte that looks like the end. */
  lemma {:induction false} ReadsBackIff(list: seq<seq<byte>>, signedChar: bool)
    requires Clean(list)
    ensures ReadBack(list, signedChar) == Join(list)
        <==> !signedChar || forall k | 1 <= k < |list| :: !BeginsWithFF(list[k])
    ensures |ReadBack(list, signedChar)| <= |Join(list)|
  {
    if list != [] {
      assert forall c | c in list[1..] :: c in list;
      ReadsBackIff(list[1..], signedChar);
      assert forall k | 1 <= k < |list| :: list[k] in list;
      if |list| == 1 {
        JoinSingle(list[0]);
        assert list == [list[0]];
      } else {
        assert list[1..][0] == list[1];
        assert Join(list) == list[0] + Join(list[1..]);
        if AsChar(list[1][0], signedChar) == EOF {
          assert Join(list[1..]) == list[1] + Join(list[1..][1..]);
          assert |Join(list)| > |list[0]|;
        } else {
          assert forall k | 2 <= k < |list| :: list[k] == list[1..][k - 1];
          SamePrefix(list[0], ReadBack(list[1..], signedChar), Join(list[1..]));
        }
      }
    }
  }

  /** Before chunk `k`, and not before an earlier one but the first, a reader is told that the stream has ended. */
  predicate EndsBefore(list: seq<seq<byte>>, signedChar: bool, k: nat)
  {
    && 1 <= k <= |list| && (k < |list| ==> signedChar && BeginsWithFF(list[k]))
    && forall j | 1 <= j < k :: !(signedChar && BeginsWithFF(list[j]))
  }

  /** Up to there a reader gets everything. */
  lemma {:induction false} ReadsUpTo(list: seq<seq<byte>>, signedChar: bool, k: nat)
    requires Clean(list) && EndsBefore(list, signedChar, k)
    ensures ReadBack(list, signedChar) == Join(list[..k])
    decreases k
  {
    assert forall j | 0 <= j < |list| :: list[j] in list;
    if k == 1 {
      assert list[..1] == [list[0]];
      JoinSingle(list[0]);
    } else {
      var tail := list[1..];
      assert forall j | 0 <= j < |tail| :: tail[j] == list[j + 1];
      assert forall c | c in tail :: c in list;
      ReadsUpTo(tail, signedChar, k - 1);
      assert list[..k][1..] == tail[..k - 1];
    }
  }

  lemma SamePrefix<T>(a: seq<T>, b: seq<T>, c: seq<T>)
    ensures a + b == a + c <==> b == c
  {
    assert (a + b)[|a|..] == b && (a + c)[|a|..] == c;
  }
}

/** The stream adapter and the reader of its lists as objects, proved against `NulSplitter`. */
module GioIstreamAdapters {
  import opened Bytes
  import opened NulSplitter

  class GioIstreamAdapter {
    var bytesList: seq<seq<byte>>
    var emitted: seq<seq<seq<byte>>>   // the lists handed out
    var eof: bool

    ghost function View(): Adapter
      reads this
    {
      Adapter(bytesList, emitted)
    }

    constructor ()
      ensures View() == Adapter([], []) && !eof
    {
      bytesList, emitted, eof := [], [], false;
    }

    /** Looks for a zero in the last chunk. */
    method BytesListCheckZero() returns (index: int)
      ensures index == LastZero(bytesList)
    {
      if bytesList == [] {
        return -1;
      }
      var data := bytesList[|bytesList| - 1];
      for i := 0 to |data|
        invariant 0 !in data[..i]
      {
        if data[i] == 0 {
          ZeroAt(data, i);
          return i;
        }
        assert data[..i + 1] == data[..i] + [data[i]];
      }
      assert data[..|data|] == data;
      return -1;
    }

    method PopBytesList(index: nat) returns (popped: seq<seq<byte>>)
      requires bytesList != [] && index < |bytesList[|bytesList| - 1]|
      modifies this`bytesList
      ensures (popped, bytesList) == NulSplitter.PopBytesList(old(bytesList), index)
    {
      popped := bytesList;
      var last := popped[|popped| - 1];
      popped := popped[..|popped| - 1];
      bytesList := [];
      assert popped + [] == popped;
      if index > 0 {
        popped := popped + [last[..index]];
      }
      if index != |last| - 1 {
        bytesList := bytesList + [last[index + 1..]];
        assert bytesList == [last[index + 1..]];
      }
    }

    /** A read has finished with `bytes`; none at all is the end of the file. */
    method ReceivedBytes(bytes: seq<byte>)
      requires !eof
      modifies this
      ensures View() == Received(old(View()), bytes) && (eof <==> bytes == [])
    {
      if |bytes| == 0 {
        emitted := emitted + [bytesList];
        eof := true;
        return;
      }
      bytesList := bytesList + [bytes];
      ghost var list, was := bytesList, emitted;
      var index := BytesListCheckZero();
      while index != -1
        invariant !eof && index == LastZero(bytesList)
        invariant var (all, kept) := Drained(list);
                  var (more, kept') := Drained(bytesList);
                  was + all == emitted + more && kept == kept'
        decreases if bytesList == [] then 0 else |bytesList[|bytesList| - 1]|
      {
        ghost var before := bytesList;
        var popped := PopBytesList(index);
        emitted := emitted + [popped];
        assert Drained(before).0 == [popped] + Drained(bytesList).0;
        AppendTwo(emitted[..|emitted| - 1], [popped], Drained(bytesList).0);
        index := BytesListCheckZero();
      }
      assert emitted + [] == emitted;
    }
  }

  lemma {:induction false} ZeroAt(data: seq<byte>, i: nat)
    requires i < |data| && data[i] == 0 && 0 !in data[..i]
    ensures FirstZero(data) == i
    decreases i
  {
    if i > 0 {
      assert data[0] in data[..i] && data[1..][..i - 1] == data[..i][1..];
      ZeroAt(data[1..], i - 1);
    }
  }

  /** A stream buffer over a list of chunks. `current` is the chunk its pointers lie in, `pos` the read position. */
  class BytesListIStream {
    const signedChar: bool
    var dataList: seq<seq<byte>>
    var current: seq<byte>
    var pos: nat

    ghost predicate Valid()
      reads this
    {
      && Clean(dataList) && pos <= |current|
      && current == (if dataList == [] then [] else dataList[0])
    }

    /** What is still to be read. */
    ghost function Rest(): seq<byte>
      requires Valid()
      reads this
    {
      if dataList == [] then [] else ReadBack(dataList, signedChar)[pos..]
    }

    constructor (data: seq<seq<byte>>, signedChar: bool)
      requires Clean(data)
      ensures Valid() && this.signedChar == signedChar && Rest() == ReadBack(data, signedChar)
    {
      this.signedChar, dataList := signedChar, data;
      current, pos := if data == [] then [] else data[0], 0;
      new;
      assert Rest() == ReadBack(data, signedChar) by { assert ReadBack(data, signedChar)[0..] == ReadBack(data, signedChar); }
    }

    /** Goes on to the next chunk; returns its first character, or the end mark. */
    method Underflow() returns (c: int)
      requires Valid() && pos == |current|
      modifies this
      ensures c == EOF ==> old(Rest()) == []
      ensures c != EOF ==> Valid() && pos == 0 && current != [] && Rest() == old(Rest()) && c == AsChar(current[0], signedChar)
    {
      if |dataList| == 0 {
        return EOF;
      }
      ghost var list := dataList;
      dataList := dataList[1..];
      if dataList == [] {
        return EOF;
      }
      assert dataList[0] == list[1] && list[1] in list;
      assert forall x | x in dataList :: x in list;
      current, pos := dataList[0], 0;
      c := AsChar(current[0], signedChar);
      assert c != EOF ==> ReadBack(list, signedChar) == list[0] + ReadBack(dataList, signedChar);
    }

    /** The next character, as a reader of the stream takes it. */
    method Next() returns (c: int, b: byte)
      requires Valid()
      modifies this
      ensures c == EOF <==> old(Rest()) == []
      ensures c != EOF ==> Valid() && old(Rest()) == [b] + Rest()
    {
      b := 0;
      c := 0;
      if pos == |current| {
        c := Underflow();
        if c == EOF {
          return;
        }
      }
      c, b := current[pos], current[pos];
      ghost var rest := Rest();
      assert ReadBack(dataList, signedChar)[pos] == b;
      pos := pos + 1;
      assert rest == [b] + Rest();
    }

    /** Reads to the end, as the parser does. */
    method ReadAll() returns (text: seq<byte>)
      requires Valid()
      modifies this
      ensures text == old(Rest())
    {
      hide ReadBack;
      text := [];
      ghost var all := Rest();
      var c, b := Next();
      while c != EOF
        invariant c != EOF ==> Valid() && all == text + [b] + Rest()
        invariant c == EOF ==> all == text
        decreases |all| - |text|, c != EOF
      {
        text := text + [b];
        ghost var rest := Rest();
        c, b := Next();
        if c == EOF {
          assert rest == [] && text + rest == text;
        } else {
          AppendTwo(text, [b], Rest());
        }
      }
    }
  }
}

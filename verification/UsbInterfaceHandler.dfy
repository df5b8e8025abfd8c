/** The USB interface as an object, and the queue of messages behind it. */
module UsbInterface {
  import opened Bytes
  import opened UsbFraming

  datatype Message = Message(text: seq<byte>, tid: int)

  /** `wire` are the messages written since the interface came online, `queue` those still waiting, and `announced` the
      task ids reported as sent. */
  datatype Line = Line(online: bool, queue: seq<Message>, wire: seq<Message>, announced: seq<int>)

  const FRESH := Line(true, [], [], [])

  /** Odd task ids belong to requests of this side. */
  predicate IsOwnRequest(tid: int)
  {
    tid % 2 != 0
  }

  /** The odd task ids among `ms`, in order. */
  function OwnRequests(ms: seq<Message>): seq<int>
  {
    if ms == [] then []
    else OwnRequests(ms[..|ms| - 1]) + if ms[|ms| - 1].tid % 2 == 1 then [ms[|ms| - 1].tid] else []
  }

  /** Writes the oldest message; when writing fails it stays in the queue. */
  function Written(l: Line, fails: bool): Line
  {
    if l.queue == [] || fails then l
    else
      l.(wire := l.wire + [l.queue[0]], queue := l.queue[1..],
         announced := l.announced + if IsOwnRequest(l.queue[0].tid) then [l.queue[0].tid] else [])
  }

  function Sent(l: Line, m: Message, fails: bool): Line
  {
    if !l.online then l else Written(l.(queue := l.queue + [m]), fails)
  }

  /** Sends that met an online interface. */
  datatype Sending = Sending(message: Message, fails: bool)

  function SentAll(l: Line, sendings: seq<Sending>): Line
  {
    if sendings == [] then l
    else
      var last := sendings[|sendings| - 1];
      Sent(SentAll(l, sendings[..|sendings| - 1]), last.message, last.fails)
  }

  function Failures(sendings: seq<Sending>): nat
  {
    if sendings == [] then 0
    else Failures(sendings[..|sendings| - 1]) + if sendings[|sendings| - 1].fails then 1 else 0
  }

  function Messages(sendings: seq<Sending>): (ms: seq<Message>)
    ensures |ms| == |sendings|
  {
    if sendings == [] then []
    else Messages(sendings[..|sendings| - 1]) + [sendings[|sendings| - 1].message]
  }

  /** No message is lost or overtaken; but every failed write leaves one behind, so that from then on each message is
      written only when as many later ones have been sent. What is reported as sent are the own requests written. */
  lemma {:induction false} LagIsFailures(sendings: seq<Sending>)
    ensures var l := SentAll(FRESH, sendings);
            && l.online && l.wire + l.queue == Messages(sendings)
            && |l.queue| == Failures(sendings)
            && l.announced == OwnRequests(l.wire)
  {
    hide OwnRequests;
    if sendings != [] {
      var front, last := sendings[..|sendings| - 1], sendings[|sendings| - 1];
      LagIsFailures(front);
      var l := SentAll(FRESH, front);
      var q := l.queue + [last.message];
      AppendTwo(l.wire, l.queue, [last.message]);
      if !last.fails {
        assert q == [q[0]] + q[1..];
        AppendTwo(l.wire, [q[0]], q[1..]);
        OwnRequestsSnoc(l.wire, q[0]);
      }
    } else {
      NoOwnRequests();
    }
  }

  lemma NoOwnRequests()
    ensures OwnRequests([]) == []
  {
  }

  lemma OwnRequestsSnoc(ms: seq<Message>, m: Message)
    ensures OwnRequests(ms + [m]) == OwnRequests(ms) + if m.tid % 2 == 1 then [m.tid] else []
  {
    assert (ms + [m])[..|ms|] == ms;
  }

  /** A message is written at its own sending exactly if that write does not fail and none before it did. */
  lemma WrittenAtOnceIff(sendings: seq<Sending>, m: Message, fails: bool)
    ensures var before, after := SentAll(FRESH, sendings), SentAll(FRESH, sendings + [Sending(m, fails)]);
            (|after.wire| == |sendings| + 1 <==> !fails && Failures(sendings) == 0)
            && (|after.wire| == |sendings| + 1 ==> after.wire == before.wire + [m])
  {
    LagIsFailures(sendings);
    LagIsFailures(sendings + [Sending(m, fails)]);
    assert (sendings + [Sending(m, fails)])[..|sendings|] == sendings;
  }

  /** While the interface is offline messages are refused: none is written, kept or reported, however many are sent. */
  lemma {:induction false} OfflineRefuses(l: Line, sendings: seq<Sending>)
    requires !l.online
    ensures SentAll(l, sendings) == l
  {
    if sendings != [] {
      OfflineRefuses(l, sendings[..|sendings| - 1]);
    }
  }

  /** How the channel answers an attempt to write: how much it takes at most, and whether it reports an error. */
  datatype Answer = Answer(taken: nat, error: bool)

  /** How much of a text is written, as far as the answers go: the loop tries again with what is left, unless there was an
      error. */
  function TextTaken(length: nat, answers: seq<Answer>): (t: nat)
    ensures t <= length
    decreases |answers|
  {
    if length == 0 || answers == [] then 0
    else
      var now := if answers[0].taken < length then answers[0].taken else length;
      if answers[0].error then now else now + TextTaken(length - now, answers[1..])
  }

  /** What is written of a frame. The length is written once, whatever the channel answers. */
  function WriteOf(str: seq<byte>, prefix: Answer, answers: seq<Answer>): (w: Write)
    ensures Sensible(w)
  {
    Write(str, if prefix.taken < PREFIX then prefix.taken else PREFIX, TextTaken(|str|, answers))
  }

  class UsbInterfaceHandler {
    var frameData: seq<byte>
    var messages: seq<seq<byte>>           // what went to the application
    var transmitMessages: seq<Message>
    var online: bool
    var announced: seq<int>                // task ids reported as sent
    var written: seq<byte>                 // what went to the port
    ghost var wire: seq<Message>

    ghost function View(): Line
      reads this
    {
      Line(online, transmitMessages, wire, announced)
    }

    constructor ()
      ensures View() == FRESH && frameData == [] && messages == [] && written == []
    {
      frameData, messages, transmitMessages, online, announced, written, wire := [], [], [], true, [], [], [];
    }

    function GetCurrentFrameSize(): int
      reads this
    {
      FrameSize(frameData)
    }

    method HandleInputData(data: seq<byte>)
      modifies this`frameData, this`messages
      ensures (frameData, messages) == (All(old(frameData), data).0, old(messages) + All(old(frameData), data).1)
    {
      hide Ntohl;
      assert messages + [] == messages && data[..0] == [];
      for i := 0 to |data|
        invariant (frameData, messages) == (All(old(frameData), data[..i]).0, old(messages) + All(old(frameData), data[..i]).1)
      {
        ghost var before, got := frameData, messages;
        AllSnoc(old(frameData), data[..i], data[i]);
        assert data[..i + 1] == data[..i] + [data[i]];
        frameData := frameData + [data[i]];
        var frameSize := GetCurrentFrameSize();
        if frameSize != 0 && |frameData| == frameSize {
          messages := messages + [frameData[PREFIX..]];
          frameData := [];
        }
        AppendTwo(old(messages), All(old(frameData), data[..i]).1, Step(before, data[i]).1);
        assert got + [] == got;
      }
      assert data[..|data|] == data;
    }

    /** Writes a frame, as far as the channel takes it. It is written whole exactly if the length is taken at once, and the
        text in the end. */
    method SendFrame(str: seq<byte>, prefix: Answer, answers: seq<Answer>)
      modifies this`written
      ensures written == old(written) + Cut(WriteOf(str, prefix, answers))
      ensures written == old(written) + Encode(str) <==> prefix.taken >= PREFIX && TextTaken(|str|, answers) == |str|
    {
      hide TextTaken, Encode, Htonl;
      var size := Htonl(|str| % WORD);
      written := written + size[..if prefix.taken < PREFIX then prefix.taken else PREFIX];
      ghost var begun := written;
      var sent, k := 0, 0;
      assert str[..0] == [] && written + [] == written && answers[0..] == answers;
      while sent < |str| && k < |answers|
        invariant 0 <= sent <= |str| && 0 <= k <= |answers|
        invariant sent + TextTaken(|str| - sent, answers[k..]) == TextTaken(|str|, answers)
        invariant written == begun + str[..sent]
        decreases |answers| - k
      {
        TakenNext(|str| - sent, answers[k..]);
        var n := if answers[k].taken < |str| - sent then answers[k].taken else |str| - sent;
        AppendTwo(begun, str[..sent], str[sent..sent + n]);
        assert str[..sent] + str[sent..sent + n] == str[..sent + n];
        assert answers[k..][1..] == answers[k + 1..];
        written := written + str[sent..sent + n];
        sent := sent + n;
        if answers[k].error {
          break;
        }
        k := k + 1;
      }
      if sent == |str| || k == |answers| {
        TakenAll(|str| - sent, answers[k..]);
      }
      assert sent == TextTaken(|str|, answers);
      ghost var w := WriteOf(str, prefix, answers);
      AppendTwo(old(written), size[..w.prefix], str[..sent]);
      CutOfWhole(w);
      SameTail(old(written), Cut(w), Encode(str));
    }

    /** Sends the oldest message. An exception while writing leaves it in the queue; `prefix` and `answers` are what came
        before it. */
    method SendLoop(fails: bool, prefix: Answer, answers: seq<Answer>)
      modifies this`transmitMessages, this`wire, this`announced, this`written
      ensures View() == Written(old(View()), fails)
      ensures written == if old(transmitMessages) == [] then old(written)
                         else old(written) + Cut(WriteOf(old(transmitMessages)[0].text, prefix, answers))
    {
      if |transmitMessages| == 0 {
        return;
      }
      var msg := transmitMessages[0];
      SendFrame(msg.text, prefix, answers);
      if fails {
        return;
      }
      if IsOwnRequest(msg.tid) {
        announced := announced + [msg.tid];
      }
      wire := wire + [msg];
      transmitMessages := transmitMessages[1..];
    }

    /** `offline` tells the caller that the message could not be sent. */
    method SendMessage(text: seq<byte>, tid: int, fails: bool, prefix: Answer, answers: seq<Answer>) returns (offline: bool)
      modifies this`transmitMessages, this`wire, this`announced, this`written
      ensures View() == Sent(old(View()), Message(text, tid), fails)
      ensures offline <==> !old(online) || fails
      ensures written == if !old(online) then old(written)
                         else old(written) + Cut(WriteOf((old(transmitMessages) + [Message(text, tid)])[0].text, prefix, answers))
    {
      if !online {
        return true;
      }
      transmitMessages := transmitMessages + [Message(text, tid)];
      SendLoop(fails, prefix, answers);
      offline := fails;
    }

    method ResetConnection()
      modifies this
      ensures View() == Line(false, [], [], []) && frameData == old(frameData) && messages == old(messages)
    {
      transmitMessages, online := [], false;
      wire, announced := [], [];
    }
  }

  lemma TakenNext(length: nat, answers: seq<Answer>)
    requires length > 0 && answers != []
    ensures var now := if answers[0].taken < length then answers[0].taken else length;
            && (answers[0].error ==> TextTaken(length, answers) == now)
            && (!answers[0].error ==> TextTaken(length, answers) == now + TextTaken(length - now, answers[1..]))
  {
  }

  lemma TakenAll(length: nat, answers: seq<Answer>)
    requires length == 0 || answers == []
    ensures TextTaken(length, answers) == 0
  {
  }

  lemma SameTail(s: seq<byte>, a: seq<byte>, b: seq<byte>)
    ensures s + a == s + b <==> a == b
  {
    if s + a == s + b {
      assert a == (s + a)[|s|..] && b == (s + b)[|s|..];
    }
  }
}

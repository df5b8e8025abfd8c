/** Splitting a message into frames and putting it together again. */
module SerialMessages {
  import opened Arithmetic
  import opened Bytes

  /** The state of one message, on the sending or on the receiving side. */
  datatype Message = Message(payload: seq<byte>, framePayload: seq<byte>, transceived: int, numFrames: int)

  const EMPTY := Message([], [], 0, 0)

  /** The frames a message of `length` bytes takes. */
  function FrameCount(length: nat, maxFrameSize: nat): nat
    requires maxFrameSize > 0
  {
    length / maxFrameSize + if length % maxFrameSize != 0 then 1 else 0
  }

  function ForSending(text: seq<byte>, maxFrameSize: nat): Message
    requires maxFrameSize > 0
  {
    Message(text, [], 0, FrameCount(|text|, maxFrameSize))
  }

  function ForReceiving(numFrames: int): Message
  {
    Message([], [], 0, numFrames)
  }

  function Popped(m: Message, maxFrameSize: nat): Message
  {
    if m.payload == [] then m
    else
      var k := if |m.payload| < maxFrameSize then |m.payload| else maxFrameSize;
      m.(framePayload := m.payload[..k], payload := m.payload[k..], transceived := m.transceived + 1)
  }

  function Pushed(m: Message, data: seq<byte>): Message
  {
    m.(payload := m.payload + data, transceived := m.transceived + 1)
  }

  predicate DataLeft(m: Message)
  {
    m.transceived < m.numFrames
  }

  predicate Finished(m: Message)
  {
    m.transceived >= m.numFrames
  }

  /** The message object both directions of the serial interface keep. */
  class SerialMessage {
    var numFrames: int
    const maxFrameSize: nat
    var transceived: int
    var payload: seq<byte>
    var framePayload: seq<byte>
    var tid: int

    ghost function View(): Message
      reads this
    {
      Message(payload, framePayload, transceived, numFrames)
    }

    constructor (maxFrameSize: nat)
      requires maxFrameSize > 0
      ensures View() == EMPTY && this.maxFrameSize == maxFrameSize && tid == 0
    {
      this.maxFrameSize := maxFrameSize;
      numFrames, transceived, tid := 0, 0, 0;
      payload, framePayload := [], [];
    }

    method Discard()
      modifies this
      ensures View() == EMPTY && tid == old(tid)
    {
      payload, framePayload := [], [];
      numFrames := 0;
      transceived := numFrames;
    }

    method InitSenderMessage(newPayload: seq<byte>, tid: int)
      requires maxFrameSize > 0
      modifies this
      ensures View() == ForSending(newPayload, maxFrameSize) && this.tid == tid
    {
      Discard();
      payload := newPayload;
      numFrames := |payload| / maxFrameSize;
      if |payload| % maxFrameSize != 0 {
        numFrames := numFrames + 1;
      }
      this.tid := tid;
    }

    method InitReceiverMessage(numFrames: int)
      modifies this
      ensures View() == ForReceiving(numFrames)
    {
      Discard();
      this.numFrames := numFrames;
    }

    /** Returns true when there was nothing to pop. */
    method PopFrame() returns (failed: bool)
      modifies this
      ensures View() == Popped(old(View()), maxFrameSize)
      ensures failed <==> old(payload) == []
      ensures tid == old(tid)
    {
      if |payload| == 0 {
        return true;
      }
      framePayload := payload[..if |payload| < maxFrameSize then |payload| else maxFrameSize];
      payload := payload[|framePayload|..];
      transceived := transceived + 1;
      return false;
    }

    method PushFrame(newFramePayload: seq<byte>)
      modifies this
      ensures View() == Pushed(old(View()), newFramePayload)
    {
      payload := payload + newFramePayload;
      transceived := transceived + 1;
    }
  }

  // ---------------------------------------------------------------- fragmenting and reassembling

  /** The fragments of a text: all but the last have exactly `maxFrameSize` bytes. */
  function Fragments(text: seq<byte>, maxFrameSize: nat): seq<seq<byte>>
    requires maxFrameSize > 0
    decreases |text|
  {
    if text == [] then []
    else if |text| <= maxFrameSize then [text]
    else [text[..maxFrameSize]] + Fragments(text[maxFrameSize..], maxFrameSize)
  }

  lemma FrameCountStep(length: nat, maxFrameSize: nat)
    requires maxFrameSize > 0
    ensures FrameCount(length, maxFrameSize) == 0 <==> length == 0
    ensures 0 < length <= maxFrameSize ==> FrameCount(length, maxFrameSize) == 1
    ensures length > maxFrameSize ==> FrameCount(length, maxFrameSize) == 1 + FrameCount(length - maxFrameSize, maxFrameSize)
  {
    if 0 < length < maxFrameSize {
      assert length / maxFrameSize == 0;
    } else if length > maxFrameSize {
      DivModStep(length - maxFrameSize, maxFrameSize);
    }
  }

  /** Fragments are as many as announced, join to the text, and only the last may be short. */
  lemma {:induction false} FragmentsOf(text: seq<byte>, maxFrameSize: nat)
    requires maxFrameSize > 0
    ensures Join(Fragments(text, maxFrameSize)) == text
    ensures |Fragments(text, maxFrameSize)| == FrameCount(|text|, maxFrameSize)
    ensures var fs := Fragments(text, maxFrameSize);
            forall i | 0 <= i < |fs| :: if i < |fs| - 1 then |fs[i]| == maxFrameSize else 0 < |fs[i]| <= maxFrameSize
    decreases |text|
  {
    FrameCountStep(|text|, maxFrameSize);
    if 0 < |text| <= maxFrameSize {
      JoinSingle(text);
    } else if |text| > maxFrameSize {
      FragmentsOf(text[maxFrameSize..], maxFrameSize);
    }
  }

  /** Popping takes the first fragment and leaves the message with the others. */
  lemma PopTakesFragment(m: Message, maxFrameSize: nat)
    requires maxFrameSize > 0 && m.payload != []
    ensures var m' := Popped(m, maxFrameSize);
            m'.framePayload != [] && m'.framePayload + m'.payload == m.payload
            && Fragments(m.payload, maxFrameSize) == [m'.framePayload] + Fragments(m'.payload, maxFrameSize)
            && FrameCount(|m.payload|, maxFrameSize) == 1 + FrameCount(|m'.payload|, maxFrameSize)
  {
    FrameCountStep(|m.payload|, maxFrameSize);
    if |m.payload| <= maxFrameSize {
      assert m.payload[..|m.payload|] == m.payload;
    }
  }

  /** The receiver after taking in what the sender pops, frame by frame. */
  function Transfer(sender: Message, receiver: Message, maxFrameSize: nat, frames: nat): (Message, Message)
    decreases frames
  {
    if frames == 0 then (sender, receiver)
    else
      var sender' := Popped(sender, maxFrameSize);
      Transfer(sender', Pushed(receiver, sender'.framePayload), maxFrameSize, frames - 1)
  }

  lemma {:induction false} TransferFrom(sender: Message, receiver: Message, maxFrameSize: nat, frames: nat)
    requires maxFrameSize > 0 && frames <= FrameCount(|sender.payload|, maxFrameSize)
    ensures var (s, r) := Transfer(sender, receiver, maxFrameSize, frames);
            r.payload + s.payload == receiver.payload + sender.payload
            && FrameCount(|s.payload|, maxFrameSize) == FrameCount(|sender.payload|, maxFrameSize) - frames
            && s.transceived == sender.transceived + frames && s.numFrames == sender.numFrames
            && r.transceived == receiver.transceived + frames && r.numFrames == receiver.numFrames
    decreases frames
  {
    if frames > 0 {
      FrameCountStep(|sender.payload|, maxFrameSize);
      PopTakesFragment(sender, maxFrameSize);
      var sender' := Popped(sender, maxFrameSize);
      TransferFrom(sender', Pushed(receiver, sender'.framePayload), maxFrameSize, frames - 1);
    }
  }

  /** Sending a text frame by frame gives it back, and both sides are done at the last frame and not before. */
  lemma RoundTrip(text: seq<byte>, maxFrameSize: nat, frames: nat)
    requires maxFrameSize > 0 && frames <= FrameCount(|text|, maxFrameSize)
    ensures var n := FrameCount(|text|, maxFrameSize);
            var (s, r) := Transfer(ForSending(text, maxFrameSize), ForReceiving(n), maxFrameSize, frames);
            (Finished(r) <==> frames == n) && (DataLeft(s) <==> frames < n) && (frames == n ==> r.payload == text)
  {
    var n := FrameCount(|text|, maxFrameSize);
    TransferFrom(ForSending(text, maxFrameSize), ForReceiving(n), maxFrameSize, frames);
    var (s, r) := Transfer(ForSending(text, maxFrameSize), ForReceiving(n), maxFrameSize, frames);
    FrameCountStep(|s.payload|, maxFrameSize);
    if frames == n {
      assert s.payload == [];
      assert r.payload == r.payload + s.payload && [] + text == text;
    }
  }
}

/** One end of the serial link: what it does on every event, at the level of frames. */
module SerialStation {
  import opened Bytes
  import opened SerialRx
  import opened SerialFrames
  import opened SerialMessages

  const ERROR_MAX := 3
  const TIMEOUT_MAX := 5
  const MID_LIMIT := 1000

  datatype SenderState = Idle | WaitForAck | GotAck | GotNak
  datatype ReceiverState = Waiting | GotPayload | WrongCrc

  /** A message to send, with the task id it belongs to. */
  datatype Outgoing = Outgoing(text: seq<byte>, tid: int)

  datatype Sender = Sender(
    maxFrameSize: nat,
    state: SenderState,
    message: Message, tid: int,    // the message being sent
    queue: seq<Outgoing>,
    currentMid: int, needAckMid: int,
    errors: int, timeouts: int,
    sentFrame: Frame,              // the last payload frame written
    timerArmed: bool,              // the confirmation timer
    // what has happened so far
    serial: nat,                   // payload frames written for the first time
    started: nat,                  // messages taken from the queue
    completed: seq<nat>,           // numbers of the messages confirmed under the right mid
    announced: seq<int>            // task ids reported as sent
  )

  datatype Receiver = Receiver(
    state: ReceiverState,
    message: Message,              // the message being put together
    ackIndex: int, ackNumber: int,
    receivedMid: int,
    delivered: seq<seq<byte>>      // messages handed to the application so far
  )

  /** `alive` turns false when an uncaught exception ends the program. */
  datatype Station = Station(tx: Sender, rc: Receiver, alive: bool)

  function Initial(maxFrameSize: nat): Station
  {
    Station(Sender(maxFrameSize, Idle, EMPTY, 0, [], 0, -1, 0, 0, Frame(PAYLOAD, 0, 0, 0, []), false, 0, 0, [], []),
            Receiver(Waiting, EMPTY, 1, 1, 0, []), true)
  }

  function NextMid(mid: int): int
  {
    if mid + 1 == MID_LIMIT then 0 else mid + 1
  }

  /** Odd task ids belong to requests of this side. */
  predicate IsOwnRequest(tid: int)
  {
    tid % 2 != 0
  }

  // ---------------------------------------------------------------- the sending side

  /** Takes the next frame from the current message and writes it under a new mid. */
  function SendNextFrame(s: Sender): (Sender, seq<Frame>)
    requires s.maxFrameSize > 0
  {
    var m := Popped(s.message, s.maxFrameSize);
    var mid := NextMid(s.currentMid);
    var f := Frame(PAYLOAD, mid, m.transceived, m.numFrames, m.framePayload);
    (s.(message := m, state := WaitForAck, currentMid := mid, needAckMid := mid, sentFrame := f,
        timerArmed := true, serial := s.serial + 1),
     [f])
  }

  function StartNextMessage(s: Sender): (Sender, seq<Frame>)
    requires s.maxFrameSize > 0 && s.queue != []
  {
    SendNextFrame(s.(message := ForSending(s.queue[0].text, s.maxFrameSize), tid := s.queue[0].tid,
                     queue := s.queue[1..], started := s.started + 1))
  }

  /** Starts the next message if there is one. */
  function SendFromQueue(s: Sender): (Sender, seq<Frame>)
    requires s.maxFrameSize > 0
  {
    if s.queue != [] then StartNextMessage(s) else (s, [])
  }

  function Resend(s: Sender): (Sender, seq<Frame>)
  {
    (s.(state := WaitForAck, needAckMid := s.sentFrame.mid, timerArmed := true), [s.sentFrame])
  }

  function Abandon(s: Sender): Sender
  {
    s.(message := EMPTY, state := Idle)
  }

  function ErrorInConfirmation(s: Sender): (Sender, seq<Frame>)
  {
    if s.errors < ERROR_MAX then Resend(s.(errors := s.errors + 1)) else (Abandon(s).(errors := 0), [])
  }

  /** The current message is through. */
  function Complete(s: Sender): Sender
  {
    s.(completed := s.completed + [s.started],
       announced := s.announced + if IsOwnRequest(s.tid) then [s.tid] else [])
  }

  function FrameConfirmed(s: Sender): (Sender, seq<Frame>)
    requires s.maxFrameSize > 0
  {
    var s1 := s.(errors := 0, timeouts := 0, state := Idle);
    if DataLeft(s.message) then SendNextFrame(s1) else SendFromQueue(Complete(s1))
  }

  function SenderLoop(s: Sender, receivedMid: int): (r: (Sender, seq<Frame>))
    requires s.maxFrameSize > 0
    ensures r.0.maxFrameSize == s.maxFrameSize
  {
    match s.state
    case Idle => SendFromQueue(s)
    case WaitForAck => (s, [])
    case GotAck =>
      if receivedMid != s.needAckMid then ErrorInConfirmation(s.(timerArmed := false))
      else FrameConfirmed(s.(timerArmed := false))
    case GotNak => ErrorInConfirmation(s.(timerArmed := false))
  }

  function OnTimeout(s: Sender): (Sender, seq<Frame>)
  {
    var s1 := s.(timerArmed := false, timeouts := s.timeouts + 1);
    if s1.timeouts < TIMEOUT_MAX then Resend(s1) else (Abandon(s1).(timeouts := 0), [])
  }

  // ---------------------------------------------------------------- the receiving side

  const CODE_CS: seq<byte> := [67, 83]
  const CODE_NF: seq<byte> := [78, 70]
  const CODE_FTO: seq<byte> := [70, 84, 79]

  function Confirmation(r: Receiver, content: seq<byte>): Frame
  {
    Frame(CONFIRMATION, r.receivedMid, r.ackIndex, r.ackNumber, content)
  }

  function ReceiverLoop(r: Receiver): (Receiver, seq<Frame>)
  {
    match r.state
    case Waiting => (r, [])
    case GotPayload =>
      (r.(state := Waiting, delivered := r.delivered + if Finished(r.message) then [r.message.payload] else []),
       [Confirmation(r, [ACK])])
    case WrongCrc =>
      (r.(state := Waiting, message := EMPTY), [Confirmation(r, [NAK] + CODE_CS)])
  }

  // ---------------------------------------------------------------- both together

  /** The sender has written a new frame, and there was nothing in it. */
  predicate WroteEmpty(s: Sender, s': Sender)
  {
    s'.serial != s.serial && s'.sentFrame.content == []
  }

  /** Both state machines, the sender's first. An empty payload frame ends the program once it is written. */
  function SendLoop(st: Station): (r: (Station, seq<Frame>))
    requires st.tx.maxFrameSize > 0
    ensures r.0.tx.maxFrameSize == st.tx.maxFrameSize
  {
    var (tx, out1) := SenderLoop(st.tx, st.rc.receivedMid);
    if WroteEmpty(st.tx, tx) then (Station(tx.(timerArmed := false), st.rc, false), out1)
    else
      var (rc, out2) := ReceiverLoop(st.rc);
      (Station(tx, rc, st.alive), out1 + out2)
  }

  /** The receiver takes in an intact payload frame. */
  function TakePayload(r: Receiver, f: Received): Receiver
  {
    r.(receivedMid := f.mid, ackIndex := f.index, ackNumber := f.number, state := GotPayload,
       message := Pushed(if f.index == 1 then ForReceiving(f.number) else r.message, f.content))
  }

  /** The receiver refuses a payload frame that does not match its checksum. */
  function Refuse(r: Receiver, f: Received): Receiver
  {
    r.(receivedMid := f.mid, ackIndex := f.index, ackNumber := f.number, state := WrongCrc)
  }

  function OnPayload(st: Station, f: Received): (Station, seq<Frame>)
    requires st.tx.maxFrameSize > 0
  {
    if !f.intact then
      SendLoop(st.(rc := Refuse(st.rc, f)))
    else
      var st1 := st.(rc := TakePayload(st.rc, f));
      if f.content == [] then (st1.(alive := false), []) else SendLoop(st1)
  }

  predicate IsAck(f: Received)
  {
    f.content != [] && f.content[0] == ACK
  }

  /** The sender state a confirmation leads to. */
  function Confirmed(s: Sender, f: Received): Sender
  {
    s.(state := if s.state != WaitForAck then Idle else if IsAck(f) then GotAck else GotNak)
  }

  function OnConfirmation(st: Station, f: Received): (Station, seq<Frame>)
    requires st.tx.maxFrameSize > 0
  {
    var st1 := st.(rc := st.rc.(receivedMid := f.mid));
    if !f.intact then (st1, []) else SendLoop(st1.(tx := Confirmed(st.tx, f)))
  }

  // ---------------------------------------------------------------- the events

  datatype Input =
    | Submit(message: Outgoing)
    | Arrival(received: Received)
    | ConfirmationTimeout
    | StrayByte
    | FrameTimeout

  /** What the station does on an event, and the frames it writes. */
  function Act(st: Station, input: Input): (r: (Station, seq<Frame>))
    requires st.tx.maxFrameSize > 0
    ensures r.0.tx.maxFrameSize == st.tx.maxFrameSize
  {
    if !st.alive then (st, [])
    else
      match input
      case Submit(message) => SendLoop(st.(tx := st.tx.(queue := st.tx.queue + [message])))
      case Arrival(f) => if f.kind == PAYLOAD then OnPayload(st, f) else OnConfirmation(st, f)
      case ConfirmationTimeout =>
        if st.tx.timerArmed then
          var (tx, out) := OnTimeout(st.tx);
          (st.(tx := tx), out)
        else (st, [])
      case StrayByte =>
        var rc := st.rc.(ackIndex := 1, ackNumber := 1);
        (st.(rc := rc), [Confirmation(rc, [NAK] + CODE_NF)])
      case FrameTimeout => (st, [Confirmation(st.rc, [NAK] + CODE_FTO)])
  }

  // ---------------------------------------------------------------- between events

  /** What holds of a sender whenever the station waits for its next event. */
  predicate SenderSettled(s: Sender)
  {
    && s.maxFrameSize > 0
    && (s.state == Idle || s.state == WaitForAck)
    && (s.timerArmed <==> s.state == WaitForAck)
    && 0 <= s.errors <= ERROR_MAX && 0 <= s.timeouts < TIMEOUT_MAX
    && s.currentMid == s.serial % MID_LIMIT
    && (s.state == WaitForAck ==>
          s.needAckMid == s.currentMid && s.sentFrame.mid == s.currentMid && s.sentFrame.kind == PAYLOAD)
  }

  predicate Settled(st: Station)
  {
    st.tx.maxFrameSize > 0 && (st.alive ==> SenderSettled(st.tx) && st.rc.state == Waiting)
  }

  lemma InitialSettled(maxFrameSize: nat)
    requires maxFrameSize > 0
    ensures Settled(Initial(maxFrameSize))
  {
  }

  lemma NextMidIsModulo(serial: nat)
    ensures NextMid(serial % MID_LIMIT) == (serial + 1) % MID_LIMIT
  {
  }

  lemma SendingSettles(s: Sender)
    requires s.maxFrameSize > 0 && 0 <= s.errors <= ERROR_MAX && 0 <= s.timeouts < TIMEOUT_MAX
    requires s.currentMid == s.serial % MID_LIMIT
    ensures SenderSettled(SendNextFrame(s).0)
    ensures s.state == Idle && !s.timerArmed ==> SenderSettled(SendFromQueue(s).0)
  {
    NextMidIsModulo(s.serial);
  }

  lemma SenderLoopSettles(s: Sender, receivedMid: int)
    requires SenderSettled(s.(state := if s.state == Idle then Idle else WaitForAck))
    ensures SenderSettled(SenderLoop(s, receivedMid).0)
  {
    if s.state == Idle {
      SendingSettles(s);
    } else if s.state == GotAck && receivedMid == s.needAckMid {
      var s1 := s.(timerArmed := false, errors := 0, timeouts := 0, state := Idle);
      SendingSettles(s1);
      SendingSettles(Complete(s1));
    }
  }

  /** Every event leaves the station settled: no state machine stops halfway, and the timer runs exactly while
      a confirmation is awaited. */
  lemma ActSettles(st: Station, input: Input)
    requires Settled(st)
    ensures Settled(Act(st, input).0)
  {
    if st.alive {
      match input
      case Submit(message) =>
        SenderLoopSettles(st.tx.(queue := st.tx.queue + [message]), st.rc.receivedMid);
      case Arrival(f) =>
        SenderLoopSettles(st.tx, f.mid);
        SenderLoopSettles(Confirmed(st.tx, f), f.mid);
      case ConfirmationTimeout =>
      case StrayByte =>
      case FrameTimeout =>
    }
  }

  // ---------------------------------------------------------------- each event concerns one of the two state machines

  /** There is something in every message, and in every frame still to come. */
  predicate NothingEmpty(s: Sender)
  {
    && (forall m | m in s.queue :: m.text != [])
    && (s.state == GotAck && DataLeft(s.message) ==> s.message.payload != [])
  }

  lemma WritesNoEmpty(s: Sender, receivedMid: int)
    requires s.maxFrameSize > 0 && NothingEmpty(s)
    ensures !WroteEmpty(s, SenderLoop(s, receivedMid).0)
  {
    if s.queue != [] {
      assert s.queue[0] in s.queue;
      FrameCountStep(|s.queue[0].text|, s.maxFrameSize);
    }
  }

  lemma SubmitConcernsSender(st: Station, m: Outgoing)
    requires Settled(st) && st.alive && NothingEmpty(st.tx.(queue := st.tx.queue + [m]))
    ensures var (tx, out) := SenderLoop(st.tx.(queue := st.tx.queue + [m]), st.rc.receivedMid);
            Act(st, Submit(m)) == (st.(tx := tx), out)
  {
    WritesNoEmpty(st.tx.(queue := st.tx.queue + [m]), st.rc.receivedMid);
    var (tx, out) := SenderLoop(st.tx.(queue := st.tx.queue + [m]), st.rc.receivedMid);
    assert out + [] == out;
  }

  lemma ConfirmationConcernsSender(st: Station, f: Received)
    requires Settled(st) && st.alive && f.kind != PAYLOAD && f.intact && NothingEmpty(Confirmed(st.tx, f))
    ensures var (tx, out) := SenderLoop(Confirmed(st.tx, f), f.mid);
            Act(st, Arrival(f)) == (Station(tx, st.rc.(receivedMid := f.mid), true), out)
  {
    WritesNoEmpty(Confirmed(st.tx, f), f.mid);
    var (tx, out) := SenderLoop(Confirmed(st.tx, f), f.mid);
    assert out + [] == out;
  }

  /** An idle sender is one with nothing to send when a payload frame arrives. */
  lemma PayloadConcernsReceiver(st: Station, f: Received)
    requires Settled(st) && st.alive && f.kind == PAYLOAD && f.intact && f.content != []
    requires st.tx.state == Idle ==> st.tx.queue == []
    ensures var (rc, out) := ReceiverLoop(TakePayload(st.rc, f));
            Act(st, Arrival(f)) == (Station(st.tx, rc, true), out)
  {
    var (rc, out) := ReceiverLoop(TakePayload(st.rc, f));
    assert [] + out == out;
  }

  // ---------------------------------------------------------------- bytes in, bytes out

  /** A station takes in one byte, and what it writes in turn. */
  function Hear(st: Station, rx: Rx, b: byte, read: seq<byte> -> Numbers): (r: (Station, Rx, seq<byte>))
    requires st.tx.maxFrameSize > 0 && RxValid(rx)
    ensures RxValid(r.1) && r.0.tx.maxFrameSize == st.tx.maxFrameSize
  {
    RxStepValid(rx, b);
    var (rx', events) := RxStep(rx, b);
    if events == [] then (st, rx', [])
    else
      assert events[0] in events;
      var (st', out) := Act(st, match events[0] case OutOfFrame => StrayByte case WholeFrame(raw) => Arrival(Read(raw, read)));
      (st', rx', EncodeAll(out))
  }

  /** A station takes in a portion of bytes. */
  function HearAll(st: Station, rx: Rx, data: seq<byte>, read: seq<byte> -> Numbers): (r: (Station, Rx, seq<byte>))
    requires st.tx.maxFrameSize > 0 && RxValid(rx)
    ensures RxValid(r.1) && r.0.tx.maxFrameSize == st.tx.maxFrameSize
    decreases |data|
  {
    if data == [] then (st, rx, [])
    else
      var (st1, rx1, out1) := Hear(st, rx, data[0], read);
      var (st2, rx2, out2) := HearAll(st1, rx1, data[1..], read);
      (st2, rx2, out1 + out2)
  }

  lemma {:induction false} HearAllSnoc(st: Station, rx: Rx, data: seq<byte>, b: byte, read: seq<byte> -> Numbers)
    requires st.tx.maxFrameSize > 0 && RxValid(rx)
    ensures var (st1, rx1, out1) := HearAll(st, rx, data, read);
            var (st2, rx2, out2) := Hear(st1, rx1, b, read);
            HearAll(st, rx, data + [b], read) == (st2, rx2, out1 + out2)
    decreases |data|
  {
    hide Hear;
    if data == [] {
      assert [] + [b] == [b] && [b][1..] == [];
      var out2 := Hear(st, rx, b, read).2;
      assert out2 + [] == out2 == [] + out2;
    } else {
      assert (data + [b])[1..] == data[1..] + [b];
      var (st1, rx1, out1) := Hear(st, rx, data[0], read);
      HearAllSnoc(st1, rx1, data[1..], b, read);
      var (st2, rx2, out2) := HearAll(st1, rx1, data[1..], read);
      var out3 := Hear(st2, rx2, b, read).2;
      assert out1 + (out2 + out3) == out1 + out2 + out3;
    }
  }
}

/** How often a payload frame can go on the wire, whatever the other side and the line do. */
module SerialRetransmission {
  import opened Bytes
  import opened SerialRx
  import opened SerialFrames
  import opened SerialMessages
  import opened SerialStation

  /** The first transmission, three repetitions after a bad confirmation, four after a timeout. */
  const WRITES_MAX := 8

  function PayloadFrames(out: seq<Frame>): nat
  {
    if out == [] then 0 else (if out[0].kind == PAYLOAD then 1 else 0) + PayloadFrames(out[1..])
  }

  lemma {:induction false} PayloadFramesConcat(a: seq<Frame>, b: seq<Frame>)
    ensures PayloadFrames(a + b) == PayloadFrames(a) + PayloadFrames(b)
  {
    if a == [] {
      assert a + b == b;
    } else {
      assert (a + b)[1..] == a[1..] + b;
      PayloadFramesConcat(a[1..], b);
    }
  }

  /** The repetitions the current frame has left. */
  function Budget(s: Sender): int
  {
    (ERROR_MAX - s.errors) + (TIMEOUT_MAX - 1 - s.timeouts)
  }

  datatype Effect = Quiet | Repeated | NewFrame | GaveUpOrDone

  /** The frame after the current one, of the same message. */
  predicate NextFragment(s: Sender, s': Sender)
    requires s.maxFrameSize > 0
  {
    && s.state == WaitForAck && s'.started == s.started && s'.tid == s.tid
    && DataLeft(s.message) && s'.message == Popped(s.message, s.maxFrameSize)
  }

  /** The first frame of the next message waiting. */
  predicate FirstFragment(s: Sender, s': Sender, queue: seq<Outgoing>)
    requires s.maxFrameSize > 0
  {
    && (s.state == WaitForAck ==> !DataLeft(s.message)) && s'.started == s.started + 1
    && queue != [] && s'.queue == queue[1..] && s'.tid == queue[0].tid
    && s'.message == Popped(ForSending(queue[0].text, s.maxFrameSize), s.maxFrameSize)
  }

  /** The four things an event can do to a sender; `queue` are the messages waiting, a new one included, and `writes` is
      the number of payload frames written. */
  predicate Has(effect: Effect, s: Sender, s': Sender, queue: seq<Outgoing>, writes: nat)
    requires s.maxFrameSize > 0
  {
    match effect
    case Quiet =>
      writes == 0 && s' == s.(queue := queue)
    case Repeated =>
      && writes == 1 && s.state == WaitForAck && s'.state == WaitForAck
      && s'.serial == s.serial && s'.sentFrame == s.sentFrame && s'.message == s.message && s'.started == s.started
      && Budget(s') == Budget(s) - 1
    case NewFrame =>
      && writes == 1 && s'.state == WaitForAck && s'.serial == s.serial + 1
      && s'.sentFrame.content == s'.message.framePayload
      && (NextFragment(s, s') || FirstFragment(s, s', queue))
    case GaveUpOrDone =>
      writes == 0 && s.state == WaitForAck && s'.state == Idle && s'.serial == s.serial
  }

  function EffectOf(s: Sender, s': Sender): Effect
  {
    if s'.serial != s.serial then NewFrame
    else if s.state == WaitForAck && s'.state == Idle then GaveUpOrDone
    else if s'.errors != s.errors || s'.timeouts != s.timeouts then Repeated
    else Quiet
  }

  lemma OneFrame(f: Frame)
    ensures PayloadFrames([f]) == if f.kind == PAYLOAD then 1 else 0
    ensures PayloadFrames([]) == 0
  {
  }

  lemma ReceiverWritesNoPayload(r: Receiver)
    ensures PayloadFrames(ReceiverLoop(r).1) == 0
  {
  }

  lemma SenderLoopEffect(s: Sender, s0: Sender, receivedMid: int)
    requires SenderSettled(s0)
    requires s == s0 || s == s0.(queue := s.queue) || (s0.state == WaitForAck && s.state != Idle && s == s0.(state := s.state))
    ensures var (s', out) := SenderLoop(s, receivedMid);
            Has(EffectOf(s0, s'), s0, s', s.queue, PayloadFrames(out))
  {
    var (s', out) := SenderLoop(s, receivedMid);
    if out != [] {
      OneFrame(out[0]);
    }
  }

  lemma SendLoopWrites(st: Station)
    requires st.tx.maxFrameSize > 0
    ensures PayloadFrames(SendLoop(st).1) == PayloadFrames(SenderLoop(st.tx, st.rc.receivedMid).1)
    ensures var s' := SenderLoop(st.tx, st.rc.receivedMid).0;
            SendLoop(st).0.tx == if WroteEmpty(st.tx, s') then s'.(timerArmed := false) else s'
  {
    ReceiverWritesNoPayload(st.rc);
    PayloadFramesConcat(SenderLoop(st.tx, st.rc.receivedMid).1, ReceiverLoop(st.rc).1);
  }

  /** The messages waiting when the event is dealt with. */
  function Queued(st: Station, input: Input): seq<Outgoing>
  {
    st.tx.queue + if st.alive && input.Submit? then [input.message] else []
  }

  /** Every event leaves the sender's part alone, repeats the current frame at the cost of one unit of budget, writes
      a new frame, or ends the current message; nothing else writes payload. */
  lemma ActEffect(st: Station, input: Input)
    requires Settled(st)
    ensures var (st', out) := Act(st, input);
            Has(EffectOf(st.tx, st'.tx), st.tx, st'.tx, Queued(st, input), PayloadFrames(out))
  {
    var (st', out) := Act(st, input);
    assert st.tx.queue + [] == st.tx.queue;
    if st.alive {
      match input
      case Submit(message) =>
        var s := st.tx.(queue := st.tx.queue + [message]);
        SenderLoopEffect(s, st.tx, st.rc.receivedMid);
        SendLoopWrites(st.(tx := s));
      case Arrival(f) =>
        if f.kind == PAYLOAD {
          ArrivalOfPayloadEffect(st, f);
        } else {
          ArrivalOfConfirmationEffect(st, f);
        }
      case ConfirmationTimeout =>
        OneFrame(st.tx.sentFrame);
      case StrayByte =>
        OneFrame(out[0]);
      case FrameTimeout =>
        OneFrame(out[0]);
    }
  }

  lemma ArrivalOfPayloadEffect(st: Station, f: Received)
    requires Settled(st) && st.alive
    ensures var (st', out) := OnPayload(st, f);
            Has(EffectOf(st.tx, st'.tx), st.tx, st'.tx, st.tx.queue, PayloadFrames(out))
  {
    SenderLoopEffect(st.tx, st.tx, f.mid);
    if !f.intact {
      SendLoopWrites(st.(rc := Refuse(st.rc, f)));
    } else {
      SendLoopWrites(st.(rc := TakePayload(st.rc, f)));
    }
  }

  lemma ArrivalOfConfirmationEffect(st: Station, f: Received)
    requires Settled(st) && st.alive
    ensures var (st', out) := OnConfirmation(st, f);
            Has(EffectOf(st.tx, st'.tx), st.tx, st'.tx, st.tx.queue, PayloadFrames(out))
  {
    SenderLoopEffect(Confirmed(st.tx, f), st.tx, f.mid);
    SendLoopWrites(st.(rc := st.rc.(receivedMid := f.mid), tx := Confirmed(st.tx, f)));
  }

  // ---------------------------------------------------------------- whole runs

  /** The station after a run, and for every payload frame written the number of the frame. */
  function Run(st: Station, inputs: seq<Input>): (Station, seq<nat>)
    requires Settled(st)
    decreases |inputs|
  {
    if inputs == [] then (st, [])
    else
      var (st1, out) := Act(st, inputs[0]);
      ActSettles(st, inputs[0]);
      var (st2, written) := Run(st1, inputs[1..]);
      (st2, seq(PayloadFrames(out), _ => st1.tx.serial) + written)
  }

  function Count(written: seq<nat>, serial: nat): nat
  {
    if written == [] then 0 else (if written[0] == serial then 1 else 0) + Count(written[1..], serial)
  }

  /** How often a frame can still be written: not at all once a later one is out, or the program has ended. */
  function WritesLeft(st: Station, serial: nat): int
  {
    if !st.alive then 0
    else if serial > st.tx.serial then WRITES_MAX
    else if serial == st.tx.serial && st.tx.state == WaitForAck then Budget(st.tx)
    else 0
  }

  lemma {:induction false} RunWrites(st: Station, inputs: seq<Input>, serial: nat)
    requires Settled(st)
    ensures Count(Run(st, inputs).1, serial) <= WritesLeft(st, serial)
    decreases |inputs|
  {
    if inputs != [] {
      var (st1, out) := Act(st, inputs[0]);
      ActSettles(st, inputs[0]);
      ActEffect(st, inputs[0]);
      RunWrites(st1, inputs[1..], serial);
      var now := seq(PayloadFrames(out), _ => st1.tx.serial);
      var later := Run(st1, inputs[1..]).1;
      if now == [] {
        assert now + later == later;
      } else {
        assert now == [st1.tx.serial];
        assert (now + later)[1..] == later;
      }
    }
  }

  /** No frame goes on the wire more than eight times, over any run of events. */
  lemma AtMostEightWrites(maxFrameSize: nat, inputs: seq<Input>, serial: nat)
    requires maxFrameSize > 0
    ensures Settled(Initial(maxFrameSize)) && Count(Run(Initial(maxFrameSize), inputs).1, serial) <= WRITES_MAX
  {
    RunWrites(Initial(maxFrameSize), inputs, serial);
  }

  /** The bound is exact: a waiting station can be made to use up its whole budget. */
  lemma {:induction false} BudgetCanBeUsed(st: Station) returns (inputs: seq<Input>)
    requires Settled(st) && st.alive && st.tx.state == WaitForAck
    ensures Count(Run(st, inputs).1, st.tx.serial) == Budget(st.tx)
    decreases Budget(st.tx)
  {
    if Budget(st.tx) == 0 {
      inputs := [];
    } else {
      var nak := Arrival(Received(CONFIRMATION, st.tx.needAckMid, 1, 1, true, [NAK]));
      var first := if st.tx.errors < ERROR_MAX then nak else ConfirmationTimeout;
      var (st1, out) := Act(st, first);
      RepeatStep(st, first);
      var rest := BudgetCanBeUsed(st1);
      inputs := [first] + rest;
      assert inputs[1..] == rest;
      var now := seq(PayloadFrames(out), _ => st1.tx.serial);
      assert now == [st.tx.serial];
      assert (now + Run(st1, rest).1)[1..] == Run(st1, rest).1;
    }
  }

  lemma RepeatStep(st: Station, input: Input)
    requires Settled(st) && st.alive && st.tx.state == WaitForAck
    requires if st.tx.errors < ERROR_MAX then input == Arrival(Received(CONFIRMATION, st.tx.needAckMid, 1, 1, true, [NAK]))
             else input == ConfirmationTimeout && st.tx.timeouts < TIMEOUT_MAX - 1
    ensures var (st', out) := Act(st, input);
            Settled(st') && st'.alive && st'.tx.state == WaitForAck && st'.tx.serial == st.tx.serial
            && Budget(st'.tx) == Budget(st.tx) - 1 && PayloadFrames(out) == 1
  {
    ActSettles(st, input);
    ActEffect(st, input);
  }

  /** Eight writes do happen: the first frame of a message is written eight times on some run. */
  lemma EightWritesReached(maxFrameSize: nat, m: Outgoing) returns (inputs: seq<Input>)
    requires maxFrameSize > 0 && m.text != []
    ensures Settled(Initial(maxFrameSize)) && Count(Run(Initial(maxFrameSize), inputs).1, 1) == WRITES_MAX
  {
    var st := Initial(maxFrameSize);
    var (st1, out) := Act(st, Submit(m));
    ActSettles(st, Submit(m));
    SubmitConcernsSender(st, m);
    OneFrame(out[0]);
    var rest := BudgetCanBeUsed(st1);
    inputs := [Submit(m)] + rest;
    assert inputs[1..] == rest;
    var now := seq(PayloadFrames(out), _ => st1.tx.serial);
    assert now == [1];
    assert (now + Run(st1, rest).1)[1..] == Run(st1, rest).1;
  }
}

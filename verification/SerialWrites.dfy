/** What a station writes, read off the events: which frame of which message, and which answer to what came in. */
module SerialWrites {
  import opened Bytes
  import opened SerialRx
  import opened SerialFrames
  import opened SerialMessages
  import opened SerialStation
  import opened SerialStall
  import SerialLossless

  lemma AliveBefore(st: Station, inputs: seq<Input>)
    requires Settled(st) && inputs != [] && After(st, inputs).alive
    ensures var front := inputs[..|inputs| - 1]; Settled(After(st, front)) && After(st, front).alive
  {
    hide After, Act;
    AfterLast(st, inputs);
    DeadActs(After(st, inputs[..|inputs| - 1]), inputs[|inputs| - 1]);
  }

  lemma DeadActs(st: Station, input: Input)
    requires st.tx.maxFrameSize > 0
    ensures !st.alive ==> Act(st, input).0 == st
  {
  }

  // ---------------------------------------------------------------- the payload frames

  /** The messages given to a station. */
  function Given(inputs: seq<Input>): seq<Outgoing>
  {
    if inputs == [] then []
    else Given(inputs[..|inputs| - 1]) + if inputs[|inputs| - 1].Submit? then [inputs[|inputs| - 1].message] else []
  }

  /** The sender is at fragment `transceived` of the message it took last: that is the frame it wrote last, and the fragments
      after it are still to come. */
  predicate AtFragment(s: Sender, given: seq<Outgoing>)
    requires s.maxFrameSize > 0
  {
    && 1 <= s.started <= |given|
    && var m, k := given[s.started - 1], s.message.transceived;
       var fs := Fragments(m.text, s.maxFrameSize);
       && s.tid == m.tid && 1 <= k <= |fs| == s.message.numFrames
       && Fragments(s.message.payload, s.maxFrameSize) == fs[k..]
       && s.sentFrame == Frame(0x50, s.sentFrame.mid, k, |fs|, fs[k - 1])
  }

  predicate InOrder(s: Sender, given: seq<Outgoing>)
    requires s.maxFrameSize > 0
  {
    && s.started <= |given| && s.queue == given[s.started..]
    && (s.state != Idle ==> AtFragment(s, given))
  }

  /** The next fragment goes out under the next number. */
  lemma NextFragmentWritten(s: Sender, given: seq<Outgoing>)
    requires s.maxFrameSize > 0 && 1 <= s.started <= |given| && s.queue == given[s.started..] && s.tid == given[s.started - 1].tid
    requires var fs, k := Fragments(given[s.started - 1].text, s.maxFrameSize), s.message.transceived;
             0 <= k < |fs| == s.message.numFrames && Fragments(s.message.payload, s.maxFrameSize) == fs[k..]
    ensures InOrder(SendNextFrame(s).0, given)
  {
    var fs, k := Fragments(given[s.started - 1].text, s.maxFrameSize), s.message.transceived;
    assert s.message.payload != [];
    PopTakesFragment(s.message, s.maxFrameSize);
    var m := Popped(s.message, s.maxFrameSize);
    assert fs[k..] == [m.framePayload] + Fragments(m.payload, s.maxFrameSize);
    assert fs[k..][0] == fs[k] && fs[k..][1..] == fs[k + 1..];
    assert ([m.framePayload] + Fragments(m.payload, s.maxFrameSize))[1..] == Fragments(m.payload, s.maxFrameSize);
  }

  lemma FirstFragmentWritten(s: Sender, given: seq<Outgoing>)
    requires s.maxFrameSize > 0 && s.started < |given| && s.queue == given[s.started..] && given[s.started].text != []
    ensures s.queue != [] && InOrder(StartNextMessage(s).0, given)
  {
    var m := given[s.started];
    assert s.queue[0] == m && s.queue[1..] == given[s.started + 1..];
    FragmentsOf(m.text, s.maxFrameSize);
    FrameCountStep(|m.text|, s.maxFrameSize);
    var fs := Fragments(m.text, s.maxFrameSize);
    assert fs[0..] == fs;
    NextFragmentWritten(s.(message := ForSending(m.text, s.maxFrameSize), tid := m.tid, queue := s.queue[1..],
                           started := s.started + 1), given);
  }

  lemma FromQueueInOrder(s: Sender, given: seq<Outgoing>)
    requires s.maxFrameSize > 0 && s.state == Idle && InOrder(s, given)
    ensures var s' := SendFromQueue(s).0; InOrder(s', given) || WroteEmpty(s, s')
  {
    if s.queue != [] {
      if given[s.started].text != [] {
        FirstFragmentWritten(s, given);
      } else {
        FrameCountStep(0, s.maxFrameSize);
        EmptyWritten(s);
      }
    }
  }

  lemma EmptyWritten(s: Sender)
    requires s.maxFrameSize > 0 && s.queue != [] && s.queue[0].text == []
    ensures WroteEmpty(s, StartNextMessage(s).0)
  {
  }

  lemma LoopInOrder(s: Sender, receivedMid: int, given: seq<Outgoing>)
    requires s.maxFrameSize > 0 && InOrder(s, given)
    ensures var s' := SenderLoop(s, receivedMid).0; InOrder(s', given) || WroteEmpty(s, s')
  {
    hide AtFragment, SendFromQueue, SendNextFrame;
    match s.state
    case Idle => FromQueueInOrder(s, given);
    case GotAck =>
      if receivedMid == s.needAckMid {
        var s1 := s.(timerArmed := false, errors := 0, timeouts := 0, state := Idle);
        if DataLeft(s.message) {
          FragmentsLeft(s, given);
          NextFragmentWritten(s1, given);
        } else {
          FromQueueInOrder(Complete(s1), given);
        }
      } else {
        ResendInOrder(s, given);
      }
    case _ => ResendInOrder(s, given);
  }

  lemma FragmentsLeft(s: Sender, given: seq<Outgoing>)
    requires s.maxFrameSize > 0 && AtFragment(s, given)
    ensures 1 <= s.started <= |given| && s.tid == given[s.started - 1].tid
    ensures var fs, k := Fragments(given[s.started - 1].text, s.maxFrameSize), s.message.transceived;
            1 <= k <= |fs| == s.message.numFrames && Fragments(s.message.payload, s.maxFrameSize) == fs[k..]
  {
  }

  lemma ResendInOrder(s: Sender, given: seq<Outgoing>)
    requires s.maxFrameSize > 0 && InOrder(s, given) && s.state != Idle
    ensures InOrder(ErrorInConfirmation(s.(timerArmed := false)).0, given) && InOrder(OnTimeout(s).0, given)
  {
  }

  lemma MoreGiven(s: Sender, given: seq<Outgoing>, m: Outgoing)
    requires s.maxFrameSize > 0 && InOrder(s, given)
    ensures InOrder(s.(queue := s.queue + [m]), given + [m])
  {
    assert (given + [m])[s.started..] == given[s.started..] + [m];
  }

  lemma StepInOrder(st: Station, input: Input, given: seq<Outgoing>)
    requires Settled(st) && st.alive && InOrder(st.tx, given)
    ensures Act(st, input).0.alive ==> InOrder(Act(st, input).0.tx, given + if input.Submit? then [input.message] else [])
  {
    hide SenderLoop, AtFragment, WroteEmpty;
    assert given + [] == given;
    match input
    case Submit(m) =>
      MoreGiven(st.tx, given, m);
      LoopInOrder(st.tx.(queue := st.tx.queue + [m]), st.rc.receivedMid, given + [m]);
    case Arrival(f) =>
      LoopInOrder(st.tx, f.mid, given);
      StillAtFragment(st.tx, Confirmed(st.tx, f), given);
      LoopInOrder(Confirmed(st.tx, f), f.mid, given);
    case ConfirmationTimeout => if st.tx.timerArmed { ResendInOrder(st.tx, given); }
    case _ =>
  }

  lemma StillAtFragment(s: Sender, s': Sender, given: seq<Outgoing>)
    requires s.maxFrameSize > 0 && InOrder(s, given) && s' == s.(state := s'.state) && (s.state == Idle ==> s'.state == Idle)
    ensures InOrder(s', given)
  {
  }

  lemma {:induction false} RunInOrder(maxFrameSize: nat, inputs: seq<Input>)
    requires maxFrameSize > 0
    ensures var st := After(Initial(maxFrameSize), inputs); Settled(st) && (st.alive ==> InOrder(st.tx, Given(inputs)))
  {
    hide After, Act, InOrder, Settled;
    var st0 := Initial(maxFrameSize);
    assert Settled(st0) by { InitialSettled(maxFrameSize); }
    if inputs == [] {
      AfterNothing(st0);
      assert InOrder(st0.tx, []) by { NothingGiven(maxFrameSize); }
    } else {
      var front, last := inputs[..|inputs| - 1], inputs[|inputs| - 1];
      RunInOrder(maxFrameSize, front);
      AfterLast(st0, inputs);
      ActSettles(After(st0, front), last);
      if After(st0, inputs).alive {
        AliveBefore(st0, inputs);
        StepInOrder(After(st0, front), last, Given(front));
        assert Given(front) + [] == Given(front);
      }
    }
  }

  lemma NothingGiven(maxFrameSize: nat)
    requires maxFrameSize > 0
    ensures InOrder(Initial(maxFrameSize).tx, [])
  {
  }

  /** In every reachable state in which a station waits: the frame it wrote last is fragment k of the message it took last, as
      frame k of as many as there are fragments, under the mid that counts the frames modulo 1000; the messages behind it
      wait, in order. */
  lemma FrameIsFragment(maxFrameSize: nat, inputs: seq<Input>)
    requires maxFrameSize > 0
    ensures var st := After(Initial(maxFrameSize), inputs);
            st.alive && st.tx.state == WaitForAck ==>
              && 1 <= st.tx.started <= |Given(inputs)| && st.tx.queue == Given(inputs)[st.tx.started..]
              && var fs, k := Fragments(Given(inputs)[st.tx.started - 1].text, maxFrameSize), st.tx.message.transceived;
                 1 <= k <= |fs| && st.tx.sentFrame == Frame(0x50, st.tx.serial % 1000, k, |fs|, fs[k - 1])
  {
    hide After;
    RunInOrder(maxFrameSize, inputs);
    SizeStays(maxFrameSize, inputs);
  }

  lemma {:induction false} SizeStays(maxFrameSize: nat, inputs: seq<Input>)
    requires maxFrameSize > 0
    ensures After(Initial(maxFrameSize), inputs).tx.maxFrameSize == maxFrameSize
  {
    hide After, Act;
    if inputs == [] {
      AfterNothing(Initial(maxFrameSize));
    } else {
      SizeStays(maxFrameSize, inputs[..|inputs| - 1]);
      AfterLast(Initial(maxFrameSize), inputs);
    }
  }

  // ---------------------------------------------------------------- the answers

  /** The mid of the frame that came in last. */
  function LastMid(inputs: seq<Input>): int
  {
    if inputs == [] then 0
    else if inputs[|inputs| - 1].Arrival? then inputs[|inputs| - 1].received.mid
    else LastMid(inputs[..|inputs| - 1])
  }

  /** Index and number of the payload frame that came in last, or 1 and 1 after a byte outside frames. */
  function LastNumbers(inputs: seq<Input>): (int, int)
  {
    if inputs == [] then (1, 1)
    else
      var last := inputs[|inputs| - 1];
      if last.Arrival? && last.received.kind == 0x50 then (last.received.index, last.received.number)
      else if last.StrayByte? then (1, 1)
      else LastNumbers(inputs[..|inputs| - 1])
  }

  /** The answer to an event after `inputs`: an acknowledgement, or a refusal with the code CS, NF or FTO. */
  function AnswerTo(inputs: seq<Input>, input: Input): seq<Frame>
  {
    match input
    case Arrival(f) =>
      if f.kind != 0x50 then []
      else [Frame(0x43, f.mid, f.index, f.number, if f.intact then [0x06] else [0x15, 'C' as int, 'S' as int])]
    case StrayByte => [Frame(0x43, LastMid(inputs), 1, 1, [0x15, 'N' as int, 'F' as int])]
    case FrameTimeout =>
      [Frame(0x43, LastMid(inputs), LastNumbers(inputs).0, LastNumbers(inputs).1, [0x15, 'F' as int, 'T' as int, 'O' as int])]
    case _ => []
  }

  predicate Remembers(r: Receiver, inputs: seq<Input>)
  {
    r.receivedMid == LastMid(inputs) && (r.ackIndex, r.ackNumber) == LastNumbers(inputs)
  }

  lemma SenderWritesNoAnswer(s: Sender, receivedMid: int)
    requires s.maxFrameSize > 0 && (s.state != Idle ==> s.sentFrame.kind == PAYLOAD)
    ensures SerialLossless.OfKind(SenderLoop(s, receivedMid).1, 0x43) == []
  {
    var out := SenderLoop(s, receivedMid).1;
    if out != [] {
      assert out == [out[0]] && out[1..] == [];
    }
  }

  lemma OneOfKind(f: Frame)
    ensures SerialLossless.OfKind([f], 0x43) == if f.kind == 0x43 then [f] else []
    ensures SerialLossless.OfKind([], 0x43) == []
  {
    assert [f][1..] == [];
  }

  lemma LoopAnswers(st: Station)
    requires st.tx.maxFrameSize > 0 && (st.tx.state != Idle ==> st.tx.sentFrame.kind == PAYLOAD) && SendLoop(st).0.alive
    ensures SerialLossless.OfKind(SendLoop(st).1, 0x43) == ReceiverLoop(st.rc).1
    ensures var r := SendLoop(st).0.rc; r.receivedMid == st.rc.receivedMid && r.ackIndex == st.rc.ackIndex && r.ackNumber == st.rc.ackNumber
  {
    SenderWritesNoAnswer(st.tx, st.rc.receivedMid);
    SerialLossless.OfKindConcat(SenderLoop(st.tx, st.rc.receivedMid).1, ReceiverLoop(st.rc).1, 0x43);
    OneOfKind(Confirmation(st.rc, [ACK]));
    OneOfKind(Confirmation(st.rc, [NAK] + CODE_CS));
    assert [] + ReceiverLoop(st.rc).1 == ReceiverLoop(st.rc).1;
  }

  /** What the sender does not touch: the numbers an answer is written with. */
  predicate SameNumbers(r: Receiver, r': Receiver)
  {
    r'.receivedMid == r.receivedMid && r'.ackIndex == r.ackIndex && r'.ackNumber == r.ackNumber
  }

  lemma PayloadAnswers(st: Station, f: Received)
    requires Settled(st) && st.alive && f.kind == 0x50 && Act(st, Arrival(f)).0.alive
    ensures SerialLossless.OfKind(Act(st, Arrival(f)).1, 0x43) == AnswerTo([], Arrival(f))
    ensures var r := Act(st, Arrival(f)).0.rc; r.receivedMid == f.mid && r.ackIndex == f.index && r.ackNumber == f.number
  {
    hide SendLoop, SerialLossless.OfKind;
    assert [NAK] + CODE_CS == [0x15, 67, 83];
    LoopAnswers(st.(rc := if f.intact then TakePayload(st.rc, f) else Refuse(st.rc, f)));
  }

  lemma ConfirmationAnswers(st: Station, f: Received)
    requires Settled(st) && st.alive && f.kind != 0x50 && Act(st, Arrival(f)).0.alive
    ensures SerialLossless.OfKind(Act(st, Arrival(f)).1, 0x43) == []
    ensures SameNumbers(st.rc.(receivedMid := f.mid), Act(st, Arrival(f)).0.rc)
  {
    hide SendLoop, SerialLossless.OfKind;
    OneOfKind(st.tx.sentFrame);
    if f.intact {
      LoopAnswers(st.(rc := st.rc.(receivedMid := f.mid), tx := Confirmed(st.tx, f)));
    }
  }

  lemma SubmitAnswers(st: Station, m: Outgoing)
    requires Settled(st) && st.alive && Act(st, Submit(m)).0.alive
    ensures SerialLossless.OfKind(Act(st, Submit(m)).1, 0x43) == [] && SameNumbers(st.rc, Act(st, Submit(m)).0.rc)
  {
    hide SendLoop, SerialLossless.OfKind;
    LoopAnswers(st.(tx := st.tx.(queue := st.tx.queue + [m])));
  }

  lemma TimerAnswers(st: Station)
    requires Settled(st) && st.alive
    ensures var (st', out) := Act(st, ConfirmationTimeout); SerialLossless.OfKind(out, 0x43) == [] && SameNumbers(st.rc, st'.rc)
  {
    hide SerialLossless.OfKind;
    OneOfKind(st.tx.sentFrame);
  }

  lemma RefusalAnswers(st: Station, inputs: seq<Input>, input: Input)
    requires Settled(st) && st.alive && Remembers(st.rc, inputs) && (input.StrayByte? || input.FrameTimeout?)
    ensures SerialLossless.OfKind(Act(st, input).1, 0x43) == AnswerTo(inputs, input)
    ensures var r := Act(st, input).0.rc;
            && r.receivedMid == st.rc.receivedMid
            && (r.ackIndex, r.ackNumber) == if input.StrayByte? then (1, 1) else (st.rc.ackIndex, st.rc.ackNumber)
  {
    hide SerialLossless.OfKind, LastMid, LastNumbers;
    assert [NAK] + CODE_NF == [0x15, 78, 70] && [NAK] + CODE_FTO == [0x15, 70, 84, 79];
    OneOfKind(Act(st, input).1[0]);
  }

  lemma NumbersRead(inputs: seq<Input>, input: Input)
    ensures LastMid(inputs + [input]) == if input.Arrival? then input.received.mid else LastMid(inputs)
    ensures LastNumbers(inputs + [input])
         == if input.Arrival? && input.received.kind == 0x50 then (input.received.index, input.received.number)
            else if input.StrayByte? then (1, 1)
            else LastNumbers(inputs)
  {
    assert (inputs + [input])[..|inputs|] == inputs;
  }

  lemma StepAnswers(st: Station, inputs: seq<Input>, input: Input)
    requires Settled(st) && st.alive && Remembers(st.rc, inputs) && Act(st, input).0.alive
    ensures SerialLossless.OfKind(Act(st, input).1, 0x43) == AnswerTo(inputs, input)
    ensures Remembers(Act(st, input).0.rc, inputs + [input])
  {
    hide Act, SerialLossless.OfKind, LastMid, LastNumbers, Settled;
    NumbersRead(inputs, input);
    match input
    case Submit(m) => SubmitAnswers(st, m);
    case Arrival(f) => if f.kind == 0x50 { PayloadAnswers(st, f); } else { ConfirmationAnswers(st, f); }
    case ConfirmationTimeout => TimerAnswers(st);
    case _ => RefusalAnswers(st, inputs, input);
  }

  lemma {:induction false} RunRemembers(maxFrameSize: nat, inputs: seq<Input>)
    requires maxFrameSize > 0
    ensures var st := After(Initial(maxFrameSize), inputs); Settled(st) && (st.alive ==> Remembers(st.rc, inputs))
  {
    hide After, Act, Remembers, Settled;
    var st0 := Initial(maxFrameSize);
    assert Settled(st0) by { InitialSettled(maxFrameSize); }
    if inputs == [] {
      AfterNothing(st0);
      assert Remembers(st0.rc, []) by { NothingRemembered(maxFrameSize); }
    } else {
      var front, last := inputs[..|inputs| - 1], inputs[|inputs| - 1];
      RunRemembers(maxFrameSize, front);
      AfterLast(st0, inputs);
      ActSettles(After(st0, front), last);
      if After(st0, inputs).alive {
        AliveBefore(st0, inputs);
        StepAnswers(After(st0, front), front, last);
        assert front + [last] == inputs;
      }
    }
  }

  lemma NothingRemembered(maxFrameSize: nat)
    ensures Remembers(Initial(maxFrameSize).rc, [])
  {
  }

  /** After any run, whatever comes in: the confirmations written are exactly the answer to it, the code and the numbers in it
      read off the events, as long as the program does not end with it. */
  lemma AnswersAre(maxFrameSize: nat, inputs: seq<Input>, input: Input)
    requires maxFrameSize > 0
    ensures Settled(After(Initial(maxFrameSize), inputs))
    ensures var st := After(Initial(maxFrameSize), inputs);
            Act(st, input).0.alive ==> SerialLossless.OfKind(Act(st, input).1, 0x43) == AnswerTo(inputs, input)
  {
    hide After, Act;
    RunRemembers(maxFrameSize, inputs);
    var st := After(Initial(maxFrameSize), inputs);
    if Act(st, input).0.alive {
      DeadActs(st, input);
      StepAnswers(st, inputs, input);
    }
  }

  // ---------------------------------------------------------------- what is put together and delivered

  /** The frames of a message come in so far: their contents, how many they are, and how many are expected. */
  datatype Gathering = Gathering(payload: seq<byte>, count: int, expected: int)

  /** What was gathered from the intact payload frames since the last with index 1. One that is not intact undoes it all. */
  function Gathered(inputs: seq<Input>): Gathering
  {
    if inputs == [] then Gathering([], 0, 0)
    else
      var before, last := Gathered(inputs[..|inputs| - 1]), inputs[|inputs| - 1];
      if !last.Arrival? || last.received.kind != 0x50 then before
      else if !last.received.intact then Gathering([], 0, 0)
      else if last.received.index == 1 then Gathering(last.received.content, 1, last.received.number)
      else Gathering(before.payload + last.received.content, before.count + 1, before.expected)
  }

  /** What is complete with an intact payload frame is delivered, and stays where it is. */
  function Deliveries(inputs: seq<Input>): seq<seq<byte>>
  {
    if inputs == [] then []
    else
      var last, now := inputs[|inputs| - 1], Gathered(inputs);
      Deliveries(inputs[..|inputs| - 1])
      + if last.Arrival? && last.received.kind == 0x50 && last.received.intact && now.count >= now.expected then [now.payload] else []
  }

  predicate Holds(r: Receiver, g: Gathering)
  {
    r.message.payload == g.payload && r.message.transceived == g.count && r.message.numFrames == g.expected
  }

  lemma SendLoopReceives(st: Station)
    requires st.tx.maxFrameSize > 0 && SendLoop(st).0.alive
    ensures SendLoop(st).0.rc == ReceiverLoop(st.rc).0
  {
  }

  lemma StepGathers(st: Station, inputs: seq<Input>, input: Input)
    requires Settled(st) && st.alive && Holds(st.rc, Gathered(inputs)) && Act(st, input).0.alive
    ensures Holds(Act(st, input).0.rc, Gathered(inputs + [input]))
    ensures st.rc.delivered == Deliveries(inputs) ==> Act(st, input).0.rc.delivered == Deliveries(inputs + [input])
  {
    hide SendLoop;
    assert (inputs + [input])[..|inputs|] == inputs && (inputs + [input])[|inputs|] == input;
    assert Deliveries(inputs) + [] == Deliveries(inputs) && st.rc.delivered + [] == st.rc.delivered;
    match input
    case Submit(m) => SendLoopReceives(st.(tx := st.tx.(queue := st.tx.queue + [m])));
    case Arrival(f) =>
      if f.kind == PAYLOAD {
        SendLoopReceives(st.(rc := if f.intact then TakePayload(st.rc, f) else Refuse(st.rc, f)));
        assert [] + f.content == f.content;
      } else if f.intact {
        SendLoopReceives(st.(rc := st.rc.(receivedMid := f.mid), tx := Confirmed(st.tx, f)));
      }
    case _ =>
  }

  /** Over any run, whatever frames come in: what the station delivers is what was gathered from the intact payload frames,
      each time as many as announced are there. */
  lemma {:induction false} DeliveredIsGathered(maxFrameSize: nat, inputs: seq<Input>)
    requires maxFrameSize > 0
    ensures var st := After(Initial(maxFrameSize), inputs);
            Settled(st) && (st.alive ==> Holds(st.rc, Gathered(inputs)) && st.rc.delivered == Deliveries(inputs))
  {
    hide After, Act, Settled, Gathered, Deliveries;
    var st0 := Initial(maxFrameSize);
    assert Settled(st0) by { InitialSettled(maxFrameSize); }
    if inputs == [] {
      AfterNothing(st0);
      NothingGathered(maxFrameSize);
    } else {
      var front, last := inputs[..|inputs| - 1], inputs[|inputs| - 1];
      DeliveredIsGathered(maxFrameSize, front);
      AfterLast(st0, inputs);
      ActSettles(After(st0, front), last);
      if After(st0, inputs).alive {
        AliveBefore(st0, inputs);
        StepGathers(After(st0, front), front, last);
        assert front + [last] == inputs;
      }
    }
  }

  lemma NothingGathered(maxFrameSize: nat)
    ensures Holds(Initial(maxFrameSize).rc, Gathered([])) && Initial(maxFrameSize).rc.delivered == Deliveries([])
  {
  }
}

/** Where progress of the serial link ends: messages that nothing starts, and messages that end the program. */
module SerialStall {
  import opened Bytes
  import opened SerialRx
  import opened SerialFrames
  import opened SerialMessages
  import opened SerialStation
  import opened SerialRetransmission

  /** The station after a run. */
  function After(st: Station, inputs: seq<Input>): Station
    requires Settled(st)
  {
    Run(st, inputs).0
  }

  lemma {:induction false} AfterSnoc(st: Station, inputs: seq<Input>, input: Input)
    requires Settled(st)
    ensures Settled(After(st, inputs)) && After(st, inputs + [input]) == Act(After(st, inputs), input).0
    decreases |inputs|
  {
    hide Act, Settled;
    if inputs == [] {
      ActSettles(st, input);
      AfterNothing(st);
      AfterNothing(Act(st, input).0);
      assert inputs + [input] == [input] && [input][1..] == [];
    } else {
      ActSettles(st, inputs[0]);
      assert (inputs + [input])[1..] == inputs[1..] + [input];
      AfterSnoc(Act(st, inputs[0]).0, inputs[1..], input);
    }
  }

  lemma AfterLast(st: Station, inputs: seq<Input>)
    requires Settled(st) && inputs != []
    ensures var front, last := inputs[..|inputs| - 1], inputs[|inputs| - 1];
            Settled(After(st, front)) && After(st, inputs) == Act(After(st, front), last).0
  {
    hide After, Act, Settled;
    var front, last := inputs[..|inputs| - 1], inputs[|inputs| - 1];
    assert inputs == front + [last];
    AfterSnoc(st, front, last);
  }

  lemma AfterNothing(st: Station)
    requires Settled(st)
    ensures After(st, []) == st
  {
  }

  /** The event makes the send loop run. */
  predicate RunsLoop(input: Input)
  {
    input.Submit? || (input.Arrival? && (input.received.kind == PAYLOAD || input.received.intact))
  }

  predicate IntactConfirmation(input: Input)
  {
    input.Arrival? && input.received.kind != PAYLOAD && input.received.intact
  }

  /** The event acknowledges the frame the sender waits for. */
  predicate Acknowledges(s: Sender, input: Input)
  {
    && IntactConfirmation(input) && input.received.content != [] && input.received.content[0] == 0x06
    && input.received.mid == s.needAckMid
  }

  // ---------------------------------------------------------------- messages that nothing starts

  /** Messages wait, none is under way, and no timer runs. */
  predicate Stalled(st: Station)
  {
    st.alive && st.tx.state == Idle && st.tx.queue != []
  }

  /** The sender gives the current message up while others wait: at the fifth timeout, or at the fourth intact confirmation
      that is not the acknowledgement awaited. */
  predicate GivesUpBeforeOthers(st: Station, input: Input)
  {
    && st.alive && st.tx.state == WaitForAck && st.tx.queue != []
    && ((input.ConfirmationTimeout? && st.tx.timeouts + 1 == TIMEOUT_MAX)
        || (IntactConfirmation(input) && !Acknowledges(st.tx, input) && st.tx.errors == ERROR_MAX))
  }

  lemma StepStalls(st: Station, input: Input)
    requires Settled(st)
    ensures Stalled(Act(st, input).0) <==> GivesUpBeforeOthers(st, input) || (Stalled(st) && !RunsLoop(input))
  {
  }

  /** The last time a message was given up while others waited, with nothing since to start them. */
  ghost predicate LeftWaiting(st: Station, inputs: seq<Input>)
    requires Settled(st)
  {
    exists k | 0 <= k < |inputs| ::
      && Settled(After(st, inputs[..k])) && GivesUpBeforeOthers(After(st, inputs[..k]), inputs[k])
      && forall j | k < j < |inputs| :: !RunsLoop(inputs[j])
  }

  lemma LeftWaitingMore(st: Station, inputs: seq<Input>)
    requires Settled(st) && inputs != []
    ensures var front, last := inputs[..|inputs| - 1], inputs[|inputs| - 1];
            Settled(After(st, front)) &&
            (LeftWaiting(st, inputs) <==> GivesUpBeforeOthers(After(st, front), last) || (LeftWaiting(st, front) && !RunsLoop(last)))
  {
    hide After, Settled, GivesUpBeforeOthers, RunsLoop;
    AfterLast(st, inputs);
    var front, last := inputs[..|inputs| - 1], inputs[|inputs| - 1];
    assert forall k | 0 <= k < |front| :: front[..k] == inputs[..k] && front[k] == inputs[k];
    if LeftWaiting(st, front) && !RunsLoop(last) {
      var k :| 0 <= k < |front| && Settled(After(st, front[..k])) && GivesUpBeforeOthers(After(st, front[..k]), front[k])
               && forall j | k < j < |front| :: !RunsLoop(front[j]);
      assert inputs[k] == front[k] && inputs[..k] == front[..k];
      assert forall j | k < j < |inputs| :: j < |front| ==> inputs[j] == front[j];
    }
    if GivesUpBeforeOthers(After(st, front), last) {
      assert inputs[..|front|] == front && inputs[|front|] == last;
    }
    if LeftWaiting(st, inputs) && !GivesUpBeforeOthers(After(st, front), last) {
      var k :| 0 <= k < |inputs| && Settled(After(st, inputs[..k])) && GivesUpBeforeOthers(After(st, inputs[..k]), inputs[k])
               && forall j | k < j < |inputs| :: !RunsLoop(inputs[j]);
      assert k < |front| && front[..k] == inputs[..k] && front[k] == inputs[k];
      assert forall j | k < j < |front| :: front[j] == inputs[j];
    }
  }

  lemma {:induction false} RunStalls(st: Station, inputs: seq<Input>)
    requires Settled(st) && !Stalled(st)
    ensures Stalled(After(st, inputs)) <==> LeftWaiting(st, inputs)
  {
    hide After, Act, Settled, GivesUpBeforeOthers, RunsLoop, LeftWaiting, Stalled;
    if inputs == [] {
      AfterNothing(st);
      NoneLeftWaiting(st);
    } else {
      var front, last := inputs[..|inputs| - 1], inputs[|inputs| - 1];
      RunStalls(st, front);
      AfterLast(st, inputs);
      LeftWaitingMore(st, inputs);
      StepStalls(After(st, front), last);
    }
  }

  lemma NoneLeftWaiting(st: Station)
    requires Settled(st)
    ensures !LeftWaiting(st, [])
  {
  }

  /** Over any run: messages wait with nothing under way exactly if a message was given up while they, or some of them, waited
      and nothing has made the send loop run since. */
  lemma StallsIff(maxFrameSize: nat, inputs: seq<Input>)
    requires maxFrameSize > 0
    ensures Settled(Initial(maxFrameSize))
    ensures Stalled(After(Initial(maxFrameSize), inputs)) <==> LeftWaiting(Initial(maxFrameSize), inputs)
  {
    RunStalls(Initial(maxFrameSize), inputs);
  }

  /** A stall lasts as long as nothing makes the send loop run: no payload is written, however long. What makes it run starts
      the oldest message waiting, or else the program ends. */
  lemma {:induction false} StallLasts(st: Station, inputs: seq<Input>, input: Input)
    requires Settled(st) && Stalled(st) && RunsLoop(input) && forall i | i in inputs :: !RunsLoop(i)
    ensures Run(st, inputs).1 == [] && After(st, inputs).tx == st.tx && Stalled(After(st, inputs))
    ensures var st' := After(st, inputs + [input]);
            st'.alive ==> st'.tx.state == WaitForAck && FirstFragment(st.tx, st'.tx, Queued(st, input))
    decreases |inputs|
  {
    if inputs == [] {
      AfterSnoc(st, [], input);
      ActEffect(st, input);
    } else {
      assert inputs[0] in inputs && forall i | i in inputs[1..] :: i in inputs;
      assert (inputs + [input])[1..] == inputs[1..] + [input];
      ActSettles(st, inputs[0]);
      Ignored(st, inputs[0]);
      StallLasts(Act(st, inputs[0]).0, inputs[1..], input);
    }
  }

  lemma Ignored(st: Station, input: Input)
    requires Settled(st) && Stalled(st) && !RunsLoop(input)
    ensures var (st', out) := Act(st, input); st'.alive && st'.tx == st.tx && PayloadFrames(out) == 0
  {
    ActEffect(st, input);
  }

  function Timeouts(n: nat): seq<Input>
  {
    if n == 0 then [] else [ConfirmationTimeout] + Timeouts(n - 1)
  }

  /** Silence of the other side is enough: any message under way is given up after the timeouts it has left, and those
      behind it stay where they are. */
  lemma {:induction false} SilenceStalls(st: Station)
    requires Settled(st) && st.alive && st.tx.state == WaitForAck && st.tx.queue != []
    ensures var st' := After(st, Timeouts(TIMEOUT_MAX - st.tx.timeouts));
            Stalled(st') && st'.tx.queue == st.tx.queue && st'.tx.completed == st.tx.completed && st'.tx.started == st.tx.started
    decreases TIMEOUT_MAX - st.tx.timeouts
  {
    var n := TIMEOUT_MAX - st.tx.timeouts;
    var st1 := Act(st, ConfirmationTimeout).0;
    ActSettles(st, ConfirmationTimeout);
    assert Timeouts(n)[1..] == Timeouts(n - 1);
    if n == 1 {
      AfterNothing(st1);
    } else {
      SilenceStalls(st1);
    }
  }

  // ---------------------------------------------------------------- messages that end the program

  /** What is left of the message under way takes as many frames as are left. */
  predicate Whole(s: Sender)
    requires s.maxFrameSize > 0
  {
    s.state == WaitForAck ==> s.message.numFrames - s.message.transceived == FrameCount(|s.message.payload|, s.maxFrameSize)
  }

  /** The event makes the sender take the next message. */
  predicate TakesNext(st: Station, input: Input)
  {
    && Queued(st, input) != []
    && if st.tx.state == Idle then RunsLoop(input) else Acknowledges(st.tx, input) && !DataLeft(st.tx.message)
  }

  /** An empty payload frame arrives, or the message whose turn it is is empty. */
  predicate EndsProgram(st: Station, input: Input)
  {
    st.alive &&
      ((input.Arrival? && input.received.kind == PAYLOAD && input.received.intact && input.received.content == [])
       || (TakesNext(st, input) && Queued(st, input)[0].text == []))
  }

  lemma NextFrameWhole(s: Sender)
    requires s.maxFrameSize > 0 && (DataLeft(s.message) ==> s.message.payload != [])
    requires s.message.numFrames - s.message.transceived == FrameCount(|s.message.payload|, s.maxFrameSize)
    ensures var s' := SendNextFrame(s).0;
            if s.message.payload == [] then s'.sentFrame.content == s.message.framePayload
            else Whole(s') && s'.sentFrame.content != []
  {
    if s.message.payload != [] {
      PopTakesFragment(s.message, s.maxFrameSize);
    }
  }

  /** What the sender writes is empty exactly if it takes an empty message. */
  lemma SenderLoopWhole(s: Sender, receivedMid: int)
    requires s.maxFrameSize > 0 && Whole(s.(state := if s.state == Idle then Idle else WaitForAck))
    ensures var s' := SenderLoop(s, receivedMid).0;
            var next := s.queue != [] && (s.state == Idle || (s.state == GotAck && receivedMid == s.needAckMid && !DataLeft(s.message)));
            (WroteEmpty(s, s') <==> next && s.queue[0].text == []) && (!WroteEmpty(s, s') ==> Whole(s'))
  {
    FrameCountStep(|s.message.payload|, s.maxFrameSize);
    if s.queue != [] {
      FrameCountStep(|s.queue[0].text|, s.maxFrameSize);
      NextFrameWhole(s.(message := ForSending(s.queue[0].text, s.maxFrameSize), tid := s.queue[0].tid,
                        queue := s.queue[1..], started := s.started + 1));
    }
    if s.state != Idle {
      NextFrameWhole(s);
    }
  }

  lemma StepEnds(st: Station, input: Input)
    requires Settled(st) && st.alive && Whole(st.tx)
    ensures !Act(st, input).0.alive <==> EndsProgram(st, input)
    ensures Act(st, input).0.alive ==> Whole(Act(st, input).0.tx)
  {
    hide SenderLoop, WroteEmpty;
    match input
    case Submit(message) => SenderLoopWhole(st.tx.(queue := st.tx.queue + [message]), st.rc.receivedMid);
    case Arrival(f) =>
      SenderLoopWhole(st.tx, f.mid);
      SenderLoopWhole(Confirmed(st.tx, f), f.mid);
    case _ =>
  }

  lemma DeadStays(st: Station, input: Input)
    requires Settled(st) && !st.alive
    ensures !Act(st, input).0.alive && !EndsProgram(st, input)
  {
  }

  /** Some event of the run ends the program. */
  ghost predicate Ended(st: Station, inputs: seq<Input>)
    requires Settled(st)
  {
    exists k | 0 <= k < |inputs| :: Settled(After(st, inputs[..k])) && EndsProgram(After(st, inputs[..k]), inputs[k])
  }

  lemma EndedMore(st: Station, inputs: seq<Input>)
    requires Settled(st) && inputs != []
    ensures var front, last := inputs[..|inputs| - 1], inputs[|inputs| - 1];
            Settled(After(st, front)) && (Ended(st, inputs) <==> EndsProgram(After(st, front), last) || Ended(st, front))
  {
    hide After, Settled, EndsProgram;
    AfterLast(st, inputs);
    var front, last := inputs[..|inputs| - 1], inputs[|inputs| - 1];
    assert forall k | 0 <= k < |front| :: front[..k] == inputs[..k] && front[k] == inputs[k];
    if Ended(st, front) {
      var k :| 0 <= k < |front| && Settled(After(st, front[..k])) && EndsProgram(After(st, front[..k]), front[k]);
      assert inputs[k] == front[k] && inputs[..k] == front[..k];
    }
    if EndsProgram(After(st, front), last) {
      assert inputs[..|front|] == front && inputs[|front|] == last;
    }
    if Ended(st, inputs) && !EndsProgram(After(st, front), last) {
      var k :| 0 <= k < |inputs| && Settled(After(st, inputs[..k])) && EndsProgram(After(st, inputs[..k]), inputs[k]);
      assert k < |front| && front[..k] == inputs[..k] && front[k] == inputs[k];
    }
  }

  lemma {:induction false} RunEnds(st: Station, inputs: seq<Input>)
    requires Settled(st) && st.alive && Whole(st.tx)
    ensures var st' := After(st, inputs);
            Settled(st') && (st'.alive <==> !Ended(st, inputs)) && (st'.alive ==> Whole(st'.tx))
  {
    hide After, Act, Settled, EndsProgram, Ended, Whole;
    if inputs == [] {
      AfterNothing(st);
      NeverEnded(st);
    } else {
      var front, last := inputs[..|inputs| - 1], inputs[|inputs| - 1];
      RunEnds(st, front);
      AfterLast(st, inputs);
      EndedMore(st, inputs);
      ActSettles(After(st, front), last);
      if After(st, front).alive {
        StepEnds(After(st, front), last);
      } else {
        DeadStays(After(st, front), last);
      }
    }
  }

  lemma NeverEnded(st: Station)
    requires Settled(st)
    ensures !Ended(st, [])
  {
  }

  /** Over any run: the program has ended exactly if an empty payload frame came in, or an empty message was the next to be
      sent, be it that it was given at rest or that it waited. */
  lemma EndsIff(maxFrameSize: nat, inputs: seq<Input>)
    requires maxFrameSize > 0
    ensures Settled(Initial(maxFrameSize))
    ensures After(Initial(maxFrameSize), inputs).alive <==> !Ended(Initial(maxFrameSize), inputs)
  {
    RunEnds(Initial(maxFrameSize), inputs);
  }
}

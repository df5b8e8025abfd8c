/** What is left of the repetitions, and what the station writes on every event, read off the events. */
module SerialCounters {
  import opened Bytes
  import opened SerialRx
  import opened SerialFrames
  import opened SerialMessages
  import opened SerialStation
  import opened SerialRetransmission
  import opened SerialStall

  // ---------------------------------------------------------------- the two counters

  /** The sender waits, and its program runs. */
  predicate IsWaiting(st: Station)
  {
    st.alive && st.tx.state == WaitForAck
  }

  /** Bad confirmations since the last acknowledgement; the fourth gives the message up and starts over. */
  function ErrorsAfter(errors: int, st: Station, input: Input): int
  {
    if !IsWaiting(st) || !IntactConfirmation(input) then errors
    else if Acknowledges(st.tx, input) || errors == 3 then 0
    else errors + 1
  }

  /** Timeouts since the last acknowledgement; the fifth gives the message up and starts over. */
  function TimeoutsAfter(timeouts: int, st: Station, input: Input): int
  {
    if !IsWaiting(st) then timeouts
    else if Acknowledges(st.tx, input) then 0
    else if !input.ConfirmationTimeout? then timeouts
    else if timeouts == 4 then 0
    else timeouts + 1
  }

  lemma StepCounters(st: Station, input: Input)
    requires Settled(st)
    ensures Act(st, input).0.tx.errors == ErrorsAfter(st.tx.errors, st, input)
    ensures Act(st, input).0.tx.timeouts == TimeoutsAfter(st.tx.timeouts, st, input)
  {
  }

  function ErrorsIn(maxFrameSize: nat, inputs: seq<Input>): int
    requires maxFrameSize > 0
  {
    if inputs == [] then 0
    else
      var front, last := inputs[..|inputs| - 1], inputs[|inputs| - 1];
      ErrorsAfter(ErrorsIn(maxFrameSize, front), After(Initial(maxFrameSize), front), last)
  }

  function TimeoutsIn(maxFrameSize: nat, inputs: seq<Input>): int
    requires maxFrameSize > 0
  {
    if inputs == [] then 0
    else
      var front, last := inputs[..|inputs| - 1], inputs[|inputs| - 1];
      TimeoutsAfter(TimeoutsIn(maxFrameSize, front), After(Initial(maxFrameSize), front), last)
  }

  /** Over any run the counters are the bad confirmations and the timeouts since the last acknowledgement. Giving up for one
      reason does not give back what the other has used up. */
  lemma {:induction false} CountersAre(maxFrameSize: nat, inputs: seq<Input>)
    requires maxFrameSize > 0
    ensures var s := After(Initial(maxFrameSize), inputs).tx;
            s.errors == ErrorsIn(maxFrameSize, inputs) && s.timeouts == TimeoutsIn(maxFrameSize, inputs)
  {
    hide After, Act, ErrorsAfter, TimeoutsAfter;
    if inputs == [] {
      AfterNothing(Initial(maxFrameSize));
    } else {
      var front := inputs[..|inputs| - 1];
      CountersAre(maxFrameSize, front);
      AfterLast(Initial(maxFrameSize), inputs);
      StepCounters(After(Initial(maxFrameSize), front), inputs[|inputs| - 1]);
    }
  }

  // ---------------------------------------------------------------- an acknowledgement gives the repetitions back

  /** The acknowledgement awaited: if a frame is under way afterwards it is a new one, with all seven repetitions left. */
  lemma AckRestores(st: Station, input: Input)
    requires Settled(st) && IsWaiting(st) && Acknowledges(st.tx, input)
    ensures var st' := Act(st, input).0;
            IsWaiting(st') ==> Budget(st'.tx) == 7 && st'.tx.serial == st.tx.serial + 1
  {
    ActEffect(st, input);
  }

  lemma {:induction false} RunConcat(st: Station, a: seq<Input>, b: seq<Input>)
    requires Settled(st)
    ensures Settled(After(st, a)) && After(st, a + b) == After(After(st, a), b)
    ensures Run(st, a + b).1 == Run(st, a).1 + Run(After(st, a), b).1
    decreases |a|
  {
    hide Act, Settled, PayloadFrames;
    if a == [] {
      assert a + b == b;
      assert [] + Run(st, b).1 == Run(st, b).1;
    } else {
      assert (a + b)[1..] == a[1..] + b;
      ActSettles(st, a[0]);
      var (st1, out) := Act(st, a[0]);
      RunConcat(st1, a[1..], b);
      var now := seq(PayloadFrames(out), _ => st1.tx.serial);
      AppendTwo(now, Run(st1, a[1..]).1, Run(After(st1, a[1..]), b).1);
    }
  }

  lemma {:induction false} CountConcat(a: seq<nat>, b: seq<nat>, serial: nat)
    ensures Count(a + b, serial) == Count(a, serial) + Count(b, serial)
  {
    if a == [] {
      assert a + b == b;
    } else {
      assert (a + b)[1..] == a[1..] + b;
      CountConcat(a[1..], b, serial);
    }
  }

  /** No frame is written before its turn. */
  lemma {:induction false} NotWrittenYet(st: Station, inputs: seq<Input>, serial: nat)
    requires Settled(st) && serial > After(st, inputs).tx.serial
    ensures Count(Run(st, inputs).1, serial) == 0 && serial > st.tx.serial
    decreases |inputs|
  {
    hide Act, Settled;
    if inputs != [] {
      ActSettles(st, inputs[0]);
      ActEffect(st, inputs[0]);
      var (st1, out) := Act(st, inputs[0]);
      NotWrittenYet(st1, inputs[1..], serial);
      var now := seq(PayloadFrames(out), _ => st1.tx.serial);
      NoneOfThese(now, serial);
      CountConcat(now, Run(st1, inputs[1..]).1, serial);
    }
  }

  lemma {:induction false} NoneOfThese(written: seq<nat>, serial: nat)
    requires forall x | x in written :: x != serial
    ensures Count(written, serial) == 0
  {
    if written != [] {
      assert written[0] in written && forall x | x in written[1..] :: x in written;
      NoneOfThese(written[1..], serial);
    }
  }

  lemma CountOne(serial: nat, n: nat)
    requires n <= 1
    ensures Count(seq(n, _ => serial), serial) == n
  {
    if n == 1 {
      assert seq(n, _ => serial) == [serial];
    }
  }

  lemma OneStep(st: Station, input: Input)
    requires Settled(st)
    ensures Run(st, [input]) == (Act(st, input).0, seq(PayloadFrames(Act(st, input).1), _ => Act(st, input).0.tx.serial))
  {
    hide Act;
    ActSettles(st, input);
    assert [input][1..] == [];
    var now := seq(PayloadFrames(Act(st, input).1), _ => Act(st, input).0.tx.serial);
    assert now + [] == now;
  }

  /** After any run: an acknowledgement that starts a frame starts one that some continuation writes exactly eight times,
      whatever was used up before. */
  lemma AckedFrameEightTimes(maxFrameSize: nat, inputs: seq<Input>, ack: Input) returns (more: seq<Input>)
    requires maxFrameSize > 0
    requires Settled(After(Initial(maxFrameSize), inputs)) && IsWaiting(After(Initial(maxFrameSize), inputs))
    requires Acknowledges(After(Initial(maxFrameSize), inputs).tx, ack)
    requires IsWaiting(Act(After(Initial(maxFrameSize), inputs), ack).0)
    ensures var serial := Act(After(Initial(maxFrameSize), inputs), ack).0.tx.serial;
            Count(Run(Initial(maxFrameSize), inputs + ([ack] + more)).1, serial) == 8
  {
    hide After, Act, Run, Acknowledges, IsWaiting, Budget;
    var st0 := Initial(maxFrameSize);
    var st := After(st0, inputs);
    var st1 := Act(st, ack).0;
    ActSettles(st, ack);
    AckRestores(st, ack);
    AckWrites(st, ack);
    more := BudgetCanBeUsed(st1) by { WaitingIs(st1); }
    OneStep(st, ack);
    assert After(st, [ack]) == st1 by { AfterIs(st, [ack]); }
    RunConcat(st0, inputs, [ack] + more);
    RunConcat(st, [ack], more);
    CountConcat(Run(st0, inputs).1, Run(st, [ack] + more).1, st1.tx.serial);
    CountConcat(Run(st, [ack]).1, Run(st1, more).1, st1.tx.serial);
    NotWrittenYet(st0, inputs, st1.tx.serial);
    CountOne(st1.tx.serial, 1);
  }

  lemma AfterIs(st: Station, inputs: seq<Input>)
    requires Settled(st)
    ensures After(st, inputs) == Run(st, inputs).0
  {
  }

  lemma WaitingIs(st: Station)
    requires IsWaiting(st)
    ensures st.alive && st.tx.state == WaitForAck
  {
  }

  lemma AckWrites(st: Station, input: Input)
    requires Settled(st) && IsWaiting(st) && Acknowledges(st.tx, input) && IsWaiting(Act(st, input).0)
    ensures PayloadFrames(Act(st, input).1) == 1
  {
    ActEffect(st, input);
    AckRestores(st, input);
  }

  // ---------------------------------------------------------------- silence and refusals apart

  lemma TimeoutStep(st: Station)
    requires Settled(st) && IsWaiting(st)
    ensures var (st', out) := Act(st, ConfirmationTimeout);
            && Settled(st') && st'.tx.serial == st.tx.serial
            && (if st.tx.timeouts < 4 then IsWaiting(st') && st'.tx.timeouts == st.tx.timeouts + 1 && PayloadFrames(out) == 1
                else !IsWaiting(st') && PayloadFrames(out) == 0)
  {
    ActSettles(st, ConfirmationTimeout);
    ActEffect(st, ConfirmationTimeout);
  }

  /** What was given up is not written again, whatever happens. */
  lemma GivenUpIsOver(st: Station, inputs: seq<Input>)
    requires Settled(st) && !IsWaiting(st)
    ensures Count(Run(st, inputs).1, st.tx.serial) == 0
  {
    hide Run;
    RunWrites(st, inputs, st.tx.serial);
  }

  /** Under silence alone the frame is repeated as long as timeouts are left, at most four times. */
  lemma {:induction false} SilenceRepeats(st: Station, n: nat)
    requires Settled(st) && IsWaiting(st)
    ensures Count(Run(st, Timeouts(n)).1, st.tx.serial) == if n < 4 - st.tx.timeouts then n else 4 - st.tx.timeouts
    decreases n
  {
    hide Act, Settled, IsWaiting;
    if n > 0 {
      TimeoutStep(st);
      assert Timeouts(n)[1..] == Timeouts(n - 1);
      var (st1, out) := Act(st, ConfirmationTimeout);
      var now := seq(PayloadFrames(out), _ => st1.tx.serial);
      CountOne(st1.tx.serial, PayloadFrames(out));
      CountConcat(now, Run(st1, Timeouts(n - 1)).1, st.tx.serial);
      SettledBounds(st);
      if st.tx.timeouts < 4 {
        SilenceRepeats(st1, n - 1);
      } else {
        GivenUpIsOver(st1, Timeouts(n - 1));
      }
    } else {
      SettledBounds(st);
    }
  }

  lemma SettledBounds(st: Station)
    requires Settled(st) && IsWaiting(st)
    ensures 0 <= st.tx.errors <= 3 && 0 <= st.tx.timeouts <= 4 && Run(st, []).1 == []
  {
  }

  /** The refusals of the other side, each under the mid of the frame. */
  function Refusals(mid: int, n: nat): seq<Input>
  {
    if n == 0 then [] else [Arrival(Received(CONFIRMATION, mid, 1, 1, true, [NAK]))] + Refusals(mid, n - 1)
  }

  lemma RefusalStep(st: Station)
    requires Settled(st) && IsWaiting(st)
    ensures var (st', out) := Act(st, Arrival(Received(CONFIRMATION, st.tx.needAckMid, 1, 1, true, [NAK])));
            && Settled(st') && st'.tx.serial == st.tx.serial
            && (if st.tx.errors < 3
                then IsWaiting(st') && st'.tx.errors == st.tx.errors + 1 && st'.tx.needAckMid == st.tx.needAckMid && PayloadFrames(out) == 1
                else !IsWaiting(st') && PayloadFrames(out) == 0)
  {
    ActSettles(st, Arrival(Received(CONFIRMATION, st.tx.needAckMid, 1, 1, true, [NAK])));
    ActEffect(st, Arrival(Received(CONFIRMATION, st.tx.needAckMid, 1, 1, true, [NAK])));
  }

  /** Under refusals alone the frame is repeated as long as errors are left, at most three times. */
  lemma {:induction false} RefusalsRepeat(st: Station, n: nat)
    requires Settled(st) && IsWaiting(st)
    ensures Count(Run(st, Refusals(st.tx.needAckMid, n)).1, st.tx.serial) == if n < 3 - st.tx.errors then n else 3 - st.tx.errors
    decreases n
  {
    hide Act, Settled, IsWaiting;
    SettledBounds(st);
    if n > 0 {
      RefusalStep(st);
      var mid := st.tx.needAckMid;
      assert Refusals(mid, n)[1..] == Refusals(mid, n - 1);
      var (st1, out) := Act(st, Arrival(Received(CONFIRMATION, mid, 1, 1, true, [NAK])));
      var now := seq(PayloadFrames(out), _ => st1.tx.serial);
      CountOne(st1.tx.serial, PayloadFrames(out));
      CountConcat(now, Run(st1, Refusals(mid, n - 1)).1, st.tx.serial);
      if st.tx.errors < 3 {
        RefusalsRepeat(st1, n - 1);
      } else {
        GivenUpIsOver(st1, Refusals(mid, n - 1));
      }
    }
  }

  /** The first frame of a message given to a fresh station: under silence alone it is written five times, under refusals alone
      four times, however long they last. */
  lemma WritesApart(maxFrameSize: nat, m: Outgoing, n: nat)
    requires maxFrameSize > 0 && m.text != [] && n >= 4
    ensures Count(Run(Initial(maxFrameSize), [Submit(m)] + Timeouts(n)).1, 1) == 5
    ensures Count(Run(Initial(maxFrameSize), [Submit(m)] + Refusals(1, n)).1, 1) == 4
  {
    var st := Initial(maxFrameSize);
    var st1 := Act(st, Submit(m)).0;
    ActSettles(st, Submit(m));
    FirstWritten(maxFrameSize, m);
    hide Act, Settled, IsWaiting, Run;
    OneStep(st, Submit(m));
    AfterIs(st, [Submit(m)]);
    RunConcat(st, [Submit(m)], Timeouts(n));
    RunConcat(st, [Submit(m)], Refusals(1, n));
    CountConcat(Run(st, [Submit(m)]).1, Run(st1, Timeouts(n)).1, 1);
    CountConcat(Run(st, [Submit(m)]).1, Run(st1, Refusals(1, n)).1, 1);
    CountOne(1, 1);
    SilenceRepeats(st1, n);
    RefusalsRepeat(st1, n);
  }

  lemma FirstWritten(maxFrameSize: nat, m: Outgoing)
    requires maxFrameSize > 0 && m.text != []
    ensures var (st1, out) := Act(Initial(maxFrameSize), Submit(m));
            && IsWaiting(st1) && st1.tx.serial == 1 && st1.tx.needAckMid == 1
            && st1.tx.errors == st1.tx.timeouts == 0 && PayloadFrames(out) == 1
  {
    SubmitConcernsSender(Initial(maxFrameSize), m);
    var (st1, out) := Act(Initial(maxFrameSize), Submit(m));
    OneFrame(out[0]);
  }
}

/** Two stations over lines that lose and damage frames, for messages that fit in one frame. */
module SerialLossy {
  import opened Bytes
  import opened SerialRx
  import opened SerialFrames
  import opened SerialMessages
  import opened SerialStation

  /** A frame under way. The tag is for reasoning only: the number of the message a payload frame carries or a
      confirmation answers, counted from 1. */
  datatype Tagged = Tagged(frame: Frame, tag: nat)

  /** `gotA` and `gotB` number the messages A and B have delivered, in the order of delivery. */
  datatype Link = Link(a: Station, b: Station, ab: seq<Tagged>, ba: seq<Tagged>,
                       sentA: seq<Outgoing>, sentB: seq<Outgoing>, gotA: seq<nat>, gotB: seq<nat>)

  /** What can happen at one end. The line may hand over its first frame, lose it, or damage it; damage and noise show
      in the checksum but may otherwise look like anything. */
  datatype Happening =
    | Give(message: Outgoing)
    | Intact
    | Lost
    | Damaged(as_: Received)
    | Noise(as_: Received)
    | Timeout
    | Stray
    | HalfFrame

  datatype Event = AtA(what: Happening) | AtB(what: Happening)

  function Mirror(l: Link): Link
  {
    Link(l.b, l.a, l.ba, l.ab, l.sentB, l.sentA, l.gotB, l.gotA)
  }

  predicate SameSizes(l: Link, l': Link)
  {
    l.a.tx.maxFrameSize == l'.a.tx.maxFrameSize && l.b.tx.maxFrameSize == l'.b.tx.maxFrameSize
  }

  predicate Usable(l: Link)
  {
    l.a.tx.maxFrameSize > 0 && l.b.tx.maxFrameSize > 0
  }

  function Tags(out: seq<Frame>, message: nat, answered: nat): seq<Tagged>
  {
    Each((f: Frame) => Tagged(f, if f.kind == PAYLOAD then message else answered), out)
  }

  /** Station B acts on `input`, in answer to message `answered`; `rest` is what the line to B still holds. */
  function ActsAtB(l: Link, input: Input, rest: seq<Tagged>, answered: nat): (l': Link)
    requires Usable(l)
    ensures Usable(l') && SameSizes(l, l')
  {
    var (b, out) := Act(l.b, input);
    l.(b := b, ab := rest, ba := l.ba + Tags(out, b.tx.started, answered),
       sentB := l.sentB + (if input.Submit? then [input.message] else []),
       gotB := l.gotB + if |b.rc.delivered| > |l.b.rc.delivered| then [answered] else [])
  }

  function HappensAtB(l: Link, what: Happening): (l': Link)
    requires Usable(l)
    ensures Usable(l') && SameSizes(l, l')
  {
    match what
    case Give(m) => ActsAtB(l, Submit(m), l.ab, 0)
    case Intact => if l.ab == [] then l else ActsAtB(l, Arrival(Arrived(l.ab[0].frame)), l.ab[1..], l.ab[0].tag)
    case Lost => if l.ab == [] then l else l.(ab := l.ab[1..])
    case Damaged(f) => if l.ab == [] then l else ActsAtB(l, Arrival(f), l.ab[1..], 0)
    case Noise(f) => ActsAtB(l, Arrival(f), l.ab, 0)
    case Timeout => ActsAtB(l, ConfirmationTimeout, l.ab, 0)
    case Stray => ActsAtB(l, StrayByte, l.ab, 0)
    case HalfFrame => ActsAtB(l, FrameTimeout, l.ab, 0)
  }

  function Step(l: Link, e: Event): (l': Link)
    requires Usable(l)
    ensures Usable(l') && SameSizes(l, l')
  {
    match e
    case AtB(what) => HappensAtB(l, what)
    case AtA(what) => Mirror(HappensAtB(Mirror(l), what))
  }

  function Run(l: Link, events: seq<Event>): (l': Link)
    requires Usable(l)
    ensures Usable(l') && SameSizes(l, l')
    decreases |events|
  {
    if events == [] then l else Run(Step(l, events[0]), events[1..])
  }

  function Connected(maxFrameSizeA: nat, maxFrameSizeB: nat): Link
  {
    Link(Initial(maxFrameSizeA), Initial(maxFrameSizeB), [], [], [], [], [], [])
  }

  /** The checksum gives damage and noise away. */
  predicate Detected(what: Happening)
  {
    match what
    case Damaged(f) => !f.intact
    case Noise(f) => !f.intact
    case _ => true
  }

  predicate SingleFrame(m: Outgoing, maxFrameSize: nat)
  {
    0 < |m.text| <= maxFrameSize
  }

  // ---------------------------------------------------------------- one direction

  /** The payload frame of message `n` of `sent`. */
  function FrameOf(sent: seq<Outgoing>, n: nat): Frame
    requires 0 < n <= |sent|
  {
    Frame(PAYLOAD, n % MID_LIMIT, 1, 1, sent[n - 1].text)
  }

  predicate SenderInv(s: Sender, sent: seq<Outgoing>)
  {
    && SenderSettled(s)
    && (forall m | m in sent :: SingleFrame(m, s.maxFrameSize))
    && s.started <= |sent| && s.queue == sent[s.started..] && s.serial == s.started
    && (s.state == WaitForAck ==>
          0 < s.started && s.sentFrame == FrameOf(sent, s.started) && !DataLeft(s.message) && s.tid == sent[s.started - 1].tid)
  }

  /** At most one frame is written, and it is the one of the current message. */
  predicate Writes(out: seq<Frame>, sent: seq<Outgoing>, started: nat)
  {
    out != [] ==> 0 < started <= |sent| && out == [FrameOf(sent, started)]
  }

  lemma SingleFrameWritten(s: Sender, sent: seq<Outgoing>)
    requires SenderInv(s.(timerArmed := false), sent) && s.state == Idle
    ensures var (s', out) := SendFromQueue(s);
            (s.queue != [] || !s.timerArmed ==> SenderInv(s', sent)) && Writes(out, sent, s'.started)
            && s'.completed == s.completed && s'.announced == s.announced && s'.started >= s.started
            && (s'.state == WaitForAck ==> s'.started > s.started)
  {
    if s.queue != [] {
      var m := s.queue[0];
      assert m == sent[s.started] && m in sent;
      FrameCountStep(|m.text|, s.maxFrameSize);
      NextMidIsModulo(s.serial);
      assert m.text[..|m.text|] == m.text;
      assert sent[s.started..][1..] == sent[s.started + 1..];
    }
  }

  /** What the completion of the current message reports. */
  function Report(s: Sender): seq<int>
  {
    if IsOwnRequest(s.tid) then [s.tid] else []
  }

  lemma SenderLoopKeeps(s: Sender, receivedMid: int, sent: seq<Outgoing>)
    requires SenderInv(s.(state := if s.state == Idle then Idle else WaitForAck), sent)
    ensures var (s', out) := SenderLoop(s, receivedMid);
            SenderInv(s', sent) && Writes(out, sent, s'.started) && s'.started >= s.started
            && s'.completed == s.completed + (if s.state == GotAck && receivedMid == s.needAckMid then [s.started] else [])
            && s'.announced == s.announced + (if s.state == GotAck && receivedMid == s.needAckMid then Report(s) else [])
            && (s'.state == WaitForAck && s'.started == s.started ==>
                  s.state != Idle && !(s.state == GotAck && receivedMid == s.needAckMid))
  {
    if s.state == Idle {
      SingleFrameWritten(s, sent);
    } else if s.state == GotAck && receivedMid == s.needAckMid {
      SingleFrameWritten(Complete(s.(timerArmed := false, errors := 0, timeouts := 0, state := Idle)), sent);
    }
  }

  lemma InvNothingEmpty(s: Sender, sent: seq<Outgoing>)
    requires SenderInv(s.(state := if s.state == Idle then Idle else WaitForAck), sent)
    ensures NothingEmpty(s)
  {
    assert forall m | m in s.queue :: m in sent;
  }

  // ---------------------------------------------------------------- what a station does on an event

  /** An intact payload frame. */
  predicate Brings(input: Input)
  {
    input.Arrival? && input.received.intact && input.received.kind == PAYLOAD
  }

  predicate IsAckFor(answers: seq<Frame>, mid: int)
  {
    && |answers| == 1 && answers[0].kind == CONFIRMATION && answers[0].mid == mid && answers[0].content == [ACK]
  }

  predicate NoAcks(answers: seq<Frame>)
  {
    forall c | c in answers :: c.kind == CONFIRMATION && c.content != [] && c.content[0] != ACK
  }

  /** An acknowledgement under the mid the sender waits for. */
  predicate Confirms(s: Sender, input: Input)
  {
    && input.Arrival? && input.received.intact && input.received.kind != PAYLOAD
    && s.state == WaitForAck && input.received.content != [] && input.received.content[0] == 0x06
    && input.received.mid == s.needAckMid
  }

  /** Messages in one frame go in, and intact frames have content. */
  predicate InputFits(st: Station, input: Input)
  {
    match input
    case Submit(m) => SingleFrame(m, st.tx.maxFrameSize)
    case Arrival(f) => f.intact ==> f.content != [] && (f.kind == PAYLOAD ==> f.index == f.number == 1)
    case _ => true
  }

  function Sent(sent: seq<Outgoing>, input: Input): seq<Outgoing>
  {
    sent + if input.Submit? then [input.message] else []
  }

  /** The sender sends what is current; the receiver delivers and acknowledges exactly the intact payload frames. */
  ghost predicate Does(st: Station, input: Input, sent: seq<Outgoing>, sends: seq<Frame>, answers: seq<Frame>)
    requires st.tx.maxFrameSize > 0
  {
    var (st', out) := Act(st, input);
    && out == sends + answers && st'.alive
    && SenderInv(st'.tx, Sent(sent, input)) && Writes(sends, Sent(sent, input), st'.tx.started)
    && st'.tx.started >= st.tx.started
    && st'.tx.completed == st.tx.completed + (if Confirms(st.tx, input) then [st.tx.started] else [])
    && st'.tx.announced == st.tx.announced + (if Confirms(st.tx, input) then Report(st.tx) else [])
    && (st'.tx.state == WaitForAck && st'.tx.started == st.tx.started ==> st.tx.state == WaitForAck && !Confirms(st.tx, input))
    && (if Brings(input)
        then st'.rc.delivered == st.rc.delivered + [input.received.content] && IsAckFor(answers, input.received.mid)
        else st'.rc.delivered == st.rc.delivered && NoAcks(answers))
  }

  lemma SenderInvGrows(s: Sender, sent: seq<Outgoing>, m: Outgoing)
    requires SenderInv(s, sent) && SingleFrame(m, s.maxFrameSize)
    ensures SenderInv(s.(queue := s.queue + [m]), sent + [m])
  {
    var all := sent + [m];
    assert all[s.started..] == sent[s.started..] + [m];
    assert forall x | x in all :: x in sent || x == m;
  }

  lemma SubmitDoes(st: Station, m: Outgoing, sent: seq<Outgoing>) returns (sends: seq<Frame>)
    requires Settled(st) && st.alive && SenderInv(st.tx, sent) && SingleFrame(m, st.tx.maxFrameSize)
    ensures Does(st, Submit(m), sent, sends, [])
  {
    var s := st.tx.(queue := st.tx.queue + [m]);
    SenderInvGrows(st.tx, sent, m);
    SenderLoopKeeps(s, st.rc.receivedMid, sent + [m]);
    InvNothingEmpty(s, sent + [m]);
    SubmitConcernsSender(st, m);
    sends := SenderLoop(s, st.rc.receivedMid).1;
    assert sends + [] == sends;
    assert st.tx.completed + [] == st.tx.completed && st.tx.announced + [] == st.tx.announced;
  }

  lemma PayloadDoes(st: Station, f: Received, sent: seq<Outgoing>) returns (sends: seq<Frame>, answers: seq<Frame>)
    requires Settled(st) && st.alive && SenderInv(st.tx, sent) && InputFits(st, Arrival(f)) && f.kind == PAYLOAD
    ensures Does(st, Arrival(f), sent, sends, answers)
  {
    SenderLoopKeeps(st.tx, f.mid, sent);
    InvNothingEmpty(st.tx, sent);
    WritesNoEmpty(st.tx, f.mid);
    assert sent + [] == sent;
    assert st.tx.completed + [] == st.tx.completed && st.tx.announced + [] == st.tx.announced;
    var r := if f.intact then TakePayload(st.rc, f) else Refuse(st.rc, f);
    assert [] + f.content == f.content;
    return SenderLoop(st.tx, f.mid).1, ReceiverLoop(r).1;
  }

  lemma ConfirmationDoes(st: Station, f: Received, sent: seq<Outgoing>) returns (sends: seq<Frame>)
    requires Settled(st) && st.alive && SenderInv(st.tx, sent) && f.kind != PAYLOAD
    ensures Does(st, Arrival(f), sent, sends, [])
  {
    assert sent + [] == sent;
    if !f.intact {
      sends := [];
      assert sends + [] == sends;
      assert st.tx.completed + [] == st.tx.completed && st.tx.announced + [] == st.tx.announced;
    } else {
      var s := Confirmed(st.tx, f);
      SenderLoopKeeps(s, f.mid, sent);
      InvNothingEmpty(s, sent);
      ConfirmationConcernsSender(st, f);
      sends := SenderLoop(s, f.mid).1;
      assert sends + [] == sends;
    }
  }

  lemma OnTimeoutKeeps(s: Sender, sent: seq<Outgoing>)
    requires SenderInv(s, sent)
    ensures Writes([], sent, s.started)
    ensures s.timerArmed ==> var (s', out) := OnTimeout(s);
              && SenderInv(s', sent) && Writes(out, sent, s'.started)
              && s'.started == s.started && s'.completed == s.completed && s'.announced == s.announced
              && (s'.state == WaitForAck ==> s.state == WaitForAck)
  {
  }

  lemma TimeoutDoes(st: Station, sent: seq<Outgoing>) returns (sends: seq<Frame>)
    requires Settled(st) && st.alive && SenderInv(st.tx, sent)
    ensures Does(st, ConfirmationTimeout, sent, sends, [])
  {
    hide OnTimeout, SenderInv, Writes, SenderSettled;
    OnTimeoutKeeps(st.tx, sent);
    sends := if st.tx.timerArmed then OnTimeout(st.tx).1 else [];
    assert sent + [] == sent && sends + [] == sends;
    assert st.tx.completed + [] == st.tx.completed && st.tx.announced + [] == st.tx.announced;
  }

  lemma ActDoes(st: Station, input: Input, sent: seq<Outgoing>) returns (sends: seq<Frame>, answers: seq<Frame>)
    requires Settled(st) && st.alive && SenderInv(st.tx, sent) && InputFits(st, input)
    ensures Does(st, input, sent, sends, answers)
  {
    answers := [];
    match input
    case Submit(m) => sends := SubmitDoes(st, m, sent);
    case Arrival(f) =>
      if f.kind == PAYLOAD {
        sends, answers := PayloadDoes(st, f, sent);
      } else {
        sends := ConfirmationDoes(st, f, sent);
      }
    case ConfirmationTimeout => sends := TimeoutDoes(st, sent);
    case _ =>
      sends, answers := [], Act(st, input).1;
      assert sent + [] == sent && [] + answers == answers;
      assert st.tx.completed + [] == st.tx.completed && st.tx.announced + [] == st.tx.announced;
  }

  // ---------------------------------------------------------------- frames under way

  predicate IsPayload(t: Tagged)
  {
    t.frame.kind == PAYLOAD
  }

  /** Payload frames on a line are those of their messages, in the order of the messages. */
  predicate PayloadsInOrder(line: seq<Tagged>, sent: seq<Outgoing>, started: nat)
    requires started <= |sent|
  {
    && (forall t | t in line && IsPayload(t) :: 0 < t.tag <= started && t.frame == FrameOf(sent, t.tag))
    && (forall i, j | 0 <= i < j < |line| && IsPayload(line[i]) && IsPayload(line[j]) :: line[i].tag <= line[j].tag)
  }

  predicate NonDecreasing(got: seq<nat>)
  {
    forall i, j | 0 <= i < j < |got| :: got[i] <= got[j]
  }

  /** What was delivered comes before what is under way. */
  predicate DeliveredBefore(got: seq<nat>, line: seq<Tagged>)
  {
    forall g, t | g in got && t in line && IsPayload(t) :: g <= t.tag
  }

  /** `delivered` are the messages numbered `got`. */
  predicate Numbered(delivered: seq<seq<byte>>, got: seq<nat>, sent: seq<Outgoing>, started: nat)
    requires started <= |sent|
  {
    && |delivered| == |got|
    && forall i | 0 <= i < |got| :: 0 < got[i] <= started && delivered[i] == sent[got[i] - 1].text
  }

  /** An acknowledgement under way answers a message that was delivered. */
  predicate AcksHonest(line: seq<Tagged>, got: seq<nat>)
  {
    forall t | t in line && !IsPayload(t) ::
      t.frame.content != [] && (t.frame.content[0] == ACK ==> t.tag in got && t.frame.mid == t.tag % MID_LIMIT)
  }

  /** One direction: messages `sent` go out on `there` and are acknowledged on `back`. */
  predicate Direction(there: seq<Tagged>, back: seq<Tagged>, sent: seq<Outgoing>, started: nat,
                      delivered: seq<seq<byte>>, got: seq<nat>)
  {
    && started <= |sent| && PayloadsInOrder(there, sent, started)
    && NonDecreasing(got) && DeliveredBefore(got, there) && Numbered(delivered, got, sent, started)
    && AcksHonest(back, got)
  }

  lemma LineShrinks(there: seq<Tagged>, back: seq<Tagged>, sent: seq<Outgoing>, started: nat,
                    delivered: seq<seq<byte>>, got: seq<nat>, there': seq<Tagged>, back': seq<Tagged>)
    requires Direction(there, back, sent, started, delivered, got)
    requires there' == there || (there != [] && there' == there[1..])
    requires back' == back || (back != [] && back' == back[1..])
    ensures Direction(there', back', sent, started, delivered, got)
  {
    assert forall t | t in there' :: t in there;
    assert forall t | t in back' :: t in back;
  }

  /** The sender starts or repeats the current message, or writes nothing. */
  lemma SenderWrites(there: seq<Tagged>, back: seq<Tagged>, sent: seq<Outgoing>, started: nat,
                     delivered: seq<seq<byte>>, got: seq<nat>,
                     more: seq<Tagged>, sent': seq<Outgoing>, started': nat)
    requires Direction(there, back, sent, started, delivered, got)
    requires sent <= sent' && started <= started' <= |sent'|
    requires forall t | t in more && IsPayload(t) :: t.tag == started' && 0 < started' && t.frame == FrameOf(sent', started')
    ensures Direction(there + more, back, sent', started', delivered, got)
  {
    var line := there + more;
    assert PayloadsInOrder(line, sent', started') by {
      forall i, j | 0 <= i < j < |line| && IsPayload(line[i]) && IsPayload(line[j])
        ensures line[i].tag <= line[j].tag
      {
        assert line[i] in there || line[i] in more;
        assert line[j] in there || line[j] in more;
      }
    }
    assert DeliveredBefore(got, line) by {
      forall g, t | g in got && t in line && IsPayload(t)
        ensures g <= t.tag
      {
        assert t in there || t in more;
      }
    }
  }

  /** The receiver answers without delivering. */
  lemma ReceiverAnswers(there: seq<Tagged>, back: seq<Tagged>, sent: seq<Outgoing>, started: nat,
                        delivered: seq<seq<byte>>, got: seq<nat>, more: seq<Tagged>)
    requires Direction(there, back, sent, started, delivered, got)
    requires AcksHonest(more, got)
    ensures Direction(there, back + more, sent, started, delivered, got)
  {
  }

  /** The receiver takes in the first frame of the line. */
  lemma ReceiverDelivers(there: seq<Tagged>, back: seq<Tagged>, sent: seq<Outgoing>, started: nat,
                         delivered: seq<seq<byte>>, got: seq<nat>)
    requires Direction(there, back, sent, started, delivered, got)
    requires there != [] && IsPayload(there[0])
    ensures Direction(there[1..], back, sent, started, delivered + [there[0].frame.content], got + [there[0].tag])
  {
    var t0 := there[0];
    assert t0 in there;
    LineShrinks(there, back, sent, started, delivered, got, there[1..], back);
    var got' := got + [t0.tag];
    assert NonDecreasing(got') by {
      forall i, j | 0 <= i < j < |got'|
        ensures got'[i] <= got'[j]
      {
        if j == |got| {
          assert got[i] in got;
        }
      }
    }
    assert DeliveredBefore(got', there[1..]) by {
      forall g, t | g in got' && t in there[1..] && IsPayload(t)
        ensures g <= t.tag
      {
        if g !in got {
          var j :| 1 <= j < |there| && there[j] == t;
        }
      }
    }
    assert forall g | g in got :: g in got';
  }

  // ---------------------------------------------------------------- the whole link

  predicate StationInv(st: Station, sent: seq<Outgoing>)
  {
    Settled(st) && st.alive && SenderInv(st.tx, sent)
  }

  predicate LinkInv(l: Link)
  {
    && StationInv(l.a, l.sentA) && StationInv(l.b, l.sentB)
    && Direction(l.ab, l.ba, l.sentA, l.a.tx.started, l.b.rc.delivered, l.gotB)
    && Direction(l.ba, l.ab, l.sentB, l.b.tx.started, l.a.rc.delivered, l.gotA)
  }

  /** What `Tags` puts on the line, frame by frame. */
  lemma {:induction false} TagsPayload(out: seq<Frame>, message: nat, answered: nat, sent: seq<Outgoing>)
    requires forall f | f in out && f.kind == PAYLOAD :: 0 < message <= |sent| && f == FrameOf(sent, message)
    ensures forall t | t in Tags(out, message, answered) && IsPayload(t) ::
              t.tag == message && 0 < message <= |sent| && t.frame == FrameOf(sent, message)
  {
    if out != [] {
      assert out[0] in out;
      TagsPayload(out[1..], message, answered, sent);
    }
  }

  lemma {:induction false} TagsAnswers(out: seq<Frame>, message: nat, answered: nat, got: seq<nat>)
    requires forall f | f in out && f.kind != PAYLOAD ::
               f.content != [] && (f.content[0] == ACK ==> answered in got && f.mid == answered % MID_LIMIT)
    ensures AcksHonest(Tags(out, message, answered), got)
  {
    if out != [] {
      assert out[0] in out;
      TagsAnswers(out[1..], message, answered, got);
    }
  }

  /** What the event may take from the line to B: nothing, or the first frame; a payload frame it brings is that one. */
  predicate Takes(l: Link, input: Input, rest: seq<Tagged>, answered: nat)
  {
    && (rest == l.ab || (l.ab != [] && rest == l.ab[1..]))
    && (Brings(input) ==> l.ab != [] && rest == l.ab[1..] && IsPayload(l.ab[0])
                          && input == Arrival(Arrived(l.ab[0].frame)) && answered == l.ab[0].tag)
  }

  function Answered(got: seq<nat>, input: Input, answered: nat): seq<nat>
  {
    if Brings(input) then got + [answered] else got
  }

  /** B as the receiver of A's messages. */
  lemma ReceiverSide(l: Link, input: Input, rest: seq<Tagged>, answered: nat, message: nat,
                     out: seq<Frame>, delivered: seq<seq<byte>>)
    requires LinkInv(l) && Takes(l, input, rest, answered)
    requires if Brings(input) then delivered == l.b.rc.delivered + [input.received.content] else delivered == l.b.rc.delivered
    requires forall f | f in out && f.kind != PAYLOAD ::
               f.content != [] && (f.content[0] == ACK ==> Brings(input) && f.mid == input.received.mid)
    ensures Direction(rest, l.ba + Tags(out, message, answered), l.sentA, l.a.tx.started, delivered, Answered(l.gotB, input, answered))
  {
    var got' := Answered(l.gotB, input, answered);
    if Brings(input) {
      assert l.ab[0] in l.ab;
      ReceiverDelivers(l.ab, l.ba, l.sentA, l.a.tx.started, l.b.rc.delivered, l.gotB);
    } else {
      LineShrinks(l.ab, l.ba, l.sentA, l.a.tx.started, l.b.rc.delivered, l.gotB, rest, l.ba);
    }
    TagsAnswers(out, message, answered, got');
    ReceiverAnswers(rest, l.ba, l.sentA, l.a.tx.started, delivered, got', Tags(out, message, answered));
  }

  /** B as the sender of its own messages. */
  lemma SenderSide(l: Link, rest: seq<Tagged>, answered: nat, out: seq<Frame>, sent: seq<Outgoing>, started: nat)
    requires LinkInv(l) && (rest == l.ab || (l.ab != [] && rest == l.ab[1..]))
    requires l.sentB <= sent && l.b.tx.started <= started <= |sent|
    requires forall f | f in out && f.kind == PAYLOAD :: 0 < started && f == FrameOf(sent, started)
    ensures Direction(l.ba + Tags(out, started, answered), rest, sent, started, l.a.rc.delivered, l.gotA)
  {
    TagsPayload(out, started, answered, sent);
    LineShrinks(l.ba, l.ab, l.sentB, l.b.tx.started, l.a.rc.delivered, l.gotA, l.ba, rest);
    SenderWrites(l.ba, rest, l.sentB, l.b.tx.started, l.a.rc.delivered, l.gotA, Tags(out, started, answered), sent, started);
  }

  /** What the frames of `Does` are. */
  lemma DoneFrames(st: Station, input: Input, sent: seq<Outgoing>, sends: seq<Frame>, answers: seq<Frame>)
    requires st.tx.maxFrameSize > 0 && Does(st, input, sent, sends, answers)
    ensures var (st', out) := Act(st, input);
            && st'.tx.started <= |Sent(sent, input)|
            && (forall f | f in out && f.kind == PAYLOAD :: 0 < st'.tx.started && f == FrameOf(Sent(sent, input), st'.tx.started))
            && (forall f | f in out && f.kind != PAYLOAD ::
                  f.content != [] && (f.content[0] == ACK ==> Brings(input) && f.mid == input.received.mid))
  {
    var (st', out) := Act(st, input);
    assert forall f | f in out :: f in sends || f in answers;
  }

  /** B acts; as the receiver of A's messages it may deliver the first frame of the line, as a sender it may write. */
  lemma ActsAtBKeeps(l: Link, input: Input, rest: seq<Tagged>, answered: nat)
    requires LinkInv(l) && InputFits(l.b, input) && Takes(l, input, rest, answered)
    ensures LinkInv(ActsAtB(l, input, rest, answered))
  {
    var sends, answers := ActDoes(l.b, input, l.sentB);
    ActSettles(l.b, input);
    DoneFrames(l.b, input, l.sentB, sends, answers);
    var (b, out) := Act(l.b, input);
    ReceiverSide(l, input, rest, answered, b.tx.started, out, b.rc.delivered);
    SenderSide(l, rest, answered, out, Sent(l.sentB, input), b.tx.started);
    var l' := Link(l.a, b, rest, l.ba + Tags(out, b.tx.started, answered), l.sentA, Sent(l.sentB, input),
                   l.gotA, Answered(l.gotB, input, answered));
    assert l.gotB + [] == l.gotB;
    assert ActsAtB(l, input, rest, answered) == l';
  }

  predicate CanHappen(l: Link, what: Happening)
  {
    Detected(what) && (what.Give? ==> SingleFrame(what.message, l.b.tx.maxFrameSize))
  }

  lemma FirstFrameFits(l: Link)
    requires LinkInv(l) && l.ab != []
    ensures InputFits(l.b, Arrival(Arrived(l.ab[0].frame)))
  {
    var t := l.ab[0];
    assert t in l.ab;
    if IsPayload(t) {
      assert l.sentA[t.tag - 1] in l.sentA;
    }
  }

  lemma HappensAtBKeeps(l: Link, what: Happening)
    requires LinkInv(l) && CanHappen(l, what)
    ensures LinkInv(HappensAtB(l, what))
  {
    match what
    case Give(m) => ActsAtBKeeps(l, Submit(m), l.ab, 0);
    case Intact =>
      if l.ab != [] {
        FirstFrameFits(l);
        ActsAtBKeeps(l, Arrival(Arrived(l.ab[0].frame)), l.ab[1..], l.ab[0].tag);
      }
    case Lost =>
      if l.ab != [] {
        LineShrinks(l.ab, l.ba, l.sentA, l.a.tx.started, l.b.rc.delivered, l.gotB, l.ab[1..], l.ba);
        LineShrinks(l.ba, l.ab, l.sentB, l.b.tx.started, l.a.rc.delivered, l.gotA, l.ba, l.ab[1..]);
      }
    case Damaged(f) => if l.ab != [] { ActsAtBKeeps(l, Arrival(f), l.ab[1..], 0); }
    case Noise(f) => ActsAtBKeeps(l, Arrival(f), l.ab, 0);
    case Timeout => ActsAtBKeeps(l, ConfirmationTimeout, l.ab, 0);
    case Stray => ActsAtBKeeps(l, StrayByte, l.ab, 0);
    case HalfFrame => ActsAtBKeeps(l, FrameTimeout, l.ab, 0);
  }

  // ---------------------------------------------------------------- completed messages

  /** The acknowledgement that is about to complete the current message of B. */
  predicate Completing(l: Link, what: Happening)
  {
    what.Intact? && l.ab != [] && Confirms(l.b.tx, Arrival(Arrived(l.ab[0].frame)))
  }

  /** That acknowledgement is younger than the cycle of the mids. */
  predicate Fresh(l: Link, what: Happening)
  {
    Completing(l, what) ==> l.b.tx.started - l.ab[0].tag < MID_LIMIT
  }

  /** The mid alone does not tell; the acknowledgement answers the current message exactly if it is younger than the cycle
      of the mids. */
  lemma AckIsForCurrent(l: Link)
    requires LinkInv(l) && Completing(l, Intact)
    ensures l.ab[0].tag in l.gotA && l.ab[0].tag <= l.b.tx.started
    ensures l.ab[0].tag == l.b.tx.started <==> Fresh(l, Intact)
  {
    var t, n := l.ab[0].tag, l.b.tx.started;
    assert l.ab[0] in l.ab;
    assert t % MID_LIMIT == n % MID_LIMIT;
    var i :| 0 <= i < |l.gotA| && l.gotA[i] == t;
  }

  /** Completed messages are completed once, in order, and before the current one. */
  predicate CompletedOnce(s: Sender)
  {
    && (forall i, j | 0 <= i < j < |s.completed| :: s.completed[i] < s.completed[j])
    && (forall c | c in s.completed :: c <= s.started && (s.state == WaitForAck ==> c < s.started))
  }

  /** The task ids reported when the messages numbered `completed` are through: those of own requests. */
  function Reports(completed: seq<nat>, sent: seq<Outgoing>): seq<int>
  {
    if completed == [] then []
    else
      var c := completed[|completed| - 1];
      Reports(completed[..|completed| - 1], sent)
      + if 0 < c <= |sent| && IsOwnRequest(sent[c - 1].tid) then [sent[c - 1].tid] else []
  }

  lemma {:induction false} ReportsGrow(completed: seq<nat>, sent: seq<Outgoing>, m: Outgoing)
    requires forall c | c in completed :: c <= |sent|
    ensures Reports(completed, sent + [m]) == Reports(completed, sent)
  {
    if completed != [] {
      var front := completed[..|completed| - 1];
      assert completed[|front|] in completed && forall c | c in front :: c in completed;
      ReportsGrow(completed[..|completed| - 1], sent, m);
    }
  }

  lemma ReportsSnoc(completed: seq<nat>, sent: seq<Outgoing>, c: nat)
    requires 0 < c <= |sent|
    ensures Reports(completed + [c], sent)
         == Reports(completed, sent) + if IsOwnRequest(sent[c - 1].tid) then [sent[c - 1].tid] else []
  {
    assert (completed + [c])[..|completed|] == completed;
  }

  predicate AllDelivered(completed: seq<nat>, got: seq<nat>)
  {
    forall c | c in completed :: c in got
  }

  predicate Honest(l: Link)
  {
    && CompletedOnce(l.a.tx) && CompletedOnce(l.b.tx)
    && l.a.tx.announced == Reports(l.a.tx.completed, l.sentA) && l.b.tx.announced == Reports(l.b.tx.completed, l.sentB)
    && AllDelivered(l.a.tx.completed, l.gotB) && AllDelivered(l.b.tx.completed, l.gotA)
  }

  lemma CompletedOnceKept(st: Station, input: Input, sent: seq<Outgoing>)
    requires StationInv(st, sent) && InputFits(st, input) && CompletedOnce(st.tx)
    ensures CompletedOnce(Act(st, input).0.tx)
  {
    var sends, answers := ActDoes(st, input, sent);
    var s, s' := st.tx, Act(st, input).0.tx;
    forall i, j | 0 <= i < j < |s'.completed|
      ensures s'.completed[i] < s'.completed[j]
    {
      assert s'.completed[i] == s.completed[i] && s.completed[i] in s.completed;
    }
  }

  lemma ReportsKept(st: Station, input: Input, sent: seq<Outgoing>)
    requires StationInv(st, sent) && InputFits(st, input) && CompletedOnce(st.tx)
    requires st.tx.announced == Reports(st.tx.completed, sent)
    ensures var s' := Act(st, input).0.tx; s'.announced == Reports(s'.completed, Sent(sent, input))
  {
    hide Act, Reports, Settled;
    var sends, answers := ActDoes(st, input, sent);
    var s := st.tx;
    assert s.completed + [] == s.completed && s.announced + [] == s.announced;
    assert forall c | c in s.completed :: c <= |sent|;
    if input.Submit? {
      ReportsGrow(s.completed, sent, input.message);
    } else {
      assert sent + [] == sent;
      if Confirms(s, input) {
        ReportsSnoc(s.completed, sent, s.started);
      }
    }
  }

  lemma ActsAtBHonest(l: Link, input: Input, rest: seq<Tagged>, answered: nat)
    requires LinkInv(l) && InputFits(l.b, input) && Honest(l)
    requires Confirms(l.b.tx, input) ==> l.b.tx.started in l.gotA
    ensures Honest(ActsAtB(l, input, rest, answered))
  {
    CompletedOnceKept(l.b, input, l.sentB);
    ReportsKept(l.b, input, l.sentB);
    var sends, answers := ActDoes(l.b, input, l.sentB);
  }

  lemma HappensAtBHonest(l: Link, what: Happening)
    requires LinkInv(l) && CanHappen(l, what) && Honest(l) && Fresh(l, what)
    ensures Honest(HappensAtB(l, what))
  {
    match what
    case Give(m) => ActsAtBHonest(l, Submit(m), l.ab, 0);
    case Intact =>
      if l.ab != [] {
        FirstFrameFits(l);
        if Completing(l, Intact) {
          AckIsForCurrent(l);
        }
        ActsAtBHonest(l, Arrival(Arrived(l.ab[0].frame)), l.ab[1..], l.ab[0].tag);
      }
    case Lost =>
    case Damaged(f) => if l.ab != [] { ActsAtBHonest(l, Arrival(f), l.ab[1..], 0); }
    case Noise(f) => ActsAtBHonest(l, Arrival(f), l.ab, 0);
    case Timeout => ActsAtBHonest(l, ConfirmationTimeout, l.ab, 0);
    case Stray => ActsAtBHonest(l, StrayByte, l.ab, 0);
    case HalfFrame => ActsAtBHonest(l, FrameTimeout, l.ab, 0);
  }

  // ---------------------------------------------------------------- over whole runs

  predicate Allowed(l: Link, e: Event)
  {
    match e
    case AtB(what) => CanHappen(l, what)
    case AtA(what) => CanHappen(Mirror(l), what)
  }

  predicate FreshEvent(l: Link, e: Event)
  {
    match e
    case AtB(what) => Fresh(l, what)
    case AtA(what) => Fresh(Mirror(l), what)
  }

  predicate AllAllowed(l: Link, events: seq<Event>)
    requires Usable(l)
    decreases |events|
  {
    events != [] ==> Allowed(l, events[0]) && AllAllowed(Step(l, events[0]), events[1..])
  }

  predicate AllFresh(l: Link, events: seq<Event>)
    requires Usable(l)
    decreases |events|
  {
    events != [] ==> FreshEvent(l, events[0]) && AllFresh(Step(l, events[0]), events[1..])
  }

  lemma MirrorKeeps(l: Link)
    ensures Mirror(Mirror(l)) == l && (LinkInv(l) ==> LinkInv(Mirror(l))) && (Honest(l) ==> Honest(Mirror(l)))
  {
  }

  lemma StepKeeps(l: Link, e: Event)
    requires LinkInv(l) && Allowed(l, e)
    ensures LinkInv(Step(l, e))
    ensures Honest(l) && FreshEvent(l, e) ==> Honest(Step(l, e))
  {
    match e
    case AtB(what) =>
      HappensAtBKeeps(l, what);
      if Honest(l) && Fresh(l, what) {
        HappensAtBHonest(l, what);
      }
    case AtA(what) =>
      MirrorKeeps(l);
      HappensAtBKeeps(Mirror(l), what);
      if Honest(l) && Fresh(Mirror(l), what) {
        HappensAtBHonest(Mirror(l), what);
      }
      MirrorKeeps(HappensAtB(Mirror(l), what));
  }

  lemma {:induction false} RunKeeps(l: Link, events: seq<Event>)
    requires LinkInv(l) && AllAllowed(l, events)
    ensures LinkInv(Run(l, events))
    ensures Honest(l) && AllFresh(l, events) ==> Honest(Run(l, events))
    decreases |events|
  {
    if events != [] {
      StepKeeps(l, events[0]);
      RunKeeps(Step(l, events[0]), events[1..]);
    }
  }

  lemma ConnectedKeeps(maxFrameSizeA: nat, maxFrameSizeB: nat)
    requires maxFrameSizeA > 0 && maxFrameSizeB > 0
    ensures LinkInv(Connected(maxFrameSizeA, maxFrameSizeB)) && Honest(Connected(maxFrameSizeA, maxFrameSizeB))
  {
  }

  /** The messages A is given during `events`. */
  function GivenToA(events: seq<Event>): seq<Outgoing>
    decreases |events|
  {
    if events == [] then []
    else (if events[0].AtA? && events[0].what.Give? then [events[0].what.message] else []) + GivenToA(events[1..])
  }

  function GivenToB(events: seq<Event>): seq<Outgoing>
    decreases |events|
  {
    if events == [] then []
    else (if events[0].AtB? && events[0].what.Give? then [events[0].what.message] else []) + GivenToB(events[1..])
  }

  lemma StepSent(l: Link, e: Event)
    requires Usable(l)
    ensures Step(l, e).sentA == l.sentA + (if e.AtA? && e.what.Give? then [e.what.message] else [])
    ensures Step(l, e).sentB == l.sentB + (if e.AtB? && e.what.Give? then [e.what.message] else [])
  {
    hide Act, Tags;
  }

  lemma {:induction false} SentIsGiven(l: Link, events: seq<Event>)
    requires Usable(l)
    ensures Run(l, events).sentA == l.sentA + GivenToA(events)
    ensures Run(l, events).sentB == l.sentB + GivenToB(events)
    decreases |events|
  {
    hide Step;
    if events != [] {
      StepSent(l, events[0]);
      SentIsGiven(Step(l, events[0]), events[1..]);
    }
  }

  lemma SentFromStart(maxFrameSizeA: nat, maxFrameSizeB: nat, events: seq<Event>)
    requires maxFrameSizeA > 0 && maxFrameSizeB > 0
    ensures Run(Connected(maxFrameSizeA, maxFrameSizeB), events).sentA == GivenToA(events)
    ensures Run(Connected(maxFrameSizeA, maxFrameSizeB), events).sentB == GivenToB(events)
  {
    hide Run, GivenToA, GivenToB;
    SentIsGiven(Connected(maxFrameSizeA, maxFrameSizeB), events);
    assert [] + GivenToA(events) == GivenToA(events) && [] + GivenToB(events) == GivenToB(events);
  }

  /** `delivered` are messages of `sent` in order, each any number of times, also none. */
  ghost predicate InOrderWithRepeats(delivered: seq<seq<byte>>, sent: seq<Outgoing>)
  {
    exists got: seq<nat> :: NonDecreasing(got) && Numbered(delivered, got, sent, |sent|)
  }

  lemma NumberedInOrder(l: Link)
    requires LinkInv(l)
    ensures InOrderWithRepeats(l.b.rc.delivered, l.sentA)
  {
    assert NonDecreasing(l.gotB) && Numbered(l.b.rc.delivered, l.gotB, l.sentA, |l.sentA|);
  }

  /** Whatever the lines lose or visibly damage and whichever timers fire: each side delivers the messages of the other in
      order, some perhaps not and some perhaps more than once. */
  lemma LossyDelivery(maxFrameSizeA: nat, maxFrameSizeB: nat, events: seq<Event>)
    requires maxFrameSizeA > 0 && maxFrameSizeB > 0 && AllAllowed(Connected(maxFrameSizeA, maxFrameSizeB), events)
    ensures var l := Run(Connected(maxFrameSizeA, maxFrameSizeB), events);
            InOrderWithRepeats(l.b.rc.delivered, GivenToA(events)) && InOrderWithRepeats(l.a.rc.delivered, GivenToB(events))
  {
    hide Run, LinkInv, Honest, AllAllowed, AllFresh, InOrderWithRepeats;
    SentFromStart(maxFrameSizeA, maxFrameSizeB, events);
    ConnectedKeeps(maxFrameSizeA, maxFrameSizeB);
    RunKeeps(Connected(maxFrameSizeA, maxFrameSizeB), events);
    var l := Run(Connected(maxFrameSizeA, maxFrameSizeB), events);
    NumberedInOrder(l);
    MirrorKeeps(l);
    NumberedInOrder(Mirror(l));
  }

  /** The messages numbered `completed` were all delivered, each itself and not one with the same text; each was completed
      once, in the order of sending; and `announced` are the own requests among them. */
  ghost predicate CompletedAndDelivered(completed: seq<nat>, announced: seq<int>, delivered: seq<seq<byte>>, sent: seq<Outgoing>)
  {
    && (forall i, j | 0 <= i < j < |completed| :: completed[i] < completed[j])
    && announced == Reports(completed, sent)
    && exists got: seq<nat> ::
         NonDecreasing(got) && Numbered(delivered, got, sent, |sent|) && AllDelivered(completed, got)
  }

  lemma HonestDelivered(l: Link)
    requires LinkInv(l) && Honest(l)
    ensures CompletedAndDelivered(l.a.tx.completed, l.a.tx.announced, l.b.rc.delivered, l.sentA)
  {
    assert NonDecreasing(l.gotB) && Numbered(l.b.rc.delivered, l.gotB, l.sentA, |l.sentA|);
  }

  /** A message a sender completes was delivered, as long as no acknowledgement outlives the cycle of the mids; and no
      message is completed twice. */
  lemma CompletedWereDelivered(maxFrameSizeA: nat, maxFrameSizeB: nat, events: seq<Event>)
    requires maxFrameSizeA > 0 && maxFrameSizeB > 0 && AllAllowed(Connected(maxFrameSizeA, maxFrameSizeB), events)
    requires AllFresh(Connected(maxFrameSizeA, maxFrameSizeB), events)
    ensures var l := Run(Connected(maxFrameSizeA, maxFrameSizeB), events);
            && CompletedAndDelivered(l.a.tx.completed, l.a.tx.announced, l.b.rc.delivered, GivenToA(events))
            && CompletedAndDelivered(l.b.tx.completed, l.b.tx.announced, l.a.rc.delivered, GivenToB(events))
  {
    hide Run, LinkInv, Honest, AllAllowed, AllFresh, CompletedAndDelivered;
    SentFromStart(maxFrameSizeA, maxFrameSizeB, events);
    ConnectedKeeps(maxFrameSizeA, maxFrameSizeB);
    RunKeeps(Connected(maxFrameSizeA, maxFrameSizeB), events);
    var l := Run(Connected(maxFrameSizeA, maxFrameSizeB), events);
    MirrorKeeps(l);
    HonestDelivered(l);
    HonestDelivered(Mirror(l));
  }
}

/** Two stations over two lines that lose nothing, sending in both directions at once. */
module SerialLossless {
  import opened Bytes
  import opened SerialRx
  import opened SerialFrames
  import opened SerialMessages
  import opened SerialStation

  /** Two stations, the frames under way between them, and the messages each was given to send. */
  datatype Link = Link(a: Station, b: Station, ab: seq<Frame>, ba: seq<Frame>, sentA: seq<Outgoing>, sentB: seq<Outgoing>)

  datatype Event = SubmitA(message: Outgoing) | SubmitB(message: Outgoing) | ArriveAtA | ArriveAtB

  function Mirror(l: Link): Link
  {
    Link(l.b, l.a, l.ba, l.ab, l.sentB, l.sentA)
  }

  predicate Usable(l: Link)
  {
    l.a.tx.maxFrameSize > 0 && l.b.tx.maxFrameSize > 0
  }

  function SubmitTo(l: Link, m: Outgoing): (l': Link)
    requires Usable(l)
    ensures Usable(l') && l'.sentA == l.sentA + [m] && l'.sentB == l.sentB
  {
    var (a, out) := Act(l.a, Submit(m));
    l.(a := a, ab := l.ab + out, sentA := l.sentA + [m])
  }

  /** The first frame on the line from A to B arrives. */
  function Deliver(l: Link): (l': Link)
    requires Usable(l)
    ensures Usable(l') && l'.sentA == l.sentA && l'.sentB == l.sentB
  {
    if l.ab == [] then l
    else
      var (b, out) := Act(l.b, Arrival(Arrived(l.ab[0])));
      l.(b := b, ab := l.ab[1..], ba := l.ba + out)
  }

  function Step(l: Link, e: Event): (l': Link)
    requires Usable(l)
    ensures Usable(l')
    ensures l'.sentA == l.sentA + (if e.SubmitA? then [e.message] else [])
    ensures l'.sentB == l.sentB + (if e.SubmitB? then [e.message] else [])
  {
    match e
    case SubmitA(m) => SubmitTo(l, m)
    case SubmitB(m) => Mirror(SubmitTo(Mirror(l), m))
    case ArriveAtB => Deliver(l)
    case ArriveAtA => Mirror(Deliver(Mirror(l)))
  }

  function Connected(maxFrameSizeA: nat, maxFrameSizeB: nat): Link
  {
    Link(Initial(maxFrameSizeA), Initial(maxFrameSizeB), [], [], [], [])
  }

  // ---------------------------------------------------------------- one direction

  function Texts(ms: seq<Outgoing>): seq<seq<byte>>
  {
    Each((m: Outgoing) => m.text, ms)
  }

  /** The task ids of own requests among `ms`, in order; these are the odd ones. */
  function OwnRequests(ms: seq<Outgoing>): seq<int>
  {
    if ms == [] then []
    else OwnRequests(ms[..|ms| - 1]) + if ms[|ms| - 1].tid % 2 == 1 then [ms[|ms| - 1].tid] else []
  }

  function OfKind(line: seq<Frame>, kind: byte): seq<Frame>
  {
    if line == [] then [] else (if line[0].kind == kind then [line[0]] else []) + OfKind(line[1..], kind)
  }

  lemma {:induction false} OfKindConcat(a: seq<Frame>, b: seq<Frame>, kind: byte)
    ensures OfKind(a + b, kind) == OfKind(a, kind) + OfKind(b, kind)
  {
    if a == [] {
      assert a + b == b && OfKind(a, kind) == [];
      assert [] + OfKind(b, kind) == OfKind(b, kind);
    } else {
      assert (a + b)[1..] == a[1..] + b && (a + b)[0] == a[0];
      OfKindConcat(a[1..], b, kind);
      var first := if a[0].kind == kind then [a[0]] else [];
      assert first + (OfKind(a[1..], kind) + OfKind(b, kind)) == first + OfKind(a[1..], kind) + OfKind(b, kind);
    }
  }

  /** What the sender still has of message `m`, and the frame it waits for: the rest starts after `taken`. */
  predicate Sending(s: Sender, m: Outgoing, taken: seq<byte>)
    requires s.maxFrameSize > 0
  {
    && s.tid == m.tid && s.message.framePayload != []
    && taken + s.message.payload == m.text
    && 1 <= s.message.transceived
    && s.message.numFrames - s.message.transceived == FrameCount(|s.message.payload|, s.maxFrameSize)
    && s.sentFrame == Frame(PAYLOAD, s.currentMid, s.message.transceived, s.message.numFrames, s.message.framePayload)
  }

  /** The receiver has `taken` of a message after `frames` of its `total` frames. */
  predicate Collected(r: Receiver, taken: seq<byte>, frames: int, total: int)
  {
    r.message.payload == taken && r.message.transceived == frames && r.message.numFrames == total
  }

  /** The frame the sender waits for is on the line. */
  ghost predicate FrameUnderWay(s: Sender, r: Receiver, pay: seq<Frame>, conf: seq<Frame>, sent: seq<Outgoing>, taken: seq<byte>)
    requires 0 < s.started <= |sent| && s.maxFrameSize > 0
  {
    var m := sent[s.started - 1];
    && Sending(s, m, taken + s.message.framePayload)
    && pay == [s.sentFrame] && conf == []
    && r.delivered == Texts(sent[..s.started - 1])
    && (if s.message.transceived == 1 then taken == []
        else Collected(r, taken, s.message.transceived - 1, s.message.numFrames))
  }

  /** The confirmation the sender waits for is on the line. */
  ghost predicate AckUnderWay(s: Sender, r: Receiver, pay: seq<Frame>, conf: seq<Frame>, sent: seq<Outgoing>, taken: seq<byte>)
    requires 0 < s.started <= |sent| && s.maxFrameSize > 0
  {
    var m := sent[s.started - 1];
    && Sending(s, m, taken)
    && pay == []
    && |conf| == 1 && conf[0].mid == s.currentMid && conf[0].content == [ACK]
    && (if s.message.transceived < s.message.numFrames
        then r.delivered == Texts(sent[..s.started - 1]) && Collected(r, taken, s.message.transceived, s.message.numFrames)
        else r.delivered == Texts(sent[..s.started]))
  }

  /** One direction: the sender `s`, the receiver `r`, the payload frames on the way there and the confirmations on the
      way back. Exactly one frame of a direction is ever on the lines, and none when the sender is idle. */
  ghost predicate Direction(s: Sender, r: Receiver, pay: seq<Frame>, conf: seq<Frame>, sent: seq<Outgoing>)
  {
    && SenderSettled(s)
    && (forall m | m in sent :: m.text != [])
    && s.started <= |sent| && s.queue == sent[s.started..]
    && match s.state
       case Idle =>
         && s.queue == [] && pay == [] && conf == []
         && r.delivered == Texts(sent) && s.announced == OwnRequests(sent)
       case WaitForAck =>
         && 0 < s.started && s.announced == OwnRequests(sent[..s.started - 1])
         && exists taken :: FrameUnderWay(s, r, pay, conf, sent, taken) || AckUnderWay(s, r, pay, conf, sent, taken)
       case _ => false
  }

  // ---------------------------------------------------------------- what the events do to a direction

  lemma TextsOfPrefix(sent: seq<Outgoing>, n: nat)
    requires n < |sent|
    ensures Texts(sent[..n + 1]) == Texts(sent[..n]) + [sent[n].text]
  {
    assert sent[..n + 1] == sent[..n] + [sent[n]];
    EachAppend((m: Outgoing) => m.text, sent[..n], [sent[n]]);
  }

  lemma OwnRequestsOfPrefix(sent: seq<Outgoing>, n: nat)
    requires n < |sent|
    ensures OwnRequests(sent[..n + 1]) == OwnRequests(sent[..n]) + if sent[n].tid % 2 == 1 then [sent[n].tid] else []
  {
    assert sent[..n + 1][..n] == sent[..n];
  }

  /** The frame arrives: the receiver takes it in, delivers if it was the last, and confirms. */
  lemma FrameArrives(s: Sender, r: Receiver, pay: seq<Frame>, sent: seq<Outgoing>, taken: seq<byte>)
    requires SenderSettled(s) && 0 < s.started <= |sent|
    requires FrameUnderWay(s, r, pay, [], sent, taken)
    ensures var (r', out) := ReceiverLoop(TakePayload(r, Arrived(s.sentFrame)));
            AckUnderWay(s, r', [], out, sent, taken + s.message.framePayload)
  {
    var m := sent[s.started - 1];
    var all := taken + s.message.framePayload;
    FrameCountStep(|s.message.payload|, s.maxFrameSize);
    TextsOfPrefix(sent, s.started - 1);
    assert [] + s.message.framePayload == s.message.framePayload;
    if s.message.transceived >= s.message.numFrames {
      assert all + [] == all;
      assert s.message.payload == [];
    }
  }

  /** A new frame is written from the message: it is under way. */
  lemma NextFrameUnderWay(s: Sender, r: Receiver, sent: seq<Outgoing>, taken: seq<byte>)
    requires s.maxFrameSize > 0 && 0 < s.started <= |sent| && s.message.payload != []
    requires s.tid == sent[s.started - 1].tid && taken + s.message.payload == sent[s.started - 1].text
    requires 0 <= s.message.transceived
    requires s.message.numFrames - s.message.transceived == FrameCount(|s.message.payload|, s.maxFrameSize)
    requires r.delivered == Texts(sent[..s.started - 1])
    requires if s.message.transceived == 0 then taken == [] else Collected(r, taken, s.message.transceived, s.message.numFrames)
    ensures var (s', out) := SendNextFrame(s);
            FrameUnderWay(s', r, out, [], sent, taken)
  {
    PopTakesFragment(s.message, s.maxFrameSize);
    var m := Popped(s.message, s.maxFrameSize);
    assert taken + m.framePayload + m.payload == taken + (m.framePayload + m.payload);
  }

  /** All messages taken from the queue are delivered and announced. */
  predicate UpToDate(s: Sender, r: Receiver, sent: seq<Outgoing>)
  {
    && (forall m | m in sent :: m.text != [])
    && s.started <= |sent| && s.queue == sent[s.started..]
    && r.delivered == Texts(sent[..s.started]) && s.announced == OwnRequests(sent[..s.started])
  }

  /** An idle sender with messages waiting starts the first of them. */
  lemma QueueStarts(s: Sender, r: Receiver, sent: seq<Outgoing>)
    requires SenderSettled(s.(timerArmed := false)) && s.state == Idle && UpToDate(s, r, sent)
    ensures var (s', out) := SendFromQueue(s);
            s.timerArmed == false || s.queue != [] ==> Direction(s', r, out, [], sent)
  {
    if s.queue == [] {
      assert sent[..s.started] == sent;
    } else {
      var m := s.queue[0];
      assert m == sent[s.started] && m in sent;
      var s1 := s.(message := ForSending(m.text, s.maxFrameSize), tid := m.tid, queue := s.queue[1..], started := s.started + 1);
      assert [] + m.text == m.text;
      NextFrameUnderWay(s1, r, sent, []);
      SendingSettles(s1);
      assert s.queue[1..] == sent[s.started + 1..];
    }
  }

  /** The confirmation arrives: the next frame is written, or the message is complete and the next one starts. */
  lemma AckArrives(s: Sender, r: Receiver, conf: seq<Frame>, sent: seq<Outgoing>, taken: seq<byte>)
    requires Direction(s, r, [], conf, sent) && s.state == WaitForAck
    requires AckUnderWay(s, r, [], conf, sent, taken)
    ensures var (s', out) := SenderLoop(Confirmed(s, Arrived(conf[0])), conf[0].mid);
            Direction(s', r, out, [], sent)
  {
    var s1 := Confirmed(s, Arrived(conf[0])).(timerArmed := false, errors := 0, timeouts := 0, state := Idle);
    FrameCountStep(|s.message.payload|, s.maxFrameSize);
    if DataLeft(s.message) {
      NextFrameUnderWay(s1, r, sent, taken);
      SendingSettles(s1);
    } else {
      OwnRequestsOfPrefix(sent, s.started - 1);
      QueueStarts(Complete(s1), r, sent);
    }
  }

  /** The same frame under way, with one more message in the queue. */
  lemma StillUnderWay(s: Sender, r: Receiver, pay: seq<Frame>, conf: seq<Frame>, sent: seq<Outgoing>, m: Outgoing, taken: seq<byte>)
    requires 0 < s.started <= |sent| && s.maxFrameSize > 0
    requires FrameUnderWay(s, r, pay, conf, sent, taken) || AckUnderWay(s, r, pay, conf, sent, taken)
    ensures var s' := s.(queue := s.queue + [m]);
            FrameUnderWay(s', r, pay, conf, sent + [m], taken) || AckUnderWay(s', r, pay, conf, sent + [m], taken)
  {
    var all := sent + [m];
    assert all[..s.started] == sent[..s.started];
    assert all[..s.started - 1] == sent[..s.started - 1];
  }

  lemma IdleUpToDate(s: Sender, r: Receiver, sent: seq<Outgoing>, m: Outgoing)
    requires UpToDate(s, r, sent) && s.queue == [] && m.text != []
    ensures UpToDate(s.(queue := s.queue + [m]), r, sent + [m])
  {
    hide Texts, OwnRequests;
    assert |sent[s.started..]| == 0;
    assert sent[..s.started] == sent;
    SnocParts(sent, m);
    assert [] + [m] == [m];
  }

  lemma IdleSubmits(s: Sender, r: Receiver, sent: seq<Outgoing>, m: Outgoing)
    requires Direction(s, r, [], [], sent) && m.text != [] && s.state == Idle
    ensures var (s', out) := SendFromQueue(s.(queue := s.queue + [m]));
            Direction(s', r, out, [], sent + [m])
  {
    assert |sent[s.started..]| == 0;
    assert sent[..s.started] == sent;
    IdleUpToDate(s, r, sent, m);
    QueueStarts(s.(queue := s.queue + [m]), r, sent + [m]);
  }

  lemma BusySubmits(s: Sender, r: Receiver, pay: seq<Frame>, conf: seq<Frame>, sent: seq<Outgoing>, m: Outgoing)
    requires Direction(s, r, pay, conf, sent) && m.text != [] && s.state == WaitForAck
    ensures Direction(s.(queue := s.queue + [m]), r, pay, conf, sent + [m])
  {
    var all := sent + [m];
    assert all[s.started..] == sent[s.started..] + [m];
    assert all[..s.started - 1] == sent[..s.started - 1];
    assert forall x | x in all :: x in sent || x == m;
    var taken :| FrameUnderWay(s, r, pay, conf, sent, taken) || AckUnderWay(s, r, pay, conf, sent, taken);
    StillUnderWay(s, r, pay, conf, sent, m, taken);
  }

  /** A message is queued; an idle sender starts it at once. */
  lemma SubmitsTo(s: Sender, r: Receiver, pay: seq<Frame>, conf: seq<Frame>, sent: seq<Outgoing>, m: Outgoing, mid: int)
    requires Direction(s, r, pay, conf, sent) && m.text != []
    ensures var (s', out) := SenderLoop(s.(queue := s.queue + [m]), mid);
            Direction(s', r, pay + out, conf, sent + [m])
  {
    if s.state == Idle {
      IdleSubmits(s, r, sent, m);
      var out := SendFromQueue(s.(queue := s.queue + [m])).1;
      assert [] + out == out;
    } else {
      assert pay + [] == pay;
      BusySubmits(s, r, pay, conf, sent, m);
    }
  }

  lemma DirectionIgnoresMid(s: Sender, r: Receiver, mid: int, pay: seq<Frame>, conf: seq<Frame>, sent: seq<Outgoing>)
    requires Direction(s, r, pay, conf, sent)
    ensures Direction(s, r.(receivedMid := mid), pay, conf, sent)
  {
    if s.state == WaitForAck {
      var taken :| FrameUnderWay(s, r, pay, conf, sent, taken) || AckUnderWay(s, r, pay, conf, sent, taken);
      var r' := r.(receivedMid := mid);
      assert FrameUnderWay(s, r', pay, conf, sent, taken) || AckUnderWay(s, r', pay, conf, sent, taken);
    }
  }

  // ---------------------------------------------------------------- the whole link

  predicate TwoKinds(line: seq<Frame>)
  {
    forall f | f in line :: f.kind == PAYLOAD || f.kind == CONFIRMATION
  }

  ghost predicate LinkInv(l: Link)
  {
    && l.a.alive && l.b.alive && Settled(l.a) && Settled(l.b)
    && TwoKinds(l.ab) && TwoKinds(l.ba)
    && Direction(l.a.tx, l.b.rc, OfKind(l.ab, PAYLOAD), OfKind(l.ba, CONFIRMATION), l.sentA)
    && Direction(l.b.tx, l.a.rc, OfKind(l.ba, PAYLOAD), OfKind(l.ab, CONFIRMATION), l.sentB)
  }

  lemma MirrorKeeps(l: Link)
    requires LinkInv(l)
    ensures LinkInv(Mirror(l)) && Mirror(Mirror(l)) == l
  {
  }

  lemma ConnectedKeeps(maxFrameSizeA: nat, maxFrameSizeB: nat)
    requires maxFrameSizeA > 0 && maxFrameSizeB > 0
    ensures LinkInv(Connected(maxFrameSizeA, maxFrameSizeB))
  {
  }

  lemma {:induction false} OfOneKind(line: seq<Frame>, kind: byte)
    requires forall f | f in line :: f.kind == kind
    ensures OfKind(line, kind) == line
    ensures forall other | other != kind :: OfKind(line, other) == []
  {
    if line != [] {
      OfOneKind(line[1..], kind);
      assert [line[0]] + line[1..] == line;
    }
  }

  lemma PayloadsOnly(s: Sender, r: Receiver, pay: seq<Frame>, conf: seq<Frame>, sent: seq<Outgoing>)
    requires Direction(s, r, pay, conf, sent)
    ensures forall f | f in pay :: f.kind == PAYLOAD
  {
  }

  /** Writing on the line `there` what the sender wrote. */
  lemma PayloadsWritten(line: seq<Frame>, out: seq<Frame>)
    requires forall f | f in out :: f.kind == PAYLOAD
    ensures TwoKinds(line) ==> TwoKinds(line + out)
    ensures OfKind(line + out, PAYLOAD) == OfKind(line, PAYLOAD) + out
    ensures OfKind(line + out, CONFIRMATION) == OfKind(line, CONFIRMATION)
  {
    OfKindConcat(line, out, PAYLOAD);
    OfKindConcat(line, out, CONFIRMATION);
    OfOneKind(out, PAYLOAD);
    assert OfKind(line, CONFIRMATION) + [] == OfKind(line, CONFIRMATION);
  }

  lemma ConfirmationsWritten(line: seq<Frame>, out: seq<Frame>)
    requires forall f | f in out :: f.kind == CONFIRMATION
    ensures TwoKinds(line) ==> TwoKinds(line + out)
    ensures OfKind(line + out, CONFIRMATION) == OfKind(line, CONFIRMATION) + out
    ensures OfKind(line + out, PAYLOAD) == OfKind(line, PAYLOAD)
  {
    OfKindConcat(line, out, PAYLOAD);
    OfKindConcat(line, out, CONFIRMATION);
    OfOneKind(out, CONFIRMATION);
    assert OfKind(line, PAYLOAD) + [] == OfKind(line, PAYLOAD);
  }

  lemma SubmitKeeps(l: Link, m: Outgoing)
    requires LinkInv(l) && m.text != []
    ensures LinkInv(SubmitTo(l, m))
  {
    ActSettles(l.a, Submit(m));
    SubmitConcernsSender(l.a, m);
    var (tx, out) := SenderLoop(l.a.tx.(queue := l.a.tx.queue + [m]), l.a.rc.receivedMid);
    var pay, conf := OfKind(l.ab, PAYLOAD), OfKind(l.ba, CONFIRMATION);
    SubmitsTo(l.a.tx, l.b.rc, pay, conf, l.sentA, m, l.a.rc.receivedMid);
    PayloadsOnly(tx, l.b.rc, pay + out, conf, l.sentA + [m]);
    assert forall f | f in out :: f in pay + out;
    PayloadsWritten(l.ab, out);
  }

  /** The one payload frame of a direction arrives. */
  lemma PayloadArrives(s: Sender, r: Receiver, f: Frame, rest: seq<Frame>, conf: seq<Frame>, sent: seq<Outgoing>)
    requires Direction(s, r, [f] + rest, conf, sent)
    ensures rest == [] && conf == [] && f.content != []
    ensures var (r', out) := ReceiverLoop(TakePayload(r, Arrived(f)));
            Direction(s, r', [], out, sent) && forall f | f in out :: f.kind == CONFIRMATION
  {
    var pay := [f] + rest;
    assert pay != [];
    var taken :| FrameUnderWay(s, r, pay, conf, sent, taken) || AckUnderWay(s, r, pay, conf, sent, taken);
    assert pay[0] == f;
    FrameArrives(s, r, pay, sent, taken);
    assert rest == pay[1..] == [];
  }

  /** The one confirmation of a direction arrives. */
  lemma ConfirmationArrives(s: Sender, r: Receiver, pay: seq<Frame>, f: Frame, rest: seq<Frame>, sent: seq<Outgoing>)
    requires Direction(s, r, pay, [f] + rest, sent)
    ensures rest == [] && pay == []
    ensures var (s', out) := SenderLoop(Confirmed(s, Arrived(f)), f.mid);
            Direction(s', r, out, [], sent) && forall f | f in out :: f.kind == PAYLOAD
  {
    var conf := [f] + rest;
    assert conf != [];
    var taken :| FrameUnderWay(s, r, pay, conf, sent, taken) || AckUnderWay(s, r, pay, conf, sent, taken);
    assert conf[0] == f;
    AckArrives(s, r, conf, sent, taken);
    assert rest == conf[1..] == [];
  }

  /** The message being confirmed has no empty frame to come. */
  lemma ConfirmationNothingEmpty(s: Sender, r: Receiver, pay: seq<Frame>, f: Frame, rest: seq<Frame>, sent: seq<Outgoing>)
    requires Direction(s, r, pay, [f] + rest, sent)
    ensures NothingEmpty(Confirmed(s, Arrived(f)))
  {
    var conf := [f] + rest;
    assert conf != [];
    var taken :| FrameUnderWay(s, r, pay, conf, sent, taken) || AckUnderWay(s, r, pay, conf, sent, taken);
    FrameCountStep(|s.message.payload|, s.maxFrameSize);
    assert forall m | m in s.queue :: m in sent;
  }

  lemma RestOfLine(line: seq<Frame>)
    requires TwoKinds(line) && line != []
    ensures TwoKinds(line[1..])
    ensures line[0].kind == PAYLOAD ==> OfKind(line, PAYLOAD) == [line[0]] + OfKind(line[1..], PAYLOAD)
                                        && OfKind(line, CONFIRMATION) == OfKind(line[1..], CONFIRMATION)
    ensures line[0].kind == CONFIRMATION ==> OfKind(line, CONFIRMATION) == [line[0]] + OfKind(line[1..], CONFIRMATION)
                                             && OfKind(line, PAYLOAD) == OfKind(line[1..], PAYLOAD)
  {
  }

  lemma PayloadArrivalKeeps(l: Link)
    requires LinkInv(l) && l.ab != [] && l.ab[0].kind == PAYLOAD
    ensures LinkInv(Deliver(l))
  {
    var f := l.ab[0];
    RestOfLine(l.ab);
    PayloadArrives(l.a.tx, l.b.rc, f, OfKind(l.ab[1..], PAYLOAD), OfKind(l.ba, CONFIRMATION), l.sentA);
    PayloadConcernsReceiver(l.b, Arrived(f));
    ActSettles(l.b, Arrival(Arrived(f)));
    var (rc, out) := ReceiverLoop(TakePayload(l.b.rc, Arrived(f)));
    var l' := Link(l.a, Station(l.b.tx, rc, true), l.ab[1..], l.ba + out, l.sentA, l.sentB);
    ConfirmationsWritten(l.ba, out);
    assert [] + out == out;
    assert LinkInv(l');
    assert Deliver(l) == l';
  }

  lemma ConfirmationArrivalKeeps(l: Link)
    requires LinkInv(l) && l.ab != [] && l.ab[0].kind == CONFIRMATION
    ensures LinkInv(Deliver(l))
  {
    hide Direction, SenderLoop, Confirmed, NothingEmpty, OfKind;
    var f := l.ab[0];
    RestOfLine(l.ab);
    ConfirmationNothingEmpty(l.b.tx, l.a.rc, OfKind(l.ba, PAYLOAD), f, OfKind(l.ab[1..], CONFIRMATION), l.sentB);
    ConfirmationArrives(l.b.tx, l.a.rc, OfKind(l.ba, PAYLOAD), f, OfKind(l.ab[1..], CONFIRMATION), l.sentB);
    ConfirmationConcernsSender(l.b, Arrived(f));
    ActSettles(l.b, Arrival(Arrived(f)));
    DirectionIgnoresMid(l.a.tx, l.b.rc, f.mid, OfKind(l.ab, PAYLOAD), OfKind(l.ba, CONFIRMATION), l.sentA);
    var (tx, out) := SenderLoop(Confirmed(l.b.tx, Arrived(f)), f.mid);
    var l' := Link(l.a, Station(tx, l.b.rc.(receivedMid := f.mid), true), l.ab[1..], l.ba + out, l.sentA, l.sentB);
    PayloadsWritten(l.ba, out);
    assert [] + out == out;
    assert LinkInv(l');
    assert Deliver(l) == l';
  }

  predicate Sendable(e: Event)
  {
    match e
    case SubmitA(m) => m.text != []
    case SubmitB(m) => m.text != []
    case _ => true
  }

  lemma DeliverKeeps(l: Link)
    requires LinkInv(l)
    ensures LinkInv(Deliver(l))
  {
    if l.ab != [] {
      if l.ab[0].kind == PAYLOAD {
        PayloadArrivalKeeps(l);
      } else {
        ConfirmationArrivalKeeps(l);
      }
    }
  }

  lemma StepKeeps(l: Link, e: Event)
    requires LinkInv(l) && Sendable(e)
    ensures LinkInv(Step(l, e))
  {
    MirrorKeeps(l);
    match e
    case SubmitA(m) => SubmitKeeps(l, m);
    case SubmitB(m) => SubmitKeeps(Mirror(l), m); MirrorKeeps(SubmitTo(Mirror(l), m));
    case ArriveAtB => DeliverKeeps(l);
    case ArriveAtA => DeliverKeeps(Mirror(l)); MirrorKeeps(Deliver(Mirror(l)));
  }

  // ---------------------------------------------------------------- over whole runs

  function Run(l: Link, events: seq<Event>): Link
    requires Usable(l)
    decreases |events|
  {
    if events == [] then l else Run(Step(l, events[0]), events[1..])
  }

  lemma {:induction false} RunKeeps(l: Link, events: seq<Event>)
    requires LinkInv(l) && forall e | e in events :: Sendable(e)
    ensures LinkInv(Run(l, events))
    decreases |events|
  {
    if events != [] {
      StepKeeps(l, events[0]);
      RunKeeps(Step(l, events[0]), events[1..]);
    }
  }

  /** What one side has delivered is a prefix of what the other side was given, byte for byte; the same for the task ids
      reported as sent; and when no frame of the direction is under way, nothing is missing. */
  lemma DeliveredSoFar(s: Sender, r: Receiver, pay: seq<Frame>, conf: seq<Frame>, sent: seq<Outgoing>)
    requires Direction(s, r, pay, conf, sent)
    ensures r.delivered <= Texts(sent) && s.announced <= OwnRequests(sent)
    ensures pay == [] && conf == [] ==> r.delivered == Texts(sent) && s.announced == OwnRequests(sent) && s.queue == []
  {
    TextsSplit(sent, s.started);
    if s.state == WaitForAck {
      TextsSplit(sent, s.started - 1);
      OwnRequestsSplit(sent, s.started - 1);
      var taken :| FrameUnderWay(s, r, pay, conf, sent, taken) || AckUnderWay(s, r, pay, conf, sent, taken);
    }
  }

  lemma TextsSplit(sent: seq<Outgoing>, n: nat)
    requires n <= |sent|
    ensures Texts(sent[..n]) <= Texts(sent)
  {
    assert sent[..n] + sent[n..] == sent;
    EachAppend((m: Outgoing) => m.text, sent[..n], sent[n..]);
  }

  lemma {:induction false} OwnRequestsSplit(sent: seq<Outgoing>, n: nat)
    requires n <= |sent|
    ensures OwnRequests(sent[..n]) <= OwnRequests(sent)
    decreases |sent| - n
  {
    if n < |sent| {
      OwnRequestsOfPrefix(sent, n);
      OwnRequestsSplit(sent, n + 1);
    } else {
      assert sent[..n] == sent;
    }
  }

  /** In every reachable state, both ways. */
  lemma Lossless(maxFrameSizeA: nat, maxFrameSizeB: nat, events: seq<Event>)
    requires maxFrameSizeA > 0 && maxFrameSizeB > 0 && forall e | e in events :: Sendable(e)
    ensures var l := Run(Connected(maxFrameSizeA, maxFrameSizeB), events);
            var sentA, sentB := SubmittedToA(events), SubmittedToB(events);
            && l.b.rc.delivered <= Texts(sentA) && l.a.rc.delivered <= Texts(sentB)
            && l.a.tx.announced <= OwnRequests(sentA) && l.b.tx.announced <= OwnRequests(sentB)
            && (l.ab == l.ba == [] ==>
                  && l.b.rc.delivered == Texts(sentA) && l.a.rc.delivered == Texts(sentB)
                  && l.a.tx.announced == OwnRequests(sentA) && l.b.tx.announced == OwnRequests(sentB)
                  && l.a.tx.queue == l.b.tx.queue == [])
  {
    hide Run, Direction, OfKind, Texts, OwnRequests;
    ConnectedKeeps(maxFrameSizeA, maxFrameSizeB);
    RunKeeps(Connected(maxFrameSizeA, maxFrameSizeB), events);
    SentFromStart(maxFrameSizeA, maxFrameSizeB, events);
    var l := Run(Connected(maxFrameSizeA, maxFrameSizeB), events);
    DeliveredSoFar(l.a.tx, l.b.rc, OfKind(l.ab, PAYLOAD), OfKind(l.ba, CONFIRMATION), l.sentA);
    DeliveredSoFar(l.b.tx, l.a.rc, OfKind(l.ba, PAYLOAD), OfKind(l.ab, CONFIRMATION), l.sentB);
    OfNothing(PAYLOAD);
    OfNothing(CONFIRMATION);
  }

  lemma OfNothing(kind: byte)
    ensures OfKind([], kind) == []
  {
  }

  lemma SentFromStart(maxFrameSizeA: nat, maxFrameSizeB: nat, events: seq<Event>)
    requires maxFrameSizeA > 0 && maxFrameSizeB > 0
    ensures Run(Connected(maxFrameSizeA, maxFrameSizeB), events).sentA == SubmittedToA(events)
    ensures Run(Connected(maxFrameSizeA, maxFrameSizeB), events).sentB == SubmittedToB(events)
  {
    hide Run, SubmittedToA, SubmittedToB;
    SentIsSubmitted(Connected(maxFrameSizeA, maxFrameSizeB), events);
    assert [] + SubmittedToA(events) == SubmittedToA(events) && [] + SubmittedToB(events) == SubmittedToB(events);
  }

  /** The messages A is given during `events`. */
  function SubmittedToA(events: seq<Event>): seq<Outgoing>
    decreases |events|
  {
    if events == [] then []
    else (if events[0].SubmitA? then [events[0].message] else []) + SubmittedToA(events[1..])
  }

  function SubmittedToB(events: seq<Event>): seq<Outgoing>
    decreases |events|
  {
    if events == [] then []
    else (if events[0].SubmitB? then [events[0].message] else []) + SubmittedToB(events[1..])
  }

  lemma {:induction false} SentIsSubmitted(l: Link, events: seq<Event>)
    requires Usable(l)
    ensures Run(l, events).sentA == l.sentA + SubmittedToA(events)
    ensures Run(l, events).sentB == l.sentB + SubmittedToB(events)
    decreases |events|
  {
    if events != [] {
      SentIsSubmitted(Step(l, events[0]), events[1..]);
    }
  }

  // ---------------------------------------------------------------- everything gets through

  /** The frames needed for the messages in the queue. */
  function QueuedFrames(queue: seq<Outgoing>, maxFrameSize: nat): nat
    requires maxFrameSize > 0
  {
    if queue == [] then 0 else FrameCount(|queue[0].text|, maxFrameSize) + QueuedFrames(queue[1..], maxFrameSize)
  }

  /** The arrivals one direction still needs. */
  function Pending(s: Sender, pay: seq<Frame>, conf: seq<Frame>): nat
    requires s.maxFrameSize > 0
  {
    2 * |pay| + |conf| + 2 * QueuedFrames(s.queue, s.maxFrameSize)
    + if s.state == Idle then 0 else 2 * FrameCount(|s.message.payload|, s.maxFrameSize)
  }

  /** The arrivals the link still needs until it is at rest. */
  function Work(l: Link): nat
    requires Usable(l)
  {
    Pending(l.a.tx, OfKind(l.ab, PAYLOAD), OfKind(l.ba, CONFIRMATION))
    + Pending(l.b.tx, OfKind(l.ba, PAYLOAD), OfKind(l.ab, CONFIRMATION))
  }

  lemma PayloadArrivalWork(s: Sender, r: Receiver, f: Frame, rest: seq<Frame>, conf: seq<Frame>, sent: seq<Outgoing>)
    requires Direction(s, r, [f] + rest, conf, sent)
    ensures var (r', out) := ReceiverLoop(TakePayload(r, Arrived(f)));
            Pending(s, [f] + rest, conf) == Pending(s, [], out) + 1
  {
    PayloadArrives(s, r, f, rest, conf, sent);
  }

  lemma SendingWork(s: Sender)
    requires s.maxFrameSize > 0 && s.message.payload != []
    ensures var (s', out) := SendNextFrame(s);
            Pending(s', out, []) == 2 * FrameCount(|s.message.payload|, s.maxFrameSize) + 2 * QueuedFrames(s.queue, s.maxFrameSize)
  {
    PopTakesFragment(s.message, s.maxFrameSize);
  }

  /** The work left once a message is complete. */
  lemma QueueWork(s: Sender, sent: seq<Outgoing>)
    requires s.maxFrameSize > 0 && s.state == Idle && (forall m | m in sent :: m.text != [])
    requires s.started <= |sent| && s.queue == sent[s.started..]
    ensures var (s', out) := SendFromQueue(s);
            Pending(s', out, []) == 2 * QueuedFrames(s.queue, s.maxFrameSize)
  {
    if s.queue != [] {
      var m := s.queue[0];
      assert m == sent[s.started];
      SendingWork(s.(message := ForSending(m.text, s.maxFrameSize), tid := m.tid, queue := s.queue[1..], started := s.started + 1));
    }
  }

  lemma ConfirmationIsAck(s: Sender, r: Receiver, pay: seq<Frame>, f: Frame, rest: seq<Frame>, sent: seq<Outgoing>)
    requires Direction(s, r, pay, [f] + rest, sent)
    ensures pay == rest == [] && s.state == WaitForAck && IsAck(Arrived(f)) && f.mid == s.needAckMid
    ensures s.message.numFrames - s.message.transceived == FrameCount(|s.message.payload|, s.maxFrameSize)
  {
    ConfirmationArrives(s, r, pay, f, rest, sent);
    var conf := [f] + rest;
    var taken :| FrameUnderWay(s, r, pay, conf, sent, taken) || AckUnderWay(s, r, pay, conf, sent, taken);
    assert conf[0] == f;
  }

  lemma ConfirmationArrivalWork(s: Sender, r: Receiver, pay: seq<Frame>, f: Frame, rest: seq<Frame>, sent: seq<Outgoing>)
    requires Direction(s, r, pay, [f] + rest, sent)
    ensures var (s', out) := SenderLoop(Confirmed(s, Arrived(f)), f.mid);
            Pending(s, pay, [f] + rest) == Pending(s', out, []) + 1
  {
    ConfirmationIsAck(s, r, pay, f, rest, sent);
    var s1 := Confirmed(s, Arrived(f)).(timerArmed := false, errors := 0, timeouts := 0, state := Idle);
    FrameCountStep(|s.message.payload|, s.maxFrameSize);
    if DataLeft(s.message) {
      SendingWork(s1);
    } else {
      QueueWork(Complete(s1), sent);
    }
  }

  lemma RestWithoutWork(s: Sender, r: Receiver, pay: seq<Frame>, conf: seq<Frame>, sent: seq<Outgoing>)
    requires Direction(s, r, pay, conf, sent)
    ensures Pending(s, pay, conf) == 0 <==> pay == [] && conf == []
  {
  }

  lemma PayloadArrivalLinkWork(l: Link)
    requires LinkInv(l) && l.ab != [] && l.ab[0].kind == PAYLOAD
    ensures Work(Deliver(l)) == Work(l) - 1
  {
    hide Direction, TakePayload, ReceiverLoop, OfKind, Pending;
    var f := l.ab[0];
    RestOfLine(l.ab);
    PayloadArrives(l.a.tx, l.b.rc, f, OfKind(l.ab[1..], PAYLOAD), OfKind(l.ba, CONFIRMATION), l.sentA);
    PayloadArrivesAtStation(l);
    var (rc, out) := ReceiverLoop(TakePayload(l.b.rc, Arrived(f)));
    ConfirmationsWritten(l.ba, out);
    assert [] + out == out;
    PayloadArrivalWork(l.a.tx, l.b.rc, f, OfKind(l.ab[1..], PAYLOAD), OfKind(l.ba, CONFIRMATION), l.sentA);
  }

  lemma PayloadArrivesAtStation(l: Link)
    requires LinkInv(l) && l.ab != [] && l.ab[0].kind == PAYLOAD
    ensures var (rc, out) := ReceiverLoop(TakePayload(l.b.rc, Arrived(l.ab[0])));
            Act(l.b, Arrival(Arrived(l.ab[0]))) == (Station(l.b.tx, rc, true), out)
  {
    var f := l.ab[0];
    RestOfLine(l.ab);
    PayloadArrives(l.a.tx, l.b.rc, f, OfKind(l.ab[1..], PAYLOAD), OfKind(l.ba, CONFIRMATION), l.sentA);
    PayloadConcernsReceiver(l.b, Arrived(f));
  }

  lemma ConfirmationArrivalLinkWork(l: Link)
    requires LinkInv(l) && l.ab != [] && l.ab[0].kind == CONFIRMATION
    ensures Work(Deliver(l)) == Work(l) - 1
  {
    hide Direction, SenderLoop, Confirmed, NothingEmpty, OfKind, Pending;
    var f := l.ab[0];
    RestOfLine(l.ab);
    ConfirmationArrives(l.b.tx, l.a.rc, OfKind(l.ba, PAYLOAD), f, OfKind(l.ab[1..], CONFIRMATION), l.sentB);
    ConfirmationNothingEmpty(l.b.tx, l.a.rc, OfKind(l.ba, PAYLOAD), f, OfKind(l.ab[1..], CONFIRMATION), l.sentB);
    ConfirmationConcernsSender(l.b, Arrived(f));
    var (tx, out) := SenderLoop(Confirmed(l.b.tx, Arrived(f)), f.mid);
    PayloadsWritten(l.ba, out);
    assert [] + out == out;
    ConfirmationArrivalWork(l.b.tx, l.a.rc, OfKind(l.ba, PAYLOAD), f, OfKind(l.ab[1..], CONFIRMATION), l.sentB);
  }

  lemma ArrivalWork(l: Link)
    requires LinkInv(l) && l.ab != []
    ensures Work(Deliver(l)) == Work(l) - 1
  {
    hide Work, Deliver, Direction;
    if l.ab[0].kind == PAYLOAD {
      PayloadArrivalLinkWork(l);
    } else {
      ConfirmationArrivalLinkWork(l);
    }
  }

  /** Every event is the arrival of a frame that is there. */
  predicate ArrivalsOnly(l: Link, events: seq<Event>)
    requires Usable(l)
    decreases |events|
  {
    events != [] ==>
      && ((events[0].ArriveAtB? && l.ab != []) || (events[0].ArriveAtA? && l.ba != []))
      && ArrivalsOnly(Step(l, events[0]), events[1..])
  }

  lemma {:induction false} ArrivalsWork(l: Link, events: seq<Event>)
    requires LinkInv(l) && ArrivalsOnly(l, events)
    ensures LinkInv(Run(l, events)) && |events| + Work(Run(l, events)) == Work(l)
    decreases |events|
  {
    if events != [] {
      StepKeeps(l, events[0]);
      MirrorKeeps(l);
      if events[0].ArriveAtB? {
        ArrivalWork(l);
      } else {
        ArrivalWork(Mirror(l));
      }
      ArrivalsWork(Step(l, events[0]), events[1..]);
    }
  }

  lemma AtRestWithoutWork(l: Link)
    requires LinkInv(l)
    ensures Work(l) == 0 <==> l.ab == [] && l.ba == []
  {
    RestWithoutWork(l.a.tx, l.b.rc, OfKind(l.ab, PAYLOAD), OfKind(l.ba, CONFIRMATION), l.sentA);
    RestWithoutWork(l.b.tx, l.a.rc, OfKind(l.ba, PAYLOAD), OfKind(l.ab, CONFIRMATION), l.sentB);
    if l.ab != [] {
      RestOfLine(l.ab);
    }
    if l.ba != [] {
      RestOfLine(l.ba);
    }
  }

  /** From any reachable state the frames can arrive in whatever order the two lines allow: after exactly `Work` arrivals,
      no more and no fewer, both lines are empty and everything is delivered. */
  lemma EverythingGetsThrough(l: Link, events: seq<Event>)
    requires LinkInv(l) && ArrivalsOnly(l, events)
    ensures var l' := Run(l, events);
            && |events| <= Work(l)
            && (l'.ab == l'.ba == [] <==> |events| == Work(l))
            && (|events| == Work(l) ==> l'.b.rc.delivered == Texts(l.sentA) && l'.a.rc.delivered == Texts(l.sentB))
  {
    ArrivalsWork(l, events);
    var l' := Run(l, events);
    AtRestWithoutWork(l');
    SentIsSubmitted(l, events);
    NothingSubmitted(l, events);
    if |events| == Work(l) {
      DeliveredSoFar(l'.a.tx, l'.b.rc, [], [], l'.sentA);
      DeliveredSoFar(l'.b.tx, l'.a.rc, [], [], l'.sentB);
    }
  }

  lemma {:induction false} NothingSubmitted(l: Link, events: seq<Event>)
    requires Usable(l) && ArrivalsOnly(l, events)
    ensures SubmittedToA(events) == [] && SubmittedToB(events) == []
    decreases |events|
  {
    if events != [] {
      NothingSubmitted(Step(l, events[0]), events[1..]);
    }
  }
}

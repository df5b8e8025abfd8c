/** The same link byte by byte: stations that see one byte at a time behave as stations that see whole frames. */
module SerialBytes {
  import opened Bytes
  import opened SerialRx
  import opened SerialFrames
  import opened SerialMessages
  import opened SerialStation
  import opened SerialLossless

  // ---------------------------------------------------------------- what a station writes can be transmitted

  /** What the frame format can carry: no stop byte, and few enough frames for the four-digit fields. */
  predicate SendableText(text: seq<byte>, maxFrameSize: nat)
  {
    maxFrameSize > 0 && text != [] && STOP !in text && FrameCount(|text|, maxFrameSize) < NUMBER_LIMIT
  }

  predicate NumbersFit(mid: int, index: int, number: int)
  {
    0 <= mid < NUMBER_LIMIT && 0 <= index < NUMBER_LIMIT && 0 <= number < NUMBER_LIMIT
  }

  predicate MessageFits(m: Message, maxFrameSize: nat)
  {
    && maxFrameSize > 0 && STOP !in m.payload
    && 0 <= m.transceived <= m.numFrames < NUMBER_LIMIT
    && m.numFrames - m.transceived == FrameCount(|m.payload|, maxFrameSize)
  }

  predicate SenderFits(s: Sender)
  {
    && (forall m | m in s.queue :: SendableText(m.text, s.maxFrameSize))
    && MessageFits(s.message, s.maxFrameSize)
    && (s.state == WaitForAck ==> Transmittable(s.sentFrame))
  }

  /** With `Settled`, enough for everything the station writes to be transmittable. */
  predicate Fits(st: Station)
  {
    SenderFits(st.tx) && NumbersFit(st.rc.receivedMid, st.rc.ackIndex, st.rc.ackNumber)
  }

  predicate AllTransmittable(fs: seq<Frame>)
  {
    forall f | f in fs :: Transmittable(f)
  }

  lemma NextFrameFits(s: Sender)
    requires SenderFits(s.(state := Idle)) && s.message.payload != [] && s.currentMid == s.serial % MID_LIMIT
    ensures SenderFits(SendNextFrame(s).0) && AllTransmittable(SendNextFrame(s).1)
  {
    PopTakesFragment(s.message, s.maxFrameSize);
    var m := Popped(s.message, s.maxFrameSize);
    assert forall b | b in m.framePayload :: b in s.message.payload;
    assert forall b | b in m.payload :: b in s.message.payload;
  }

  lemma QueueFits(s: Sender)
    requires SenderFits(s) && s.state == Idle && s.currentMid == s.serial % MID_LIMIT
    ensures SenderFits(SendFromQueue(s).0) && AllTransmittable(SendFromQueue(s).1)
  {
    if s.queue != [] {
      var m := s.queue[0];
      assert m in s.queue;
      FrameCountStep(|m.text|, s.maxFrameSize);
      NextFrameFits(s.(message := ForSending(m.text, s.maxFrameSize), tid := m.tid, queue := s.queue[1..], started := s.started + 1));
    }
  }

  lemma SenderLoopFits(s: Sender, receivedMid: int)
    requires SenderFits(s.(state := if s.state == Idle then Idle else WaitForAck)) && s.currentMid == s.serial % MID_LIMIT
    ensures SenderFits(SenderLoop(s, receivedMid).0) && AllTransmittable(SenderLoop(s, receivedMid).1)
  {
    FrameCountStep(|s.message.payload|, s.maxFrameSize);
    if s.state == Idle {
      QueueFits(s);
    } else if s.state == GotAck && receivedMid == s.needAckMid {
      var s1 := s.(timerArmed := false, errors := 0, timeouts := 0, state := Idle);
      if DataLeft(s.message) {
        NextFrameFits(s1);
      } else {
        QueueFits(Complete(s1));
      }
    }
  }

  lemma ConfirmationFits(r: Receiver, content: seq<byte>)
    requires NumbersFit(r.receivedMid, r.ackIndex, r.ackNumber) && content != [] && STOP !in content
    ensures Transmittable(Confirmation(r, content))
  {
  }

  lemma ReceiverLoopFits(r: Receiver)
    requires NumbersFit(r.receivedMid, r.ackIndex, r.ackNumber)
    ensures AllTransmittable(ReceiverLoop(r).1)
    ensures var r' := ReceiverLoop(r).0; NumbersFit(r'.receivedMid, r'.ackIndex, r'.ackNumber)
  {
    ConfirmationFits(r, [ACK]);
    ConfirmationFits(r, [NAK] + CODE_CS);
  }

  predicate InputFits(st: Station, input: Input)
  {
    match input
    case Submit(m) => SendableText(m.text, st.tx.maxFrameSize)
    case Arrival(f) => NumbersFit(f.mid, f.index, f.number)
    case _ => true
  }

  lemma SendLoopFits(st: Station)
    requires SenderFits(st.tx.(state := if st.tx.state == Idle then Idle else WaitForAck))
    requires st.tx.currentMid == st.tx.serial % MID_LIMIT
    requires NumbersFit(st.rc.receivedMid, st.rc.ackIndex, st.rc.ackNumber)
    ensures Fits(SendLoop(st).0) && AllTransmittable(SendLoop(st).1)
  {
    SenderLoopFits(st.tx, st.rc.receivedMid);
    ReceiverLoopFits(st.rc);
  }

  lemma ArrivalFits(st: Station, f: Received)
    requires Settled(st) && Fits(st) && st.alive && NumbersFit(f.mid, f.index, f.number)
    ensures Fits(Act(st, Arrival(f)).0) && AllTransmittable(Act(st, Arrival(f)).1)
  {
    if f.kind == PAYLOAD {
      if !f.intact {
        SendLoopFits(st.(rc := Refuse(st.rc, f)));
      } else if f.content != [] {
        SendLoopFits(st.(rc := TakePayload(st.rc, f)));
      }
    } else if f.intact {
      SendLoopFits(st.(rc := st.rc.(receivedMid := f.mid), tx := Confirmed(st.tx, f)));
    }
  }

  lemma TimeoutFits(s: Sender)
    requires SenderSettled(s) && SenderFits(s) && s.timerArmed
    ensures SenderFits(OnTimeout(s).0) && AllTransmittable(OnTimeout(s).1)
  {
    FrameCountStep(0, s.maxFrameSize);
  }

  /** A station that is given sendable texts, whatever else happens to it, writes only frames the format can carry. */
  lemma ActFits(st: Station, input: Input)
    requires Settled(st) && Fits(st) && InputFits(st, input)
    ensures Fits(Act(st, input).0) && AllTransmittable(Act(st, input).1)
  {
    if st.alive {
      match input
      case Submit(m) => SendLoopFits(st.(tx := st.tx.(queue := st.tx.queue + [m])));
      case Arrival(f) => ArrivalFits(st, f);
      case ConfirmationTimeout => if st.tx.timerArmed { TimeoutFits(st.tx); }
      case StrayByte => ConfirmationFits(st.rc.(ackIndex := 1, ackNumber := 1), [NAK] + CODE_NF);
      case FrameTimeout => ConfirmationFits(st.rc, [NAK] + CODE_FTO);
    }
  }

  // ---------------------------------------------------------------- bytes of frames on a line

  /** The automaton `rx` is `k` bytes into the first of `raws`, and `bytes` are what is still to come. */
  predicate Underway(rx: Rx, raws: seq<seq<byte>>, bytes: seq<byte>, k: nat)
  {
    if raws == [] then k == 0 && rx.state == WaitForStart && bytes == []
    else At(rx, raws[0], k) && bytes == raws[0][k..] + Join(raws[1..])
  }

  predicate AllFrameShaped(raws: seq<seq<byte>>)
  {
    forall raw | raw in raws :: FrameShaped(raw)
  }

  lemma FirstByte(rx: Rx, raws: seq<seq<byte>>, bytes: seq<byte>, k: nat)
    requires Underway(rx, raws, bytes, k) && bytes != []
    ensures raws != [] && bytes[0] == raws[0][k] && bytes[1..] == raws[0][k + 1..] + Join(raws[1..])
  {
  }

  /** A byte arrives: either it is one inside the frame, or it completes the frame. */
  lemma ByteArrives(rx: Rx, raws: seq<seq<byte>>, bytes: seq<byte>, k: nat)
    requires Underway(rx, raws, bytes, k) && bytes != [] && AllFrameShaped(raws)
    ensures raws != []
    ensures var (rx', events) := RxStep(rx, bytes[0]);
            if k + 1 < |raws[0]| then events == [] && Underway(rx', raws, bytes[1..], k + 1)
            else events == [WholeFrame(raws[0])] && Underway(rx', raws[1..], bytes[1..], 0)
  {
    FirstByte(rx, raws, bytes, k);
    assert raws[0] in raws;
    StepWithin(raws[0], rx, k);
    if k + 1 == |raws[0]| {
      assert bytes[1..] == Join(raws[1..]);
      if |raws| > 1 {
        assert raws[1] in raws;
        assert raws[1][0..] == raws[1] && raws[1..][1..] == raws[2..];
      }
    }
  }

  lemma LineGrows(rx: Rx, raws: seq<seq<byte>>, bytes: seq<byte>, k: nat, more: seq<seq<byte>>)
    requires Underway(rx, raws, bytes, k) && AllFrameShaped(more)
    ensures Underway(rx, raws + more, bytes + Join(more), k)
  {
    if raws == [] {
      assert raws + more == more && bytes + Join(more) == Join(more);
      if more != [] {
        assert more[0] in more;
        assert more[0][0..] == more[0];
      }
    } else {
      assert (raws + more)[1..] == raws[1..] + more;
      JoinAppend(raws[1..], more);
      assert bytes + Join(more) == raws[0][k..] + (Join(raws[1..]) + Join(more));
    }
  }

  // ---------------------------------------------------------------- stations that hear bytes

  /** Two stations and the bytes under way between them. */
  datatype Wire = Wire(a: Station, b: Station, rxA: Rx, rxB: Rx, ab: seq<byte>, ba: seq<byte>,
                       sentA: seq<Outgoing>, sentB: seq<Outgoing>)

  datatype ByteEvent = GiveA(message: Outgoing) | GiveB(message: Outgoing) | ByteAtA | ByteAtB

  predicate WireUsable(w: Wire)
  {
    w.a.tx.maxFrameSize > 0 && w.b.tx.maxFrameSize > 0 && RxValid(w.rxA) && RxValid(w.rxB)
  }

  predicate SameSizes(w: Wire, w': Wire)
  {
    w.a.tx.maxFrameSize == w'.a.tx.maxFrameSize && w.b.tx.maxFrameSize == w'.b.tx.maxFrameSize
  }

  function MirrorWire(w: Wire): Wire
  {
    Wire(w.b, w.a, w.rxB, w.rxA, w.ba, w.ab, w.sentB, w.sentA)
  }

  function GiveTo(w: Wire, m: Outgoing): (w': Wire)
    requires WireUsable(w)
    ensures WireUsable(w') && SameSizes(w, w')
  {
    var (a, out) := Act(w.a, Submit(m));
    w.(a := a, ab := w.ab + EncodeAll(out), sentA := w.sentA + [m])
  }

  /** The first byte on the line from A to B arrives. */
  function DeliverByte(w: Wire, read: seq<byte> -> Numbers): (w': Wire)
    requires WireUsable(w)
    ensures WireUsable(w') && SameSizes(w, w')
  {
    if w.ab == [] then w
    else
      var (b, rxB, out) := Hear(w.b, w.rxB, w.ab[0], read);
      w.(b := b, rxB := rxB, ab := w.ab[1..], ba := w.ba + out)
  }

  function ByteStep(w: Wire, e: ByteEvent, read: seq<byte> -> Numbers): (w': Wire)
    requires WireUsable(w)
    ensures WireUsable(w') && SameSizes(w, w')
  {
    match e
    case GiveA(m) => GiveTo(w, m)
    case GiveB(m) => MirrorWire(GiveTo(MirrorWire(w), m))
    case ByteAtB => DeliverByte(w, read)
    case ByteAtA => MirrorWire(DeliverByte(MirrorWire(w), read))
  }

  function Wired(maxFrameSizeA: nat, maxFrameSizeB: nat): Wire
  {
    Wire(Initial(maxFrameSizeA), Initial(maxFrameSizeB), Rx(WaitForStart, []), Rx(WaitForStart, []), [], [], [], [])
  }

  // ---------------------------------------------------------------- bytes refine frames

  /** The wire `w` is the link `l` seen byte by byte: `k` bytes into the first frame one way, `j` the other way. */
  ghost predicate Represents(w: Wire, l: Link, k: nat, j: nat)
  {
    && w.a == l.a && w.b == l.b && w.sentA == l.sentA && w.sentB == l.sentB
    && Underway(w.rxB, Each(Encode, l.ab), w.ab, k)
    && Underway(w.rxA, Each(Encode, l.ba), w.ba, j)
  }

  ghost predicate LinkFits(l: Link)
  {
    LinkInv(l) && Fits(l.a) && Fits(l.b) && AllTransmittable(l.ab) && AllTransmittable(l.ba)
  }

  lemma AllEncodedFrameShaped(fs: seq<Frame>)
    requires AllTransmittable(fs)
    ensures AllFrameShaped(Each(Encode, fs))
  {
    var shaped := (raw: seq<byte>) => FrameShaped(raw);
    forall f | f in fs
      ensures shaped(Encode(f))
    {
      EncodeFrameShaped(f);
    }
    EachSatisfies(Encode, fs, shaped);
    forall raw | raw in Each(Encode, fs)
      ensures FrameShaped(raw)
    {
      assert shaped(raw);
    }
  }

  lemma FramesWritten(rx: Rx, line: seq<Frame>, bytes: seq<byte>, k: nat, out: seq<Frame>)
    requires Underway(rx, Each(Encode, line), bytes, k) && AllTransmittable(out)
    ensures Underway(rx, Each(Encode, line + out), bytes + EncodeAll(out), k)
  {
    AllEncodedFrameShaped(out);
    EachAppend(Encode, line, out);
    LineGrows(rx, Each(Encode, line), bytes, k, Each(Encode, out));
  }

  /** One byte at a station is either a step inside a frame, or the arrival of the frame as a whole. */
  lemma HearRefines(st: Station, rx: Rx, line: seq<Frame>, bytes: seq<byte>, k: nat, read: seq<byte> -> Numbers)
    requires st.tx.maxFrameSize > 0 && RxValid(rx) && ReadsNumbers(read)
    requires AllTransmittable(line) && Underway(rx, Each(Encode, line), bytes, k) && bytes != []
    ensures line != []
    ensures var (st', rx', out) := Hear(st, rx, bytes[0], read);
            if k + 1 < |Encode(line[0])|
            then st' == st && out == [] && Underway(rx', Each(Encode, line), bytes[1..], k + 1)
            else st' == Act(st, Arrival(Arrived(line[0]))).0 && out == EncodeAll(Act(st, Arrival(Arrived(line[0]))).1)
                 && Underway(rx', Each(Encode, line[1..]), bytes[1..], 0)
  {
    AllEncodedFrameShaped(line);
    ByteArrives(rx, Each(Encode, line), bytes, k);
    ReadEncoded(line[0], read);
    HearsWhole(st, rx, bytes[0], Encode(line[0]), Arrived(line[0]), read);
    EachTail(line);
  }

  lemma HearInside(st: Station, rx: Rx, line: seq<Frame>, bytes: seq<byte>, k: nat, read: seq<byte> -> Numbers)
    requires st.tx.maxFrameSize > 0 && RxValid(rx) && ReadsNumbers(read)
    requires AllTransmittable(line) && Underway(rx, Each(Encode, line), bytes, k) && bytes != []
    requires line != [] && k + 1 < |Encode(line[0])|
    ensures var (st', rx', out) := Hear(st, rx, bytes[0], read);
            st' == st && out == [] && Underway(rx', Each(Encode, line), bytes[1..], k + 1)
  {
    HearRefines(st, rx, line, bytes, k, read);
  }

  lemma EachTail(line: seq<Frame>)
    requires line != []
    ensures Each(Encode, line)[0] == Encode(line[0]) && Each(Encode, line)[1..] == Each(Encode, line[1..])
  {
  }

  lemma HearsWhole(st: Station, rx: Rx, b: byte, raw: seq<byte>, f: Received, read: seq<byte> -> Numbers)
    requires st.tx.maxFrameSize > 0 && RxValid(rx)
    requires |raw| > HEADER_SIZE && Read(raw, read) == f
    ensures var (st', rx', out) := Hear(st, rx, b, read);
            var (rx1, events) := RxStep(rx, b);
            && rx' == rx1
            && (events == [] ==> st' == st && out == [])
            && (events == [WholeFrame(raw)] ==> st' == Act(st, Arrival(f)).0 && out == EncodeAll(Act(st, Arrival(f)).1))
  {
  }

  lemma LinkDeliverFits(l: Link)
    requires LinkFits(l)
    ensures LinkFits(Deliver(l))
  {
    DeliverKeeps(l);
    if l.ab != [] {
      var f := l.ab[0];
      assert Transmittable(f);
      ActFits(l.b, Arrival(Arrived(f)));
    }
  }

  lemma LinkSubmitFits(l: Link, m: Outgoing)
    requires LinkFits(l) && SendableText(m.text, l.a.tx.maxFrameSize)
    ensures LinkFits(SubmitTo(l, m))
  {
    SubmitKeeps(l, m);
    ActFits(l.a, Submit(m));
  }

  lemma MirrorFits(l: Link)
    requires LinkFits(l)
    ensures LinkFits(Mirror(l)) && Mirror(Mirror(l)) == l
  {
    MirrorKeeps(l);
  }

  lemma GiveRefines(w: Wire, l: Link, k: nat, j: nat, m: Outgoing)
    requires Represents(w, l, k, j) && LinkFits(l) && WireUsable(w) && SendableText(m.text, l.a.tx.maxFrameSize)
    ensures Represents(GiveTo(w, m), SubmitTo(l, m), k, j)
  {
    ActFits(l.a, Submit(m));
    FramesWritten(w.rxB, l.ab, w.ab, k, Act(l.a, Submit(m)).1);
  }

  lemma DeliverWhole(w: Wire, l: Link, k: nat, j: nat, read: seq<byte> -> Numbers)
    requires Represents(w, l, k, j) && LinkFits(l) && WireUsable(w) && ReadsNumbers(read)
    requires w.ab != [] && l.ab != [] && k + 1 >= |Encode(l.ab[0])|
    ensures Represents(DeliverByte(w, read), Deliver(l), 0, j)
  {
    HearRefines(w.b, w.rxB, l.ab, w.ab, k, read);
    var f := Arrived(l.ab[0]);
    assert Transmittable(l.ab[0]);
    ActFits(l.b, Arrival(f));
    var (b, out) := Act(l.b, Arrival(f));
    FramesWritten(w.rxA, l.ba, w.ba, j, out);
    var l' := Link(l.a, b, l.ab[1..], l.ba + out, l.sentA, l.sentB);
    assert Deliver(l) == l';
  }

  lemma DeliverInside(w: Wire, l: Link, k: nat, j: nat, read: seq<byte> -> Numbers)
    requires Represents(w, l, k, j) && LinkFits(l) && WireUsable(w) && ReadsNumbers(read)
    requires w.ab != [] && l.ab != [] && k + 1 < |Encode(l.ab[0])|
    ensures Represents(DeliverByte(w, read), l, k + 1, j)
  {
    HearInside(w.b, w.rxB, l.ab, w.ab, k, read);
    var w' := DeliverByte(w, read);
    var (b, rxB, out) := Hear(w.b, w.rxB, w.ab[0], read);
    assert w' == w.(b := b, rxB := rxB, ab := w.ab[1..], ba := w.ba + out);
    assert w'.ba == w.ba && w'.b == w.b;
    assert Underway(w'.rxB, Each(Encode, l.ab), w'.ab, k + 1);
  }

  lemma DeliverNothing(w: Wire, read: seq<byte> -> Numbers)
    requires WireUsable(w) && w.ab == []
    ensures DeliverByte(w, read) == w
  {
  }

  lemma SomethingUnderway(rx: Rx, line: seq<Frame>, bytes: seq<byte>, k: nat)
    requires Underway(rx, Each(Encode, line), bytes, k) && bytes != []
    ensures line != []
  {
  }

  lemma DeliverRefines(w: Wire, l: Link, k: nat, j: nat, read: seq<byte> -> Numbers) returns (l': Link, k': nat)
    requires Represents(w, l, k, j) && LinkFits(l) && WireUsable(w) && ReadsNumbers(read)
    ensures Represents(DeliverByte(w, read), l', k', j) && (l' == l || l' == Deliver(l))
  {
    hide DeliverByte, Deliver, LinkFits, Encode, Underway;
    if w.ab == [] {
      DeliverNothing(w, read);
      return l, k;
    }
    SomethingUnderway(w.rxB, l.ab, w.ab, k);
    if k + 1 < |Encode(l.ab[0])| {
      DeliverInside(w, l, k, j, read);
      return l, k + 1;
    }
    DeliverWhole(w, l, k, j, read);
    return Deliver(l), 0;
  }

  predicate CanGive(w: Wire, e: ByteEvent)
  {
    match e
    case GiveA(m) => SendableText(m.text, w.a.tx.maxFrameSize)
    case GiveB(m) => SendableText(m.text, w.b.tx.maxFrameSize)
    case _ => true
  }

  /** Every step of the wire is a step of the link, or none. */
  lemma ByteStepRefines(w: Wire, l: Link, k: nat, j: nat, e: ByteEvent, read: seq<byte> -> Numbers)
    returns (l': Link, k': nat, j': nat)
    requires Represents(w, l, k, j) && LinkFits(l) && WireUsable(w) && ReadsNumbers(read) && CanGive(w, e)
    ensures Represents(ByteStep(w, e, read), l', k', j') && LinkFits(l')
  {
    MirrorFits(l);
    match e
    case GiveA(m) =>
      GiveRefines(w, l, k, j, m);
      LinkSubmitFits(l, m);
      return SubmitTo(l, m), k, j;
    case GiveB(m) =>
      GiveRefines(MirrorWire(w), Mirror(l), j, k, m);
      LinkSubmitFits(Mirror(l), m);
      MirrorFits(SubmitTo(Mirror(l), m));
      return Mirror(SubmitTo(Mirror(l), m)), k, j;
    case ByteAtB =>
      LinkDeliverFits(l);
      l', k' := DeliverRefines(w, l, k, j, read);
      j' := j;
    case ByteAtA =>
      LinkDeliverFits(Mirror(l));
      MirrorFits(Deliver(Mirror(l)));
      l', j' := DeliverRefines(MirrorWire(w), Mirror(l), j, k, read);
      l' := Mirror(l');
      k' := k;
  }

  // ---------------------------------------------------------------- over whole runs

  function RunBytes(w: Wire, events: seq<ByteEvent>, read: seq<byte> -> Numbers): Wire
    requires WireUsable(w)
    decreases |events|
  {
    if events == [] then w else RunBytes(ByteStep(w, events[0], read), events[1..], read)
  }

  predicate AllCanGive(w: Wire, events: seq<ByteEvent>)
  {
    forall e | e in events :: CanGive(w, e)
  }

  lemma StillCanGive(w: Wire, w': Wire, events: seq<ByteEvent>)
    requires AllCanGive(w, events) && events != [] && SameSizes(w, w')
    ensures AllCanGive(w', events[1..])
  {
    forall e | e in events[1..]
      ensures CanGive(w', e)
    {
      assert e in events;
      assert CanGive(w, e);
    }
  }

  lemma {:induction false} RunBytesRefines(w: Wire, l: Link, k: nat, j: nat, events: seq<ByteEvent>, read: seq<byte> -> Numbers)
    returns (l': Link, k': nat, j': nat)
    requires Represents(w, l, k, j) && LinkFits(l) && WireUsable(w) && ReadsNumbers(read) && AllCanGive(w, events)
    ensures Represents(RunBytes(w, events, read), l', k', j') && LinkFits(l')
    decreases |events|
  {
    if events == [] {
      return l, k, j;
    }
    assert events[0] in events;
    var w1 := ByteStep(w, events[0], read);
    var l1, k1, j1 := ByteStepRefines(w, l, k, j, events[0], read);
    StillCanGive(w, w1, events);
    l', k', j' := RunBytesRefines(w1, l1, k1, j1, events[1..], read);
  }

  lemma WiredRepresents(maxFrameSizeA: nat, maxFrameSizeB: nat)
    requires maxFrameSizeA > 0 && maxFrameSizeB > 0
    ensures var w, l := Wired(maxFrameSizeA, maxFrameSizeB), Connected(maxFrameSizeA, maxFrameSizeB);
            Represents(w, l, 0, 0) && LinkFits(l)
  {
    ConnectedKeeps(maxFrameSizeA, maxFrameSizeB);
    FrameCountStep(0, maxFrameSizeA);
    FrameCountStep(0, maxFrameSizeB);
  }

  lemma NothingUnderway(rx: Rx, line: seq<Frame>, k: nat)
    requires Underway(rx, Each(Encode, line), [], k)
    ensures line == []
  {
  }

  /** What a represented link says of a wire. */
  lemma Delivered(w: Wire, l: Link, k: nat, j: nat)
    requires Represents(w, l, k, j) && LinkInv(l)
    ensures w.b.rc.delivered <= Texts(w.sentA) && w.a.rc.delivered <= Texts(w.sentB)
    ensures w.ab == w.ba == [] ==>
              && w.b.rc.delivered == Texts(w.sentA) && w.a.rc.delivered == Texts(w.sentB)
              && w.a.tx.announced == OwnRequests(w.sentA) && w.b.tx.announced == OwnRequests(w.sentB)
  {
    if w.ab == w.ba == [] {
      NothingUnderway(w.rxB, l.ab, k);
      NothingUnderway(w.rxA, l.ba, j);
    }
    DeliveredSoFar(l.a.tx, l.b.rc, OfKind(l.ab, PAYLOAD), OfKind(l.ba, CONFIRMATION), l.sentA);
    DeliveredSoFar(l.b.tx, l.a.rc, OfKind(l.ba, PAYLOAD), OfKind(l.ab, CONFIRMATION), l.sentB);
  }

  /** The messages A is given during `events`. */
  function GivenToA(events: seq<ByteEvent>): seq<Outgoing>
    decreases |events|
  {
    if events == [] then []
    else (if events[0].GiveA? then [events[0].message] else []) + GivenToA(events[1..])
  }

  function GivenToB(events: seq<ByteEvent>): seq<Outgoing>
    decreases |events|
  {
    if events == [] then []
    else (if events[0].GiveB? then [events[0].message] else []) + GivenToB(events[1..])
  }

  lemma ByteStepSent(w: Wire, e: ByteEvent, read: seq<byte> -> Numbers)
    requires WireUsable(w)
    ensures ByteStep(w, e, read).sentA == w.sentA + (if e.GiveA? then [e.message] else [])
    ensures ByteStep(w, e, read).sentB == w.sentB + (if e.GiveB? then [e.message] else [])
  {
    hide Act, Hear, EncodeAll;
  }

  lemma {:induction false} SentIsGiven(w: Wire, events: seq<ByteEvent>, read: seq<byte> -> Numbers)
    requires WireUsable(w)
    ensures RunBytes(w, events, read).sentA == w.sentA + GivenToA(events)
    ensures RunBytes(w, events, read).sentB == w.sentB + GivenToB(events)
    decreases |events|
  {
    hide ByteStep;
    if events != [] {
      ByteStepSent(w, events[0], read);
      SentIsGiven(ByteStep(w, events[0], read), events[1..], read);
    }
  }

  /** The promise of the serial link, byte by byte: whatever the two sides are given to send and in whatever portions the
      bytes arrive, what each side has delivered is a prefix of what the other was given; and once no byte is under way,
      everything is delivered and every own request is reported as sent. */
  lemma LosslessBytes(maxFrameSizeA: nat, maxFrameSizeB: nat, events: seq<ByteEvent>, read: seq<byte> -> Numbers)
    requires maxFrameSizeA > 0 && maxFrameSizeB > 0 && ReadsNumbers(read)
    requires AllCanGive(Wired(maxFrameSizeA, maxFrameSizeB), events)
    ensures var sentA, sentB := GivenToA(events), GivenToB(events);
            var w := RunBytes(Wired(maxFrameSizeA, maxFrameSizeB), events, read);
            && w.b.rc.delivered <= Texts(sentA) && w.a.rc.delivered <= Texts(sentB)
            && (w.ab == w.ba == [] ==>
                  && w.b.rc.delivered == Texts(sentA) && w.a.rc.delivered == Texts(sentB)
                  && w.a.tx.announced == OwnRequests(sentA) && w.b.tx.announced == OwnRequests(sentB))
  {
    hide RunBytes, Represents, LinkInv, AllCanGive;
    var w0 := Wired(maxFrameSizeA, maxFrameSizeB);
    SentIsGiven(w0, events, read);
    assert [] + GivenToA(events) == GivenToA(events) && [] + GivenToB(events) == GivenToB(events);
    WiredRepresents(maxFrameSizeA, maxFrameSizeB);
    var l, k, j := RunBytesRefines(w0, Connected(maxFrameSizeA, maxFrameSizeB), 0, 0, events, read);
    Delivered(RunBytes(w0, events, read), l, k, j);
  }
}

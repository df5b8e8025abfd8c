/** Where the guarantees of the lossy link end: acknowledgements older than the mid cycle, and messages of several frames. */
module SerialLimits {
  import opened Bytes
  import opened SerialRx
  import opened SerialFrames
  import opened SerialMessages
  import opened SerialStation
  import opened SerialLossy

  lemma {:induction false} RunConcat(l: Link, a: seq<Event>, b: seq<Event>)
    requires Usable(l)
    ensures Run(l, a + b) == Run(Run(l, a), b)
    ensures AllAllowed(l, a + b) <==> AllAllowed(l, a) && AllAllowed(Run(l, a), b)
    decreases |a|
  {
    if a == [] {
      assert a + b == b;
    } else {
      assert (a + b)[1..] == a[1..] + b && (a + b)[0] == a[0];
      RunConcat(Step(l, a[0]), a[1..], b);
    }
  }

  lemma RunOne(l: Link, e: Event)
    requires Usable(l)
    ensures Run(l, [e]) == Step(l, e) && (AllAllowed(l, [e]) <==> Allowed(l, e))
  {
    assert [e][1..] == [];
  }

  /** Some allowed run leads from `l` to `l'`. */
  ghost predicate Reaches(l: Link, l': Link)
    requires Usable(l)
  {
    exists events :: Run(l, events) == l' && AllAllowed(l, events)
  }

  lemma ReachesSelf(l: Link)
    requires Usable(l)
    ensures Reaches(l, l)
  {
    assert Run(l, []) == l && AllAllowed(l, []);
  }

  lemma ReachesStep(l: Link, e: Event)
    requires LinkInv(l) && Allowed(l, e)
    ensures Reaches(l, Step(l, e)) && LinkInv(Step(l, e))
  {
    RunOne(l, e);
    StepKeeps(l, e);
  }

  lemma ReachesOn(l: Link, l1: Link, l2: Link)
    requires Usable(l) && Usable(l1) && Reaches(l, l1) && Reaches(l1, l2)
    ensures Reaches(l, l2)
  {
    var a :| Run(l, a) == l1 && AllAllowed(l, a);
    var b :| Run(l1, b) == l2 && AllAllowed(l1, b);
    RunConcat(l, a, b);
  }

  lemma ReachesTwo(l: Link, e1: Event, e2: Event)
    requires LinkInv(l) && Allowed(l, e1) && Allowed(Step(l, e1), e2)
    ensures var l' := Step(Step(l, e1), e2); Reaches(l, l') && LinkInv(l')
  {
    ReachesStep(l, e1);
    ReachesStep(Step(l, e1), e2);
    ReachesOn(l, Step(l, e1), Step(Step(l, e1), e2));
  }

  // ---------------------------------------------------------------- an acknowledgement that comes too late

  /** Nothing but A's sender has moved, and its line is empty. */
  predicate OnlySenderMoved(l: Link, l': Link)
  {
    && l'.b == l.b && l'.ba == l.ba && l'.ab == [] && l'.sentB == l.sentB && l'.gotA == l.gotA && l'.gotB == l.gotB
    && l'.a.rc == l.a.rc && l'.a.tx.completed == l.a.tx.completed && l'.a.tx.queue == []
    && l'.a.tx.maxFrameSize == l.a.tx.maxFrameSize
  }

  /** A has nothing to send, and its line is empty. */
  predicate AtRest(l: Link)
  {
    LinkInv(l) && l.a.tx.state == Idle && l.a.tx.queue == [] && l.ab == [] && l.a.tx.timeouts == 0
  }

  /** A waits in vain: its frame is lost. */
  predicate InVain(l: Link, timeouts: nat)
  {
    LinkInv(l) && l.a.tx.state == WaitForAck && l.a.tx.queue == [] && l.ab == [] && l.a.tx.timeouts == timeouts
  }

  lemma GivenAndLost(l: Link, m: Outgoing) returns (l': Link)
    requires AtRest(l) && SingleFrame(m, l.a.tx.maxFrameSize)
    ensures Reaches(l, l') && InVain(l', 0) && OnlySenderMoved(l, l')
    ensures l'.sentA == l.sentA + [m] && l'.a.tx.started == l.a.tx.started + 1
  {
    hide Run, AllAllowed;
    ReachesTwo(l, AtA(Give(m)), AtB(Lost));
    l' := Step(Step(l, AtA(Give(m))), AtB(Lost));
    assert l.sentA[l.a.tx.started..] == [];
    assert l.gotA + [] == l.gotA;
  }

  lemma Repeated(l: Link, timeouts: nat) returns (l': Link)
    requires InVain(l, timeouts) && timeouts < TIMEOUT_MAX - 1
    ensures Reaches(l, l') && LinkInv(l') && |l'.ab| == 1 && OnlySenderMoved(l, l'.(ab := []))
    ensures l'.a.tx.state == WaitForAck && l'.a.tx.timeouts == timeouts + 1
    ensures l'.sentA == l.sentA && l'.a.tx.started == l.a.tx.started
  {
    hide Run, AllAllowed, Reaches;
    ReachesStep(l, AtA(Timeout));
    l' := Step(l, AtA(Timeout));
    hide LinkInv;
    assert l.sentA + [] == l.sentA && l.gotA + [] == l.gotA;
  }

  lemma LineLost(l: Link) returns (l': Link)
    requires LinkInv(l) && |l.ab| == 1
    ensures Reaches(l, l') && LinkInv(l') && l' == l.(ab := [])
  {
    hide Run, AllAllowed, Reaches, LinkInv;
    assert Allowed(l, AtB(Lost));
    ReachesStep(l, AtB(Lost));
    l' := Step(l, AtB(Lost));
    assert l.ab[1..] == [];
  }

  lemma RepeatedAndLost(l: Link, timeouts: nat) returns (l': Link)
    requires InVain(l, timeouts) && timeouts < TIMEOUT_MAX - 1
    ensures Reaches(l, l') && InVain(l', timeouts + 1) && OnlySenderMoved(l, l')
    ensures l'.sentA == l.sentA && l'.a.tx.started == l.a.tx.started
  {
    hide Reaches;
    var l1 := Repeated(l, timeouts);
    l' := LineLost(l1);
    ReachesOn(l, l1, l');
  }

  lemma GivenUp(l: Link) returns (l': Link)
    requires InVain(l, TIMEOUT_MAX - 1)
    ensures Reaches(l, l') && AtRest(l') && OnlySenderMoved(l, l')
    ensures l'.sentA == l.sentA && l'.a.tx.started == l.a.tx.started
  {
    hide Run, AllAllowed;
    ReachesStep(l, AtA(Timeout));
    l' := Step(l, AtA(Timeout));
    assert l.sentA + [] == l.sentA && l.gotA + [] == l.gotA && l.ab + [] == l.ab;
  }

  lemma WaitedInVain(l: Link, timeouts: nat) returns (l': Link)
    requires InVain(l, timeouts) && timeouts < TIMEOUT_MAX
    ensures Reaches(l, l') && AtRest(l') && OnlySenderMoved(l, l')
    ensures l'.sentA == l.sentA && l'.a.tx.started == l.a.tx.started
    decreases TIMEOUT_MAX - timeouts
  {
    if timeouts == TIMEOUT_MAX - 1 {
      l' := GivenUp(l);
    } else {
      var l1 := RepeatedAndLost(l, timeouts);
      l' := WaitedInVain(l1, timeouts + 1);
      ReachesOn(l, l1, l');
    }
  }

  function Copies(m: Outgoing, n: nat): (ms: seq<Outgoing>)
    ensures |ms| == n && forall i | 0 <= i < n :: ms[i] == m
  {
    if n == 0 then [] else Copies(m, n - 1) + [m]
  }

  /** A gives up one message after the other, while nothing else happens. */
  lemma GivenUpMany(l: Link, m: Outgoing, n: nat) returns (l': Link)
    requires AtRest(l) && SingleFrame(m, l.a.tx.maxFrameSize)
    ensures Reaches(l, l') && AtRest(l') && OnlySenderMoved(l, l')
    ensures l'.sentA == l.sentA + Copies(m, n) && l'.a.tx.started == l.a.tx.started + n
    decreases n
  {
    hide Run, AllAllowed;
    if n == 0 {
      ReachesSelf(l);
      return l;
    }
    var l1 := GivenUpMany(l, m, n - 1);
    var l2 := GivenAndLost(l1, m);
    var l3 := WaitedInVain(l2, 0);
    ReachesOn(l, l1, l2);
    ReachesOn(l, l2, l3);
    return l3;
  }

  /** The first message arrives, and its acknowledgement stays on the line. */
  lemma FirstDelivered(maxFrameSizeA: nat, maxFrameSizeB: nat, m: Outgoing) returns (l: Link)
    requires maxFrameSizeB > 0 && SingleFrame(m, maxFrameSizeA)
    ensures Reaches(Connected(maxFrameSizeA, maxFrameSizeB), l) && InVain(l, 0)
    ensures l.sentA == [m] && l.a.tx.started == 1 && l.a.tx.completed == [] && l.a.tx.maxFrameSize == maxFrameSizeA
    ensures l.b.rc.delivered == [m.text] && |l.ba| == 1 && l.ba[0].frame == Frame(CONFIRMATION, 1, 1, 1, [ACK])
  {
    hide Run, AllAllowed;
    var l0 := Connected(maxFrameSizeA, maxFrameSizeB);
    ConnectedKeeps(maxFrameSizeA, maxFrameSizeB);
    ReachesStep(l0, AtA(Give(m)));
    var l1 := Step(l0, AtA(Give(m)));
    var f := FrameOf([m], 1);
    assert l1.ab == [Tagged(f, 1)] && l1.a.tx.queue == [] && l1.a.tx.state == WaitForAck && l1.b == l0.b && l1.ba == [] by {
      FrameCountStep(|m.text|, maxFrameSizeA);
      assert m.text[..|m.text|] == m.text;
    }
    l := FirstTaken(l1, m);
    ReachesOn(l0, l1, l);
  }

  lemma FirstTaken(l: Link, m: Outgoing) returns (l': Link)
    requires LinkInv(l) && l.ab == [Tagged(FrameOf([m], 1), 1)] && l.b == Initial(l.b.tx.maxFrameSize) && l.ba == []
    requires l.a.tx.state == WaitForAck && l.a.tx.timeouts == 0 && l.a.tx.queue == []
    ensures Reaches(l, l') && InVain(l', 0) && l'.a == l.a && l'.sentA == l.sentA
    ensures l'.b.rc.delivered == [m.text] && |l'.ba| == 1 && l'.ba[0].frame == Frame(CONFIRMATION, 1, 1, 1, [ACK])
  {
    hide Run, AllAllowed;
    ReachesStep(l, AtB(Intact));
    l' := Step(l, AtB(Intact));
    assert [] + m.text == m.text;
  }

  /** The late acknowledgement completes the message that is current by then. */
  lemma LateAck(l: Link, n: nat) returns (l': Link)
    requires InVain(l, 0) && l.a.tx.started == n && n % MID_LIMIT == 1
    requires |l.ba| == 1 && l.ba[0].frame == Frame(CONFIRMATION, 1, 1, 1, [ACK])
    ensures Reaches(l, l') && l'.a.tx.completed == l.a.tx.completed + [n] && l'.b == l.b && l'.sentA == l.sentA
  {
    ReachesStep(l, AtA(Intact));
    var f := Arrived(l.ba[0].frame);
    assert Confirms(l.a.tx, Arrival(f));
    MirrorKeeps(l);
    FirstFrameFits(Mirror(l));
    var sends, answers := ActDoes(l.a, Arrival(f), l.sentA);
    var a := Act(l.a, Arrival(f)).0;
    assert a.tx.completed == l.a.tx.completed + [n];
    assert l.sentA + [] == l.sentA;
    l' := Step(l, AtA(Intact));
    assert l'.a == a;
  }

  /** Without the bound on the age of acknowledgements the guarantee fails: the acknowledgement of message 1 completes
      message 1001, of which nothing was ever delivered. */
  lemma StaleAckCompletes(maxFrameSizeA: nat, maxFrameSizeB: nat, first: Outgoing, m: Outgoing) returns (l: Link)
    requires maxFrameSizeB > 0 && SingleFrame(first, maxFrameSizeA) && SingleFrame(m, maxFrameSizeA)
    ensures Reaches(Connected(maxFrameSizeA, maxFrameSizeB), l)
    ensures l.a.tx.completed == [1001] && |l.sentA| == 1001 && l.sentA[1000] == m && l.b.rc.delivered == [first.text]
  {
    hide Run, AllAllowed;
    var l0 := Connected(maxFrameSizeA, maxFrameSizeB);
    var l1 := FirstDelivered(maxFrameSizeA, maxFrameSizeB, first);
    var l2 := WaitedInVain(l1, 0);
    var l3 := GivenUpMany(l2, m, 999);
    var l4 := GivenAndLost(l3, m);
    l := LateAck(l4, 1001);
    ReachesOn(l0, l1, l2);
    ReachesOn(l0, l2, l3);
    ReachesOn(l0, l3, l4);
    ReachesOn(l0, l4, l);
  }

  // ---------------------------------------------------------------- messages of several frames

  /** B can take in a frame and has nothing of its own to send. */
  predicate Listening(b: Station)
  {
    && b.alive && b.tx.maxFrameSize > 0 && b.tx.state == Idle && b.tx.queue == [] && b.rc.state == Waiting
  }

  /** A waits for the confirmation of frame `k` of a message, of which `rest` is not yet sent. */
  predicate AwaitsConfirmation(a: Station, k: nat, n: nat, content: seq<byte>, rest: seq<byte>)
  {
    && a.alive && a.tx.maxFrameSize > 0 && a.tx.state == WaitForAck && a.rc.state == Waiting
    && a.tx.errors == 0 && a.tx.currentMid == a.tx.needAckMid == k
    && a.tx.sentFrame == Frame(PAYLOAD, k, k, n, content)
    && a.tx.message == Message(rest, content, k, n)
  }

  lemma FirstFrameSent(maxFrameSizeA: nat, maxFrameSizeB: nat, m: Outgoing) returns (l: Link, n: nat, rest: seq<byte>)
    requires 0 < maxFrameSizeA < |m.text| && maxFrameSizeB > 0
    ensures l == Step(Connected(maxFrameSizeA, maxFrameSizeB), AtA(Give(m)))
    ensures n > 1 && rest != [] && |m.text| == maxFrameSizeA + |rest| && l.a.tx.maxFrameSize == maxFrameSizeA
    ensures AwaitsConfirmation(l.a, 1, n, m.text[..maxFrameSizeA], rest) && Listening(l.b)
    ensures l.ab == [Tagged(Frame(PAYLOAD, 1, 1, n, m.text[..maxFrameSizeA]), 1)] && l.ba == [] && l.b.rc.delivered == []
  {
    var l0 := Connected(maxFrameSizeA, maxFrameSizeB);
    l := Step(l0, AtA(Give(m)));
    n, rest := FrameCount(|m.text|, maxFrameSizeA), m.text[maxFrameSizeA..];
    FrameCountStep(|m.text|, maxFrameSizeA);
    FrameCountStep(|m.text| - maxFrameSizeA, maxFrameSizeA);
  }

  /** B takes in the first of several frames: nothing to deliver yet. */
  lemma FirstFrameTaken(l: Link, n: nat, content: seq<byte>) returns (l': Link)
    requires Usable(l) && Listening(l.b) && l.b.rc.delivered == [] && l.ba == [] && n > 1 && content != []
    requires |l.ab| == 1 && l.ab[0].frame == Frame(PAYLOAD, 1, 1, n, content)
    ensures l' == Step(l, AtB(Intact)) && l'.a == l.a && l'.ab == [] && Listening(l'.b) && l'.b.rc.delivered == []
    ensures |l'.ba| == 1 && l'.ba[0].frame == Frame(CONFIRMATION, 1, 1, n, [ACK])
  {
    l' := Step(l, AtB(Intact));
  }

  /** The confirmation of the first frame brings the second. */
  lemma SecondFrameSent(l: Link, n: nat, content: seq<byte>, rest: seq<byte>) returns (l': Link, content': seq<byte>, rest': seq<byte>)
    requires Usable(l) && AwaitsConfirmation(l.a, 1, n, content, rest) && Listening(l.b) && l.ab == [] && n > 1 && rest != []
    requires |l.ba| == 1 && l.ba[0].frame == Frame(CONFIRMATION, 1, 1, n, [ACK])
    ensures l' == Step(l, AtA(Intact)) && l'.b == l.b && l'.ba == []
    ensures 0 < |content'| <= l.a.tx.maxFrameSize && AwaitsConfirmation(l'.a, 2, n, content', rest')
    ensures |l'.ab| == 1 && l'.ab[0].frame == Frame(PAYLOAD, 2, 2, n, content')
  {
    l' := Step(l, AtA(Intact));
    content', rest' := l'.a.tx.message.framePayload, l'.a.tx.message.payload;
  }

  /** The second frame arrives damaged: B refuses it and forgets the first. */
  lemma SecondFrameRefused(l: Link, n: nat, content: seq<byte>) returns (l': Link, e: Event)
    requires Usable(l) && Listening(l.b) && l.b.rc.delivered == [] && l.ba == []
    requires |l.ab| == 1 && l.ab[0].frame == Frame(PAYLOAD, 2, 2, n, content)
    ensures e == AtB(Damaged(Received(PAYLOAD, 2, 2, n, false, content)))
    ensures l' == Step(l, e) && l'.a == l.a && l'.ab == [] && Listening(l'.b) && l'.b.rc.delivered == []
    ensures l'.b.rc.message == EMPTY
    ensures |l'.ba| == 1 && l'.ba[0].frame == Frame(CONFIRMATION, 2, 2, n, [NAK] + CODE_CS)
  {
    e := AtB(Damaged(Received(PAYLOAD, 2, 2, n, false, content)));
    l' := Step(l, e);
  }

  lemma SecondFrameRepeated(l: Link, n: nat, content: seq<byte>, rest: seq<byte>) returns (l': Link)
    requires Usable(l) && AwaitsConfirmation(l.a, 2, n, content, rest) && Listening(l.b) && l.ab == []
    requires |l.ba| == 1 && l.ba[0].frame == Frame(CONFIRMATION, 2, 2, n, [NAK] + CODE_CS)
    ensures l' == Step(l, AtA(Intact)) && l'.b == l.b && l'.ba == []
    ensures |l'.ab| == 1 && l'.ab[0].frame == Frame(PAYLOAD, 2, 2, n, content)
  {
    l' := Step(l, AtA(Intact));
  }

  /** The second frame arrives at last, and is taken for a whole message. */
  lemma FragmentDelivered(l: Link, n: nat, content: seq<byte>) returns (l': Link)
    requires Usable(l) && Listening(l.b) && l.b.rc.delivered == [] && l.b.rc.message == EMPTY && content != []
    requires |l.ab| == 1 && l.ab[0].frame == Frame(PAYLOAD, 2, 2, n, content)
    ensures l' == Step(l, AtB(Intact)) && l'.b.rc.delivered == [content]
  {
    l' := Step(l, AtB(Intact));
    assert [] + content == content;
  }

  /** The only message is `m`, given to A; damage shows. */
  predicate OnlyGives(events: seq<Event>, m: Outgoing)
  {
    forall e | e in events :: Detected(e.what) && (e.what.Give? ==> e == AtA(Give(m)))
  }

  lemma RunSnoc(l: Link, events: seq<Event>, e: Event) returns (events': seq<Event>)
    requires Usable(l)
    ensures events' == events + [e] && Run(l, events') == Step(Run(l, events), e)
  {
    RunConcat(l, events, [e]);
    RunOne(Run(l, events), e);
    events' := events + [e];
  }

  lemma RunOfSix(l: Link, e1: Event, e2: Event, e3: Event, e4: Event, e5: Event, e6: Event) returns (events: seq<Event>)
    requires Usable(l)
    ensures events == [e1, e2, e3, e4, e5, e6]
    ensures Run(l, events) == Step(Step(Step(Step(Step(Step(l, e1), e2), e3), e4), e5), e6)
  {
    events := RunSnoc(l, [], e1);
    events := RunSnoc(l, events, e2);
    events := RunSnoc(l, events, e3);
    events := RunSnoc(l, events, e4);
    events := RunSnoc(l, events, e5);
    events := RunSnoc(l, events, e6);
  }

  /** A message of several frames, its second frame damaged once: B delivers a fragment. */
  lemma FragmentRun(maxFrameSizeA: nat, maxFrameSizeB: nat, m: Outgoing) returns (events: seq<Event>)
    requires 0 < maxFrameSizeA < |m.text| && maxFrameSizeB > 0
    ensures OnlyGives(events, m)
    ensures var l := Run(Connected(maxFrameSizeA, maxFrameSizeB), events);
            |l.b.rc.delivered| == 1 && 0 < |l.b.rc.delivered[0]| < |m.text|
  {
    hide Step, Run, AwaitsConfirmation, Listening;
    var l0 := Connected(maxFrameSizeA, maxFrameSizeB);
    var l1, n, rest := FirstFrameSent(maxFrameSizeA, maxFrameSizeB, m);
    var l2 := FirstFrameTaken(l1, n, m.text[..maxFrameSizeA]);
    var l3, content, rest' := SecondFrameSent(l2, n, m.text[..maxFrameSizeA], rest);
    var l4, e := SecondFrameRefused(l3, n, content);
    var l5 := SecondFrameRepeated(l4, n, content, rest');
    var l6 := FragmentDelivered(l5, n, content);
    events := RunOfSix(l0, AtA(Give(m)), AtB(Intact), AtA(Intact), e, AtA(Intact), AtB(Intact));
  }

  /** In runs where only `m` is given to A: is whatever B delivers `m`? */
  ghost predicate Faithful(maxFrameSizeA: nat, maxFrameSizeB: nat, m: Outgoing)
    requires maxFrameSizeA > 0 && maxFrameSizeB > 0
  {
    forall events | OnlyGives(events, m) ::
      forall d | d in Run(Connected(maxFrameSizeA, maxFrameSizeB), events).b.rc.delivered :: d == m.text
  }

  lemma {:induction false} OnlyGivesAllowed(l: Link, events: seq<Event>, m: Outgoing)
    requires Usable(l) && OnlyGives(events, m) && SingleFrame(m, l.a.tx.maxFrameSize)
    requires forall x | x in l.sentA :: x == m
    ensures AllAllowed(l, events) && forall x | x in Run(l, events).sentA :: x == m
    decreases |events|
  {
    if events != [] {
      assert events[0] in events;
      assert OnlyGives(events[1..], m);
      OnlyGivesAllowed(Step(l, events[0]), events[1..], m);
    }
  }

  /** A message of one frame is only delivered as it is. */
  lemma SingleFrameIsFaithful(maxFrameSizeA: nat, maxFrameSizeB: nat, m: Outgoing, events: seq<Event>, d: seq<byte>)
    requires maxFrameSizeA > 0 && maxFrameSizeB > 0 && SingleFrame(m, maxFrameSizeA) && OnlyGives(events, m)
    requires d in Run(Connected(maxFrameSizeA, maxFrameSizeB), events).b.rc.delivered
    ensures d == m.text
  {
    hide Run, AllAllowed, OnlyGives;
    var l0 := Connected(maxFrameSizeA, maxFrameSizeB);
    OnlyGivesAllowed(l0, events, m);
    LossyDelivery(maxFrameSizeA, maxFrameSizeB, events);
    SentFromStart(maxFrameSizeA, maxFrameSizeB, events);
    var l := Run(l0, events);
    var got: seq<nat> :| NonDecreasing(got) && Numbered(l.b.rc.delivered, got, l.sentA, |l.sentA|);
    var i :| 0 <= i < |l.b.rc.delivered| && l.b.rc.delivered[i] == d;
    assert l.sentA[got[i] - 1] in l.sentA;
  }

  /** With lines that damage frames, a message is safe from being delivered in pieces exactly if it fits in one frame. */
  lemma FaithfulIffSingleFrame(maxFrameSizeA: nat, maxFrameSizeB: nat, m: Outgoing)
    requires maxFrameSizeA > 0 && maxFrameSizeB > 0 && m.text != []
    ensures Faithful(maxFrameSizeA, maxFrameSizeB, m) <==> |m.text| <= maxFrameSizeA
  {
    hide Run, OnlyGives;
    if |m.text| <= maxFrameSizeA {
      forall events, d | OnlyGives(events, m) && d in Run(Connected(maxFrameSizeA, maxFrameSizeB), events).b.rc.delivered
        ensures d == m.text
      {
        SingleFrameIsFaithful(maxFrameSizeA, maxFrameSizeB, m, events, d);
      }
    } else {
      var events := FragmentRun(maxFrameSizeA, maxFrameSizeB, m);
      var l := Run(Connected(maxFrameSizeA, maxFrameSizeB), events);
      assert l.b.rc.delivered[0] in l.b.rc.delivered;
    }
  }
}

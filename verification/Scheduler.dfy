/** The request scheduler: three lanes, each with one running request and a queue. */
module Scheduler {
  /** A request: its time stamp, its priority, whether it is a guiIO call, whether it came from the device controller. */
  datatype Request = Request(ts: int, prio: int, guiIO: bool, ipc: bool)

  /** The comparator of the queues. */
  predicate Less(r1: Request, r2: Request)
  {
    if r1.prio == r2.prio then r1.ts > r2.ts else r1.prio < r2.prio
  }

  lemma LessIsStrictOrder(a: Request, b: Request, c: Request)
    ensures !Less(a, a)
    ensures Less(a, b) && Less(b, c) ==> Less(a, c)
    ensures a.ts != b.ts ==> (Less(a, b) <==> !Less(b, a))
  {
  }

  /** One lane. */
  datatype Lane = Lane(waiting: seq<Request>, running: seq<Request>, finished: seq<Request>)

  const EMPTY := Lane([], [], [])

  function Started(l: Lane): seq<Request>
  {
    l.finished + l.running
  }

  /** The position of the greatest of a queue. */
  function Top(q: seq<Request>): (k: nat)
    requires q != []
    ensures k < |q|
    decreases |q|
  {
    if |q| == 1 then 0
    else
      var k := Top(q[..|q| - 1]);
      if Less(q[k], q[|q| - 1]) then |q| - 1 else k
  }

  function Popped(q: seq<Request>, k: nat): seq<Request>
    requires k < |q|
  {
    q[..k] + q[k + 1..]
  }

  function StartTop(l: Lane): Lane
  {
    if l.waiting == [] then l
    else
      var k := Top(l.waiting);
      l.(waiting := Popped(l.waiting, k), running := [l.waiting[k]])
  }

  function Queued(l: Lane, r: Request): Lane
  {
    var l1 := l.(waiting := l.waiting + [r]);
    if l.running == [] then StartTop(l1) else l1
  }

  function Done(l: Lane): Lane
  {
    StartTop(l.(running := [], finished := l.finished + l.running))
  }

  /** `alive` turns false when the queue without a comparator has to compare; the exception ends the program. */
  datatype Processor = Processor(counter: int, main: Lane, high: Lane, gui: Lane, accepted: seq<Request>, alive: bool)

  const INITIAL := Processor(0, EMPTY, EMPTY, EMPTY, [], true)

  datatype Event =
    | Arrive(prio: int, guiIO: bool, ipc: bool)
    | Malformed
    | MainFinished
    | HighFinished
    | GuiFinished

  /** The queue for guiIO calls has no comparator: a second waiting call cannot be put in order. */
  function GuiQueued(p: Processor, r: Request): Processor
  {
    if p.gui.waiting != [] then p.(alive := false) else p.(gui := Queued(p.gui, r), accepted := p.accepted + [r])
  }

  function Arrived(p: Processor, r: Request): Processor
  {
    if (p.main.running != [] || p.high.running != []) && r.guiIO then GuiQueued(p, r)
    else if p.main.running != [] && r.ipc then p.(high := Queued(p.high, r), accepted := p.accepted + [r])
    else p.(main := Queued(p.main, r), accepted := p.accepted + [r])
  }

  /** Every request takes a time stamp, also one that cannot be parsed. */
  function Step(p: Processor, e: Event): Processor
  {
    if !p.alive then p
    else
      match e
      case Arrive(prio, guiIO, ipc) => Arrived(p.(counter := p.counter + 1), Request(p.counter, prio, guiIO, ipc))
      case Malformed => p.(counter := p.counter + 1)
      case MainFinished => if p.main.running != [] then p.(main := Done(p.main)) else p
      case HighFinished => if p.high.running != [] then p.(high := Done(p.high)) else p
      case GuiFinished => if p.gui.running != [] then p.(gui := Done(p.gui)) else p
  }

  function Run(p: Processor, events: seq<Event>): Processor
    decreases |events|
  {
    if events == [] then p else Run(Step(p, events[0]), events[1..])
  }

  // ---------------------------------------------------------------- one lane

  lemma {:induction false} TopIsGreatest(q: seq<Request>)
    requires q != [] && forall i, j | 0 <= i < j < |q| :: q[i].ts != q[j].ts
    ensures forall i | 0 <= i < |q| && i != Top(q) :: Less(q[i], q[Top(q)])
    decreases |q|
  {
    if |q| > 1 {
      var front, last := q[..|q| - 1], q[|q| - 1];
      assert forall i | 0 <= i < |front| :: front[i] == q[i];
      TopIsGreatest(front);
      var k := Top(front);
      forall i | 0 <= i < |q| && i != Top(q)
        ensures Less(q[i], q[Top(q)])
      {
        if i < |front| && i != k {
          LessIsStrictOrder(q[i], q[k], last);
        }
      }
    }
  }

  /** A request that came earlier and is at least as urgent goes first. */
  predicate GoesFirst(r1: Request, r2: Request)
  {
    r1.ts < r2.ts && r1.prio >= r2.prio
  }

  predicate Ordered(started: seq<Request>)
  {
    forall i, j | 0 <= i < j < |started| :: !GoesFirst(started[j], started[i])
  }

  predicate NoneOverdue(waiting: seq<Request>, started: seq<Request>)
  {
    forall w, s | w in waiting && s in started :: !GoesFirst(w, s)
  }

  predicate Distinct(q: seq<Request>)
  {
    forall i, j | 0 <= i < j < |q| :: q[i].ts != q[j].ts
  }

  /** What holds of a lane even when its slot is empty. */
  predicate LaneCore(l: Lane, counter: int)
  {
    && |l.running| <= 1
    && (forall r | r in l.waiting + Started(l) :: r.ts < counter)
    && Distinct(l.waiting) && Ordered(Started(l)) && NoneOverdue(l.waiting, Started(l))
  }

  /** A lane between two events: nothing waits while its slot is empty. */
  predicate LaneInv(l: Lane, counter: int)
  {
    LaneCore(l, counter) && (l.running == [] ==> l.waiting == [])
  }

  /** All requests of a lane. */
  function All(l: Lane): multiset<Request>
  {
    multiset(l.waiting) + multiset(l.running) + multiset(l.finished)
  }

  lemma PoppedRest(q: seq<Request>, k: nat)
    requires k < |q|
    ensures multiset(q) == multiset(Popped(q, k)) + multiset{q[k]}
    ensures forall r | r in Popped(q, k) :: exists i :: 0 <= i < |q| && i != k && q[i] == r
  {
    assert q == q[..k] + [q[k]] + q[k + 1..];
    forall r | r in Popped(q, k)
      ensures exists i :: 0 <= i < |q| && i != k && q[i] == r
    {
      var j :| 0 <= j < |Popped(q, k)| && Popped(q, k)[j] == r;
      assert q[if j < k then j else j + 1] == r;
    }
  }

  lemma OrderedSnoc(started: seq<Request>, r: Request)
    requires Ordered(started) && forall s | s in started :: !GoesFirst(r, s)
    ensures Ordered(started + [r])
  {
  }

  /** The slot takes the greatest: nobody is passed over who came earlier and is at least as urgent. */
  lemma StartTopKeeps(l: Lane, counter: int)
    requires LaneCore(l, counter) && l.running == []
    ensures LaneInv(StartTop(l), counter) && All(StartTop(l)) == All(l)
  {
    if l.waiting != [] {
      var k := Top(l.waiting);
      var r := l.waiting[k];
      TopIsGreatest(l.waiting);
      PoppedRest(l.waiting, k);
      assert Started(l) == l.finished;
      OrderedSnoc(l.finished, r);
      var l' := StartTop(l);
      assert Started(l') == l.finished + [r];
      forall w, s | w in l'.waiting && s in Started(l')
        ensures !GoesFirst(w, s)
      {
        var i :| 0 <= i < |l.waiting| && i != k && l.waiting[i] == w;
        assert s in l.finished || s == r;
      }
    }
  }

  lemma QueuedKeeps(l: Lane, r: Request, counter: int)
    requires LaneInv(l, counter) && r.ts == counter
    ensures LaneInv(Queued(l, r), counter + 1) && All(Queued(l, r)) == All(l) + multiset{r}
  {
    var l1 := l.(waiting := l.waiting + [r]);
    assert forall x | x in l1.waiting :: x in l.waiting || x == r;
    assert All(l1) == All(l) + multiset{r};
    assert LaneCore(l1, counter + 1);
    if l.running == [] {
      StartTopKeeps(l1, counter + 1);
    }
  }

  lemma DoneKeeps(l: Lane, counter: int)
    requires LaneInv(l, counter)
    ensures LaneInv(Done(l), counter) && All(Done(l)) == All(l)
  {
    var l1 := l.(running := [], finished := l.finished + l.running);
    assert Started(l1) == Started(l);
    assert All(l1) == All(l);
    StartTopKeeps(l1, counter);
  }

  // ---------------------------------------------------------------- the three lanes


  predicate ProcessorInv(p: Processor)
  {
    && LaneInv(p.main, p.counter) && LaneInv(p.high, p.counter) && LaneInv(p.gui, p.counter)
    && (forall r | r in p.main.waiting :: !r.guiIO && !r.ipc)
    && (forall r | r in p.high.waiting :: !r.guiIO)
    && (forall r | r in All(p.high) :: r.ipc && !r.guiIO)
    && (forall r | r in All(p.gui) :: r.guiIO)
    && |p.gui.waiting| <= 1
    && multiset(p.accepted) == All(p.main) + All(p.high) + All(p.gui)
    && (forall i, j | 0 <= i < j < |p.accepted| :: p.accepted[i].ts < p.accepted[j].ts)
    && (forall r | r in p.accepted :: r.ts < p.counter)
  }

  lemma StartTopWaiting(l: Lane)
    ensures forall r | r in StartTop(l).waiting :: r in l.waiting
    ensures l.waiting != [] ==> |StartTop(l).waiting| == |l.waiting| - 1
  {
  }

  lemma QueuedWaiting(l: Lane, r: Request, counter: int)
    requires LaneInv(l, counter)
    ensures forall x | x in Queued(l, r).waiting :: x in l.waiting || (x == r && l.running != [])
    ensures |Queued(l, r).waiting| <= |l.waiting| + if l.running == [] then 0 else 1
    ensures l.running == [] ==> Queued(l, r).running == [r]
  {
    StartTopWaiting(l.(waiting := l.waiting + [r]));
    if l.running == [] {
      assert l.waiting + [r] == [r];
    }
  }

  lemma LaneLater(l: Lane, counter: int)
    requires LaneInv(l, counter)
    ensures LaneInv(l, counter + 1)
  {
  }

  lemma AcceptedGrows(accepted: seq<Request>, r: Request, counter: int)
    requires forall i, j | 0 <= i < j < |accepted| :: accepted[i].ts < accepted[j].ts
    requires (forall x | x in accepted :: x.ts < counter) && r.ts == counter
    ensures forall i, j | 0 <= i < j < |accepted + [r]| :: (accepted + [r])[i].ts < (accepted + [r])[j].ts
    ensures forall x | x in accepted + [r] :: x.ts < counter + 1
    ensures multiset(accepted + [r]) == multiset(accepted) + multiset{r}
  {
  }

  lemma Regroup<T>(a: multiset<T>, b: multiset<T>, c: multiset<T>, x: multiset<T>)
    ensures a + x + b + c == a + b + c + x
    ensures a + (b + x) + c == a + b + c + x
    ensures a + b + (c + x) == a + b + c + x
  {
  }

  lemma Later(p: Processor)
    requires ProcessorInv(p)
    ensures ProcessorInv(p.(counter := p.counter + 1))
  {
    LaneLater(p.main, p.counter);
    LaneLater(p.high, p.counter);
    LaneLater(p.gui, p.counter);
  }

  lemma MainArrives(p: Processor, r: Request)
    requires ProcessorInv(p) && r.ts == p.counter && (p.main.running != [] ==> !r.guiIO && !r.ipc)
    ensures ProcessorInv(p.(counter := p.counter + 1, main := Queued(p.main, r), accepted := p.accepted + [r]))
  {
    hide Queued, All, LaneInv;
    Later(p);
    Regroup(All(p.main), All(p.high), All(p.gui), multiset{r});
    AcceptedGrows(p.accepted, r, p.counter);
    QueuedKeeps(p.main, r, p.counter);
    QueuedWaiting(p.main, r, p.counter);
  }

  lemma HighArrives(p: Processor, r: Request)
    requires ProcessorInv(p) && r.ts == p.counter && r.ipc && !r.guiIO
    ensures ProcessorInv(p.(counter := p.counter + 1, high := Queued(p.high, r), accepted := p.accepted + [r]))
  {
    hide Queued, All, LaneInv;
    Later(p);
    Regroup(All(p.main), All(p.high), All(p.gui), multiset{r});
    AcceptedGrows(p.accepted, r, p.counter);
    QueuedKeeps(p.high, r, p.counter);
    QueuedWaiting(p.high, r, p.counter);
  }

  lemma GuiArrives(p: Processor, r: Request)
    requires ProcessorInv(p) && r.ts == p.counter && r.guiIO && p.gui.waiting == []
    ensures ProcessorInv(p.(counter := p.counter + 1, gui := Queued(p.gui, r), accepted := p.accepted + [r]))
  {
    hide Queued, All, LaneInv;
    Later(p);
    Regroup(All(p.main), All(p.high), All(p.gui), multiset{r});
    AcceptedGrows(p.accepted, r, p.counter);
    QueuedKeeps(p.gui, r, p.counter);
    QueuedWaiting(p.gui, r, p.counter);
  }

  lemma ArrivedKeeps(p: Processor, r: Request)
    requires ProcessorInv(p) && r.ts == p.counter
    ensures ProcessorInv(Arrived(p.(counter := p.counter + 1), r))
  {
    hide Queued, ProcessorInv;
    if (p.main.running != [] || p.high.running != []) && r.guiIO {
      if p.gui.waiting == [] {
        GuiArrives(p, r);
      } else {
        EndKeeps(p);
      }
    } else if p.main.running != [] && r.ipc {
      HighArrives(p, r);
    } else {
      MainArrives(p, r);
    }
  }

  lemma EndKeeps(p: Processor)
    requires ProcessorInv(p)
    ensures ProcessorInv(p.(counter := p.counter + 1, alive := false))
  {
    Later(p);
  }

  lemma StepKeeps(p: Processor, e: Event)
    requires ProcessorInv(p)
    ensures ProcessorInv(Step(p, e))
  {
    hide All, LaneInv, Arrived, Done;
    match e
    case Arrive(prio, guiIO, ipc) => ArrivedKeeps(p, Request(p.counter, prio, guiIO, ipc));
    case Malformed => Later(p);
    case MainFinished => DoneKeeps(p.main, p.counter); DoneWaiting(p.main);
    case HighFinished => DoneKeeps(p.high, p.counter); DoneWaiting(p.high);
    case GuiFinished => DoneKeeps(p.gui, p.counter); DoneWaiting(p.gui);
  }

  lemma DoneWaiting(l: Lane)
    ensures forall r | r in Done(l).waiting :: r in l.waiting
    ensures |Done(l).waiting| <= |l.waiting|
  {
    StartTopWaiting(l.(running := [], finished := l.finished + l.running));
  }

  // ---------------------------------------------------------------- over whole runs

  lemma {:induction false} RunKeeps(p: Processor, events: seq<Event>)
    requires ProcessorInv(p)
    ensures ProcessorInv(Run(p, events))
    decreases |events|
  {
    if events != [] {
      StepKeeps(p, events[0]);
      RunKeeps(Step(p, events[0]), events[1..]);
    }
  }

  lemma Reachable(events: seq<Event>)
    ensures ProcessorInv(Run(INITIAL, events))
  {
    RunKeeps(INITIAL, events);
  }

  /** A slot is empty only when nothing waits for it; no guiIO call and no request of the device controller ever waits
      behind the running script, and no guiIO call behind a request of the device controller. Beside the script only such
      calls and requests run, each in its own lane. */
  lemma NobodyBlocked(events: seq<Event>)
    ensures var p := Run(INITIAL, events);
            && (p.main.running == [] ==> p.main.waiting == [])
            && (p.high.running == [] ==> p.high.waiting == [])
            && (p.gui.running == [] ==> p.gui.waiting == [])
            && (forall r | r in p.main.waiting :: !r.guiIO && !r.ipc)
            && (forall r | r in p.high.waiting :: !r.guiIO)
            && (forall r | r in Started(p.high) :: r.ipc && !r.guiIO)
            && (forall r | r in Started(p.gui) :: r.guiIO)
  {
    Reachable(events);
    var p := Run(INITIAL, events);
    assert forall r | r in Started(p.high) :: r in All(p.high);
    assert forall r | r in Started(p.gui) :: r in All(p.gui);
  }

  lemma {:induction false} OnceInAscending(q: seq<Request>, r: Request)
    requires (forall i, j | 0 <= i < j < |q| :: q[i].ts < q[j].ts)
    ensures multiset(q)[r] <= 1
  {
    if q != [] {
      var front, last := q[..|q| - 1], q[|q| - 1];
      assert q == front + [last];
      OnceInAscending(front, r);
      if r == last {
        assert r !in front;
      }
    }
  }

  /** The requests that arrive, read off the events alone: the time stamp counts all arrivals from `ts` on, malformed ones
      included. */
  function Arrivals(ts: int, events: seq<Event>): seq<Request>
    decreases |events|
  {
    if events == [] then []
    else
      match events[0]
      case Arrive(prio, guiIO, ipc) => [Request(ts, prio, guiIO, ipc)] + Arrivals(ts + 1, events[1..])
      case Malformed => Arrivals(ts + 1, events[1..])
      case _ => Arrivals(ts, events[1..])
  }

  lemma {:induction false} StaysDown(p: Processor, events: seq<Event>)
    requires !p.alive
    ensures Run(p, events) == p
    decreases |events|
  {
    if events != [] {
      StaysDown(p, events[1..]);
    }
  }

  lemma StepArrivals(p: Processor, e: Event)
    requires p.alive
    ensures Step(p, e).accepted == p.accepted + if Step(p, e).alive then Arrivals(p.counter, [e]) else []
    ensures Step(p, e).counter == p.counter + if e.Arrive? || e.Malformed? then 1 else 0
  {
    hide Queued, Done;
    assert [e][1..] == [];
    assert p.accepted + [] == p.accepted;
  }

  lemma ArrivalsHead(ts: int, events: seq<Event>)
    requires events != []
    ensures Arrivals(ts, events)
         == Arrivals(ts, [events[0]]) + Arrivals(if events[0].Arrive? || events[0].Malformed? then ts + 1 else ts, events[1..])
  {
    assert [events[0]][1..] == [];
  }

  /** While the program runs, what was accepted is exactly what arrived; when it ended, a part of that from the start on. */
  lemma {:induction false} AcceptedIsArrived(p: Processor, events: seq<Event>)
    requires p.alive
    ensures var p' := Run(p, events);
            && p'.accepted <= p.accepted + Arrivals(p.counter, events)
            && (p'.alive ==> p'.accepted == p.accepted + Arrivals(p.counter, events))
    decreases |events|
  {
    hide Step;
    if events != [] {
      var p1 := Step(p, events[0]);
      StepArrivals(p, events[0]);
      ArrivalsHead(p.counter, events);
      if p1.alive {
        AcceptedIsArrived(p1, events[1..]);
        Assoc(p.accepted, Arrivals(p.counter, [events[0]]), Arrivals(p1.counter, events[1..]));
      } else {
        StaysDown(p1, events[1..]);
        assert p1.accepted == p.accepted;
      }
    }
  }

  lemma Assoc(a: seq<Request>, b: seq<Request>, c: seq<Request>)
    ensures a + b + c == a + (b + c)
  {
  }

  /** Every request that arrives is at all times in exactly one place: waiting, running or finished, in one of the lanes;
      and nothing else is. Once the program has ended this holds of the requests taken in before that. */
  lemma ExactlyOnce(events: seq<Event>, r: Request)
    ensures var p := Run(INITIAL, events);
            var places := (All(p.main) + All(p.high) + All(p.gui))[r];
            && (p.alive ==> places == if r in Arrivals(0, events) then 1 else 0)
            && (!p.alive ==> p.accepted <= Arrivals(0, events) && places == if r in p.accepted then 1 else 0)
  {
    hide Run, Arrivals, All;
    Reachable(events);
    AcceptedIsArrived(INITIAL, events);
    assert [] + Arrivals(0, events) == Arrivals(0, events);
    OnceInAscending(Run(INITIAL, events).accepted, r);
  }

  /** Nobody is passed over: what a lane has started is in order, and nothing that waits goes before what was started. */
  predicate LaneInOrder(l: Lane)
  {
    Ordered(Started(l)) && NoneOverdue(l.waiting, Started(l))
  }

  /** In every lane: a request that came earlier and is at least as urgent as another was started before it; so equal
      priorities run in the order of arrival. */
  lemma StartedInOrder(events: seq<Event>)
    ensures var p := Run(INITIAL, events); LaneInOrder(p.main) && LaneInOrder(p.high) && LaneInOrder(p.gui)
  {
    hide Run;
    Reachable(events);
  }

  predicate MoreUrgent(r1: Request, r2: Request)
  {
    r1.prio > r2.prio || (r1.prio == r2.prio && r1.ts < r2.ts)
  }

  /** The running request is through; of those waiting the most urgent runs now, among equals the one that came first. */
  predicate GoesOn(l: Lane, l': Lane)
  {
    && l'.finished == l.finished + l.running && |l'.running| <= 1
    && multiset(l'.running) + multiset(l'.waiting) == multiset(l.waiting)
    && (l.waiting != [] ==> l'.running != [] && forall r | r in l'.waiting :: MoreUrgent(l'.running[0], r))
  }

  lemma DoneGoesOn(l: Lane, counter: int)
    requires LaneInv(l, counter)
    ensures GoesOn(l, Done(l))
  {
    if l.waiting != [] {
      TopIsGreatest(l.waiting);
      var k := Top(l.waiting);
      PoppedRest(l.waiting, k);
      forall r | r in Done(l).waiting
        ensures MoreUrgent(l.waiting[k], r)
      {
        var i :| 0 <= i < |l.waiting| && i != k && l.waiting[i] == r;
      }
    }
  }

  /** The end of a request moves its own lane on, and no other. */
  lemma StartsMostUrgent(events: seq<Event>, e: Event)
    ensures var p := Run(INITIAL, events);
            var p' := Step(p, e);
            p.alive ==>
              && (e.MainFinished? && p.main.running != [] ==> GoesOn(p.main, p'.main) && p' == p.(main := p'.main))
              && (e.HighFinished? && p.high.running != [] ==> GoesOn(p.high, p'.high) && p' == p.(high := p'.high))
              && (e.GuiFinished? && p.gui.running != [] ==> GoesOn(p.gui, p'.gui) && p' == p.(gui := p'.gui))
  {
    hide Run, GoesOn, Done;
    Reachable(events);
    var p := Run(INITIAL, events);
    DoneGoesOn(p.main, p.counter);
    DoneGoesOn(p.high, p.counter);
    DoneGoesOn(p.gui, p.counter);
  }

  /** A guiIO call made while something runs starts at once, unless another guiIO call runs; nothing else is touched. */
  lemma GuiStartsAtOnce(events: seq<Event>, prio: int, ipc: bool)
    ensures var p := Run(INITIAL, events);
            var p' := Step(p, Arrive(prio, true, ipc));
            p.alive && (p.main.running != [] || p.high.running != []) ==>
              && (p'.gui.running == [Request(p.counter, prio, true, ipc)] <==> p.gui.running == [])
              && p'.main == p.main && p'.high == p.high
  {
    Reachable(events);
    var p := Run(INITIAL, events);
    var r := Request(p.counter, prio, true, ipc);
    if p.alive && (p.main.running != [] || p.high.running != []) {
      QueuedWaiting(p.gui, r, p.counter);
      if p.gui.running != [] {
        assert p.gui.running[0] in p.gui.waiting + Started(p.gui);
      }
    }
  }

  /** The request runs at once in a lane that is free. */
  predicate Starts(l: Lane, l': Lane, r: Request)
  {
    l.running == [] && l' == Lane([], [r], l.finished)
  }

  /** The request waits as the last in a lane that is busy. */
  predicate Waits(l: Lane, l': Lane, r: Request)
  {
    l.running != [] && l' == Lane(l.waiting + [r], l.running, l.finished)
  }

  lemma QueuedStartsOrWaits(l: Lane, r: Request)
    requires l.running == [] ==> l.waiting == []
    ensures Starts(l, Queued(l, r), r) || Waits(l, Queued(l, r), r)
  {
    if l.running == [] {
      assert [] + [r] == [r] && Top([r]) == 0 && Popped([r], 0) == [];
    }
  }

  /** Where a request goes, in every reachable state. The script's lane takes it whenever it is free, unless it is a guiIO call
      and the device controller's lane is not; otherwise a guiIO call has its own lane, and so has the device controller. No
      lane but its own is touched. */
  lemma ArrivalGoes(events: seq<Event>, prio: int, guiIO: bool, ipc: bool)
    ensures var p := Run(INITIAL, events);
            var p' := Step(p, Arrive(prio, guiIO, ipc));
            var r := Request(p.counter, prio, guiIO, ipc);
            p.alive ==>
              if guiIO && (p.main.running != [] || p.high.running != []) then
                p'.alive ==> (Starts(p.gui, p'.gui, r) || Waits(p.gui, p'.gui, r)) && p'.main == p.main && p'.high == p.high
              else if p.main.running == [] then
                p'.alive && Starts(p.main, p'.main, r) && p'.high == p.high && p'.gui == p.gui
              else if ipc then
                p'.alive && (Starts(p.high, p'.high, r) || Waits(p.high, p'.high, r)) && p'.main == p.main && p'.gui == p.gui
              else
                p'.alive && Waits(p.main, p'.main, r) && p'.high == p.high && p'.gui == p.gui
  {
    hide Run, Queued, Starts, Waits;
    Reachable(events);
    var p := Run(INITIAL, events);
    var r := Request(p.counter, prio, guiIO, ipc);
    QueuedStartsOrWaits(p.main, r);
    QueuedStartsOrWaits(p.high, r);
    QueuedStartsOrWaits(p.gui, r);
    OnlyOne(p.main, Queued(p.main, r), r);
  }

  lemma OnlyOne(l: Lane, l': Lane, r: Request)
    ensures Starts(l, l', r) ==> l.running == []
    ensures Waits(l, l', r) ==> l.running != []
  {
  }

  /** The program ends exactly when a guiIO call arrives while one runs and another waits. */
  lemma EndsExactlyWhen(events: seq<Event>, e: Event)
    requires Run(INITIAL, events).alive
    ensures var p := Run(INITIAL, events);
            !Step(p, e).alive <==>
              e.Arrive? && e.guiIO && (p.main.running != [] || p.high.running != []) && p.gui.running != [] && |p.gui.waiting| == 1
  {
    Reachable(events);
  }
}

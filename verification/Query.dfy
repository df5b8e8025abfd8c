/** Queries to the device controller: every one gets a task id, and the first completion for that id counts. */
module Queries {
  /** How a query ends. */
  datatype Outcome = Replied(text: string) | TimedOut | ConnectionFailed | Refused

  datatype Query = Query(tid: int, text: string, useTimeout: bool)

  /** `finished` are the results handed out, in order; `lost` the queries whose reply could not be parsed; `timers` the
      queries with a timeout running; `created` all queries ever made. */
  datatype Client = Client(nextTid: int, pending: map<int, Query>, timers: set<int>,
                           finished: seq<(int, Outcome)>, lost: set<int>, created: seq<int>)

  const INITIAL := Client(1, map[], {}, [], {}, [])

  /** What the interface makes of a message. */
  datatype Sending = Accepted | Offline | NoHandler

  datatype Event =
    | Create(text: string, useTimeout: bool)
    | Execute(tid: int, sending: Sending)
    | Sent(tid: int)
    | Response(tid: int, text: string, parses: bool)
    | Timeout(tid: int)
    | Failure(tid: int)

  function Created(c: Client, text: string, useTimeout: bool): Client
  {
    c.(nextTid := c.nextTid + 2, pending := c.pending[c.nextTid := Query(c.nextTid, text, useTimeout)],
       created := c.created + [c.nextTid])
  }

  function Removed(c: Client, tid: int): Client
  {
    c.(pending := c.pending - {tid}, timers := c.timers - {tid})
  }

  function Finish(c: Client, tid: int, outcome: Outcome): Client
  {
    c.(finished := c.finished + [(tid, outcome)])
  }

  /** A query that cannot be sent finishes at once; whether it is still pending is not asked. */
  function Executed(c: Client, tid: int, sending: Sending): Client
  {
    match sending
    case Accepted => c
    case Offline => Removed(Finish(c, tid, Refused), tid)
    case NoHandler => Finish(c, tid, Refused).(pending := c.pending - {tid})
  }

  function OnSent(c: Client, tid: int): Client
  {
    if tid in c.pending && c.pending[tid].useTimeout then c.(timers := c.timers + {tid}) else c
  }

  function OnResponse(c: Client, tid: int, text: string, parses: bool): Client
  {
    if tid !in c.pending then c
    else if parses then Finish(Removed(c, tid), tid, Replied(text))
    else Removed(c, tid).(lost := c.lost + {tid})
  }

  function OnTimeout(c: Client, tid: int): Client
  {
    if tid !in c.pending then c else Finish(Removed(c, tid), tid, TimedOut)
  }

  function OnFailure(c: Client, tid: int): Client
  {
    if tid !in c.pending then c else Finish(Removed(c, tid), tid, ConnectionFailed)
  }

  function Step(c: Client, e: Event): Client
  {
    match e
    case Create(text, useTimeout) => Created(c, text, useTimeout)
    case Execute(tid, sending) => Executed(c, tid, sending)
    case Sent(tid) => OnSent(c, tid)
    case Response(tid, text, parses) => OnResponse(c, tid, text, parses)
    case Timeout(tid) => OnTimeout(c, tid)
    case Failure(tid) => OnFailure(c, tid)
  }

  function Run(c: Client, events: seq<Event>): Client
  {
    if events == [] then c else Step(Run(c, events[..|events| - 1]), events[|events| - 1])
  }

  /** A query is executed while it is pending. */
  predicate Disciplined(events: seq<Event>)
  {
    events != [] ==>
      var front, last := events[..|events| - 1], events[|events| - 1];
      Disciplined(front) && (last.Execute? && !last.sending.Accepted? ==> last.tid in Run(INITIAL, front).pending)
  }

  // ---------------------------------------------------------------- the reference: the first completion counts

  datatype Fate = NotMade | Pending | Lost | Ended(outcome: Outcome)

  /** How many queries are made in `events`. */
  function Makes(events: seq<Event>): nat
  {
    if events == [] then 0 else Makes(events[..|events| - 1]) + if events[|events| - 1].Create? then 1 else 0
  }

  /** Whether an event ends the query, and how. */
  function EndsBy(e: Event, tid: int): Fate
  {
    match e
    case Execute(t, sending) => if t == tid && !sending.Accepted? then Ended(Refused) else Pending
    case Response(t, text, parses) => if t != tid then Pending else if parses then Ended(Replied(text)) else Lost
    case Timeout(t) => if t == tid then Ended(TimedOut) else Pending
    case Failure(t) => if t == tid then Ended(ConnectionFailed) else Pending
    case _ => Pending
  }

  /** The fate of a task id, from the events alone: the n-th query made has id 2n - 1, and the first event after that which
      can end it does. */
  function FateOf(events: seq<Event>, tid: int): Fate
  {
    if events == [] then NotMade
    else
      var front, last := events[..|events| - 1], events[|events| - 1];
      match FateOf(front, tid)
      case NotMade => if last.Create? && tid == 2 * Makes(front) + 1 then Pending else NotMade
      case Pending => EndsBy(last, tid)
      case done => done
  }

  /** The state of the client as the fates say. */
  ghost predicate AsFated(c: Client, events: seq<Event>)
  {
    && c.nextTid == 2 * Makes(events) + 1 && |c.created| == Makes(events)
    && (forall i | 0 <= i < |c.created| :: c.created[i] == 2 * i + 1)
    && (forall tid :: tid in c.pending <==> FateOf(events, tid) == Pending)
    && (forall tid :: tid in c.lost <==> FateOf(events, tid) == Lost)
    && (forall tid, outcome :: (tid, outcome) in c.finished <==> FateOf(events, tid) == Ended(outcome))
    && (forall i, j | 0 <= i < j < |c.finished| :: c.finished[i].0 != c.finished[j].0)
    && (forall tid :: tid in c.created <==> FateOf(events, tid) != NotMade)
  }

  // ---------------------------------------------------------------- the client does what the reference says

  lemma {:induction false} FateBeforeMade(events: seq<Event>, tid: int)
    ensures FateOf(events, tid) == NotMade <==> !(0 < tid < 2 * Makes(events) + 1 && tid % 2 == 1)
  {
    if events != [] {
      FateBeforeMade(events[..|events| - 1], tid);
    }
  }

  /** How an event other than the making of a query changes its fate. */
  lemma FateStep(events: seq<Event>, e: Event, tid: int)
    ensures var fate := FateOf(events, tid);
            FateOf(events + [e], tid) ==
              if fate == NotMade then (if e.Create? && tid == 2 * Makes(events) + 1 then Pending else NotMade)
              else if fate == Pending then EndsBy(e, tid) else fate
    ensures Makes(events + [e]) == Makes(events) + if e.Create? then 1 else 0
  {
    assert (events + [e])[..|events|] == events;
  }

  lemma FateSteps(events: seq<Event>, e: Event)
    ensures forall tid :: var fate := FateOf(events, tid);
            FateOf(events + [e], tid) ==
              if fate == NotMade then (if e.Create? && tid == 2 * Makes(events) + 1 then Pending else NotMade)
              else if fate == Pending then EndsBy(e, tid) else fate
    ensures Makes(events + [e]) == Makes(events) + if e.Create? then 1 else 0
    ensures FateOf(events, 2 * Makes(events) + 1) == NotMade
  {
    FateStep(events, e, 0);
    FateBeforeMade(events, 2 * Makes(events) + 1);
    forall tid
      ensures var fate := FateOf(events, tid);
              FateOf(events + [e], tid) ==
                if fate == NotMade then (if e.Create? && tid == 2 * Makes(events) + 1 then Pending else NotMade)
                else if fate == Pending then EndsBy(e, tid) else fate
    {
      FateStep(events, e, tid);
    }
  }

  lemma CreateAsFated(c: Client, events: seq<Event>, text: string, useTimeout: bool)
    requires AsFated(c, events)
    ensures AsFated(Created(c, text, useTimeout), events + [Create(text, useTimeout)])
  {
    hide FateOf, Makes;
    FateSteps(events, Create(text, useTimeout));
  }

  lemma ExecuteAsFated(c: Client, events: seq<Event>, tid: int, sending: Sending)
    requires AsFated(c, events) && (!sending.Accepted? ==> tid in c.pending)
    ensures AsFated(Executed(c, tid, sending), events + [Execute(tid, sending)])
  {
    hide FateOf, Makes;
    FateSteps(events, Execute(tid, sending));
  }

  lemma SentAsFated(c: Client, events: seq<Event>, tid: int)
    requires AsFated(c, events)
    ensures AsFated(OnSent(c, tid), events + [Sent(tid)])
  {
    hide FateOf, Makes;
    FateSteps(events, Sent(tid));
  }

  lemma ResponseAsFated(c: Client, events: seq<Event>, tid: int, text: string, parses: bool)
    requires AsFated(c, events)
    ensures AsFated(OnResponse(c, tid, text, parses), events + [Response(tid, text, parses)])
  {
    hide FateOf, Makes;
    FateSteps(events, Response(tid, text, parses));
  }

  lemma TimeoutAsFated(c: Client, events: seq<Event>, tid: int)
    requires AsFated(c, events)
    ensures AsFated(OnTimeout(c, tid), events + [Timeout(tid)])
  {
    hide FateOf, Makes;
    FateSteps(events, Timeout(tid));
  }

  lemma FailureAsFated(c: Client, events: seq<Event>, tid: int)
    requires AsFated(c, events)
    ensures AsFated(OnFailure(c, tid), events + [Failure(tid)])
  {
    hide FateOf, Makes;
    FateSteps(events, Failure(tid));
  }

  /** Whichever of reply, timeout, error and refusal comes first for a task id decides its query, and nothing that comes
      later changes it. */
  lemma {:induction false} RunAsFated(events: seq<Event>)
    requires Disciplined(events)
    ensures AsFated(Run(INITIAL, events), events)
  {
    if events != [] {
      var front, last := events[..|events| - 1], events[|events| - 1];
      RunAsFated(front);
      assert events == front + [last];
      var c := Run(INITIAL, front);
      match last
      case Create(text, useTimeout) => CreateAsFated(c, front, text, useTimeout);
      case Execute(tid, sending) => ExecuteAsFated(c, front, tid, sending);
      case Sent(tid) => SentAsFated(c, front, tid);
      case Response(tid, text, parses) => ResponseAsFated(c, front, tid, text, parses);
      case Timeout(tid) => TimeoutAsFated(c, front, tid);
      case Failure(tid) => FailureAsFated(c, front, tid);
    }
  }

  /** Every query made is pending, lost or finished, and only one of them; the ids made are the odd numbers from 1 on. */
  lemma EveryQueryAccounted(events: seq<Event>, tid: int)
    requires Disciplined(events)
    ensures var c := Run(INITIAL, events);
            var finished := exists outcome :: (tid, outcome) in c.finished;
            && (tid in c.created <==> tid in c.pending || tid in c.lost || finished)
            && !(tid in c.pending && tid in c.lost) && !(tid in c.pending && finished) && !(tid in c.lost && finished)
            && (tid in c.created <==> 0 < tid < c.nextTid && tid % 2 == 1)
  {
    RunAsFated(events);
    FateBeforeMade(events, tid);
    var c := Run(INITIAL, events);
    if FateOf(events, tid).Ended? {
      assert (tid, FateOf(events, tid).outcome) in c.finished;
    }
  }

  /** No result is handed out twice for a query, and none is handed out differently from its first completion. */
  lemma FinishedOnce(events: seq<Event>, i: nat, j: nat)
    requires Disciplined(events)
    requires i < j < |Run(INITIAL, events).finished|
    ensures Run(INITIAL, events).finished[i].0 != Run(INITIAL, events).finished[j].0
    ensures var f := Run(INITIAL, events).finished[i]; FateOf(events, f.0) == Ended(f.1)
  {
    RunAsFated(events);
    var f := Run(INITIAL, events).finished[i];
    assert (f.0, f.1) in Run(INITIAL, events).finished;
  }

  lemma {:induction false} NothingLost(events: seq<Event>, tid: int)
    requires forall e | e in events :: e.Response? ==> e.parses
    ensures FateOf(events, tid) != Lost
  {
    if events != [] {
      assert events[|events| - 1] in events;
      assert forall e | e in events[..|events| - 1] :: e in events;
      NothingLost(events[..|events| - 1], tid);
    }
  }

  /** When replies parse, no query is lost. */
  lemma RepliesParse(events: seq<Event>)
    requires Disciplined(events) && forall e | e in events :: e.Response? ==> e.parses
    ensures Run(INITIAL, events).lost == {}
  {
    RunAsFated(events);
    forall tid
      ensures tid !in Run(INITIAL, events).lost
    {
      NothingLost(events, tid);
    }
  }

  /** A reply, timeout, error or notice that comes late or for an even id changes nothing. */
  lemma LateChangesNothing(events: seq<Event>, e: Event)
    requires Disciplined(events) && (e.Sent? || e.Response? || e.Timeout? || e.Failure?)
    requires !FateOf(events, e.tid).Pending? || e.tid % 2 == 0
    ensures Step(Run(INITIAL, events), e) == Run(INITIAL, events)
  {
    RunAsFated(events);
    FateBeforeMade(events, e.tid);
  }

  /** Two results for the same query. */
  predicate Twice(finished: seq<(int, Outcome)>)
  {
    exists i, j :: 0 <= i < j < |finished| && finished[i].0 == finished[j].0
  }

  lemma TwiceAppended(finished: seq<(int, Outcome)>, x: (int, Outcome))
    requires !Twice(finished)
    ensures Twice(finished + [x]) <==> exists i :: 0 <= i < |finished| && finished[i].0 == x.0
  {
    var longer := finished + [x];
    if i :| 0 <= i < |finished| && finished[i].0 == x.0 {
      assert longer[i].0 == longer[|finished|].0;
    }
    if Twice(longer) {
      var i, j :| 0 <= i < j < |longer| && longer[i].0 == longer[j].0;
      assert longer[i] == finished[i];
    }
  }

  /** Executing a query while the interface is offline hands out a second result exactly if it had one. */
  lemma FinishesTwiceIff(events: seq<Event>, tid: int)
    requires Disciplined(events)
    ensures Twice(Executed(Run(INITIAL, events), tid, Offline).finished) <==> FateOf(events, tid).Ended?
  {
    RunAsFated(events);
    var c := Run(INITIAL, events);
    TwiceAppended(c.finished, (tid, Refused));
    if FateOf(events, tid).Ended? {
      var i :| 0 <= i < |c.finished| && c.finished[i] == (tid, FateOf(events, tid).outcome);
    }
    forall i | 0 <= i < |c.finished|
      ensures FateOf(events, c.finished[i].0).Ended?
    {
      assert (c.finished[i].0, c.finished[i].1) in c.finished;
    }
  }

  // ---------------------------------------------------------------- timeouts

  /** The query with this id is made, and with a timeout. */
  predicate MadeWithTimeout(events: seq<Event>, tid: int)
  {
    events != [] &&
      var front, last := events[..|events| - 1], events[|events| - 1];
      MadeWithTimeout(front, tid) || (last.Create? && last.useTimeout && tid == 2 * Makes(front) + 1)
  }

  /** The query made under a task id, read off the events. */
  function MadeAs(events: seq<Event>, tid: int): seq<Query>
  {
    if events == [] then []
    else
      var front, last := events[..|events| - 1], events[|events| - 1];
      if last.Create? && tid == 2 * Makes(front) + 1 then [Query(tid, last.text, last.useTimeout)] else MadeAs(front, tid)
  }

  /** The query was on its way, and was made with a timeout; since then nothing stopped the timer. What ends a query stops it,
      except that a query refused for want of an interface is not looked at further. */
  predicate TimerRuns(events: seq<Event>, tid: int)
  {
    events != [] &&
      var front, last := events[..|events| - 1], events[|events| - 1];
      if last == Sent(tid) && FateOf(front, tid).Pending? then TimerRuns(front, tid) || exists q | q in MadeAs(front, tid) :: q.useTimeout
      else TimerRuns(front, tid) && !(FateOf(front, tid).Pending? && EndsBy(last, tid) != Pending && last != Execute(tid, NoHandler))
  }

  ghost predicate AsMade(c: Client, events: seq<Event>)
  {
    && (forall tid | tid in c.pending :: MadeAs(events, tid) == [c.pending[tid]])
    && (forall tid :: tid in c.timers <==> TimerRuns(events, tid))
  }

  lemma MadeAsStep(events: seq<Event>, e: Event)
    ensures forall tid :: MadeAs(events + [e], tid)
                       == if e.Create? && tid == 2 * Makes(events) + 1 then [Query(tid, e.text, e.useTimeout)] else MadeAs(events, tid)
    ensures forall tid :: TimerRuns(events + [e], tid) <==>
              if e == Sent(tid) && FateOf(events, tid).Pending? then TimerRuns(events, tid) || exists q | q in MadeAs(events, tid) :: q.useTimeout
              else TimerRuns(events, tid) && !(FateOf(events, tid).Pending? && EndsBy(e, tid) != Pending && e != Execute(tid, NoHandler))
  {
    assert (events + [e])[..|events|] == events;
  }

  lemma StepAsMade(c: Client, events: seq<Event>, e: Event)
    requires AsFated(c, events) && AsMade(c, events)
    requires e.Execute? && !e.sending.Accepted? ==> e.tid in c.pending
    ensures AsMade(Step(c, e), events + [e])
  {
    hide FateOf, MadeAs, TimerRuns, Makes;
    MadeAsStep(events, e);
  }

  /** Over any run: what is pending under an id is the query made under it, and its timer runs exactly if it was made with a
      timeout and a notice that it was sent came while it was pending. */
  lemma {:induction false} RunAsMade(events: seq<Event>)
    requires Disciplined(events)
    ensures AsMade(Run(INITIAL, events), events)
  {
    if events != [] {
      var front, last := events[..|events| - 1], events[|events| - 1];
      RunAsFated(front);
      RunAsMade(front);
      assert events == front + [last];
      StepAsMade(Run(INITIAL, front), front, last);
    }
  }

  /** A notice for the query came while it was pending. */
  predicate WasSent(events: seq<Event>, tid: int)
  {
    events != [] &&
      var front, last := events[..|events| - 1], events[|events| - 1];
      WasSent(front, tid) || (last == Sent(tid) && FateOf(front, tid).Pending?)
  }

  lemma {:induction false} NoFate(events: seq<Event>, tid: int)
    ensures FateOf(events, tid) == NotMade ==> !WasSent(events, tid) && !TimerRuns(events, tid) && MadeAs(events, tid) == []
    ensures FateOf(events, tid) != NotMade ==> |MadeAs(events, tid)| == 1
  {
    if events != [] {
      NoFate(events[..|events| - 1], tid);
    }
  }

  lemma {:induction false} RunsWhilePending(events: seq<Event>, tid: int)
    requires FateOf(events, tid).Pending?
    ensures |MadeAs(events, tid)| == 1
    ensures TimerRuns(events, tid) <==> WasSent(events, tid) && MadeAs(events, tid)[0].useTimeout
  {
    var front, last := events[..|events| - 1], events[|events| - 1];
    NoFate(front, tid);
    NoFate(events, tid);
    FateBeforeMade(front, tid);
    if FateOf(front, tid).Pending? {
      RunsWhilePending(front, tid);
    }
  }

  /** As long as a query is pending: it is the one made under its id, and its timer runs exactly if it was made with a timeout
      and it was sent. */
  lemma TimerRunsIff(events: seq<Event>, tid: int)
    requires Disciplined(events) && FateOf(events, tid).Pending?
    ensures var c := Run(INITIAL, events);
            && tid in c.pending && MadeAs(events, tid) == [c.pending[tid]]
            && (tid in c.timers <==> c.pending[tid].useTimeout && WasSent(events, tid))
  {
    RunAsFated(events);
    RunAsMade(events);
    RunsWhilePending(events, tid);
  }

  /** A timer only fires when it was started. */
  predicate TimersFire(events: seq<Event>)
  {
    events != [] ==>
      var front, last := events[..|events| - 1], events[|events| - 1];
      TimersFire(front) && (last.Timeout? ==> last.tid in Run(INITIAL, front).timers)
  }

  ghost predicate TimersFair(c: Client, events: seq<Event>)
  {
    && (forall tid | tid in c.pending && c.pending[tid].useTimeout :: MadeWithTimeout(events, tid))
    && (forall tid | tid in c.timers :: MadeWithTimeout(events, tid))
    && (forall f | f in c.finished && f.1 == TimedOut :: MadeWithTimeout(events, f.0))
  }

  lemma MadeStep(events: seq<Event>, e: Event)
    ensures forall tid :: MadeWithTimeout(events + [e], tid) <==>
              MadeWithTimeout(events, tid) || (e.Create? && e.useTimeout && tid == 2 * Makes(events) + 1)
  {
    assert (events + [e])[..|events|] == events;
  }

  /** A query made without a timeout, as those that wait for the user are, never times out. */
  lemma {:induction false} NoTimeoutUnlessAsked(events: seq<Event>)
    requires Disciplined(events) && TimersFire(events)
    ensures TimersFair(Run(INITIAL, events), events)
  {
    if events != [] {
      var front, last := events[..|events| - 1], events[|events| - 1];
      NoTimeoutUnlessAsked(front);
      RunAsFated(front);
      assert events == front + [last];
      MadeStep(front, last);
    }
  }
}

/** Whole runs of a procedure, with crashes at any point between two events. */
module ProcedureRecovery {
  import opened Procedures

  datatype Running = Down | Up(engine: Engine)

  /** `starts`, `returned` and `resumed` record the current procedure: the starts of its steps with their retries, the
      result each step returned last, and the number of times it was resumed after a reboot. */
  datatype World = World(disk: Disk, running: Running, starts: seq<(int, int)>, returned: map<int, Result>, resumed: nat)

  /** The procedure requested, and whether assertions are compiled in. */
  datatype Setting = Setting(procedure: Procedure, asserts: bool)

  datatype Event =
    | Submit
    | Crash
    | Boot
    | GuiAnswer
    | Refusal(reason: Result)
    | StepResult(result: Result)
    | DeviceUpdate(result: Result)
    | RestoreAnswer
    | FinishAnswer

  function With(w: World, ed: (Engine, Disk)): World
  {
    w.(running := Up(ed.0), disk := ed.1)
  }

  /** The constructor and the start of the call. */
  function Launched(c: Setting, w: World): World
  {
    var (es, d) := Construct(c.procedure.steps, w.disk, c.asserts);
    if es == [] then w.(running := Down, disk := d) else With(w, StartCall(c.procedure, es[0], d))
  }

  predicate Idle(w: World)
  {
    w.disk.update == [] && if w.running.Down? then w.disk.step <= 0 else w.running.engine.phase.Ended?
  }

  function Submitted(c: Setting, w: World): World
  {
    Launched(c, World(Note(w.disk, 0, 0), Down, [], map[], 0))
  }

  function Booted(c: Setting, w: World): World
  {
    var (step, d) := ReadStep(w.disk);
    if step < 0 then w.(disk := d) else Launched(c, w.(disk := d, resumed := w.resumed + 1))
  }

  function Started(w: World, e: Engine): World
  {
    With(w.(starts := w.starts + [(e.number, e.retry)]), GuiDone(e, w.disk))
  }

  function Step(c: Setting, w: World, ev: Event): World
  {
    match ev
    case Submit => if Idle(w) then Submitted(c, w) else w
    case Crash => w.(running := Down)
    case Boot => if w.running.Down? then Booted(c, w) else w
    case _ => if w.running.Down? then w else Answered(c, w, w.running.engine, ev)
  }

  /** What the running procedure does on an answer it waits for. */
  function Answered(c: Setting, w: World, e: Engine, ev: Event): World
  {
    match (e.phase, ev)
    case (AwaitGui, GuiAnswer) => Started(w, e)
    case (AwaitGui, Refusal(r)) => With(w, CallRefused(e, w.disk, r))
    case (AwaitStep, StepResult(r)) =>
      With(w.(returned := w.returned[e.number := r]), StepDone(c.procedure.steps, e, w.disk, r))
    case (AwaitStep, DeviceUpdate(r)) =>
      w.(running := Down, returned := w.returned[e.number := r], disk := w.disk.(update := [r]))
    case (AwaitRestore, RestoreAnswer) => With(w, RestoreDone(c.procedure.steps, e, w.disk))
    case (AwaitFinish(_), FinishAnswer) => w.(running := Up(FinishDone(e)))
    case _ => w
  }

  function Run(c: Setting, w: World, events: seq<Event>): World
    decreases |events|
  {
    if events == [] then w else Run(c, Step(c, w, events[0]), events[1..])
  }

  function Switched(executed: Executions): World
  {
    World(Disk(-1, 0, [], [], executed), Down, [], map[], 0)
  }

  /** The starts of steps since the last request, with their retries, as they happen in a run. */
  function StartsIn(c: Setting, executed: Executions, events: seq<Event>): seq<(int, int)>
  {
    if events == [] then []
    else
      var front, last := events[..|events| - 1], events[|events| - 1];
      var w := Run(c, Switched(executed), front);
      if last.Submit? && Idle(w) then []
      else if last.GuiAnswer? && w.running.Up? && w.running.engine.phase.AwaitGui?
        then StartsIn(c, executed, front) + [(w.running.engine.number, w.running.engine.retry)]
      else StartsIn(c, executed, front)
  }

  /** The result each step returned last since the last request. */
  function ReturnedIn(c: Setting, executed: Executions, events: seq<Event>): map<int, Result>
  {
    if events == [] then map[]
    else
      var front, last := events[..|events| - 1], events[|events| - 1];
      var w := Run(c, Switched(executed), front);
      if last.Submit? && Idle(w) then map[]
      else if (last.StepResult? || last.DeviceUpdate?) && w.running.Up? && w.running.engine.phase.AwaitStep?
        then ReturnedIn(c, executed, front)[w.running.engine.number := last.result]
      else ReturnedIn(c, executed, front)
  }

  /** The number of boots since the last request that found a step to go on with. */
  function ResumptionsIn(c: Setting, executed: Executions, events: seq<Event>): nat
  {
    if events == [] then 0
    else
      var front, last := events[..|events| - 1], events[|events| - 1];
      var w := Run(c, Switched(executed), front);
      if last.Submit? && Idle(w) then 0
      else ResumptionsIn(c, executed, front) + if last.Boot? && w.running.Down? && ReadStep(w.disk).0 >= 0 then 1 else 0
  }

  lemma {:induction false} RunSnoc(c: Setting, w: World, events: seq<Event>, ev: Event)
    ensures Run(c, w, events + [ev]) == Step(c, Run(c, w, events), ev)
    decreases |events|
  {
    hide Step;
    if events == [] {
      assert (events + [ev])[1..] == [];
    } else {
      assert (events + [ev])[1..] == events[1..] + [ev];
      RunSnoc(c, Step(c, w, events[0]), events[1..], ev);
    }
  }

  lemma RunLast(c: Setting, w: World, events: seq<Event>)
    requires events != []
    ensures Run(c, w, events) == Step(c, Run(c, w, events[..|events| - 1]), events[|events| - 1])
  {
    hide Run, Step;
    FrontAndLast(events);
    RunSnoc(c, w, events[..|events| - 1], events[|events| - 1]);
  }

  lemma FrontAndLast(events: seq<Event>)
    requires events != []
    ensures events == events[..|events| - 1] + [events[|events| - 1]]
  {
  }

  lemma LaunchRecords(c: Setting, w: World)
    ensures var w' := Launched(c, w); w'.starts == w.starts && w'.returned == w.returned && w'.resumed == w.resumed
  {
    hide Construct, StartCall;
  }

  lemma StepRecords(c: Setting, w: World, ev: Event)
    ensures var w' := Step(c, w, ev);
            if ev.Submit? && Idle(w) then w'.starts == [] && w'.returned == map[] && w'.resumed == 0
            else
              && w'.starts == w.starts + (if ev.GuiAnswer? && w.running.Up? && w.running.engine.phase.AwaitGui?
                                          then [(w.running.engine.number, w.running.engine.retry)] else [])
              && w'.returned == (if (ev.StepResult? || ev.DeviceUpdate?) && w.running.Up? && w.running.engine.phase.AwaitStep?
                                 then w.returned[w.running.engine.number := ev.result] else w.returned)
              && w'.resumed == w.resumed + if ev.Boot? && w.running.Down? && ReadStep(w.disk).0 >= 0 then 1 else 0
  {
    hide Launched, ReadStep, StepDone, CallRefused, RestoreDone;
    assert w.starts + [] == w.starts;
    LaunchRecords(c, World(Note(w.disk, 0, 0), Down, [], map[], 0));
    LaunchRecords(c, w.(disk := ReadStep(w.disk).1, resumed := w.resumed + 1));
  }

  /** The records kept along are the ones read off the run. */
  lemma {:induction false} RecordsAreTrue(c: Setting, executed: Executions, events: seq<Event>)
    ensures var w := Run(c, Switched(executed), events);
            && w.starts == StartsIn(c, executed, events) && w.returned == ReturnedIn(c, executed, events)
            && w.resumed == ResumptionsIn(c, executed, events)
  {
    hide Run, Step, Idle, ReadStep;
    if events == [] {
      RunNothing(c, Switched(executed));
    } else {
      var front, last := events[..|events| - 1], events[|events| - 1];
      RecordsAreTrue(c, executed, front);
      RunLast(c, Switched(executed), events);
      var w := Run(c, Switched(executed), front);
      StepRecords(c, w, last);
      assert w.starts + [] == w.starts;
    }
  }

  lemma RunNothing(c: Setting, w: World)
    ensures Run(c, w, []) == w
  {
  }

  /** An update of this device that is left behind for the next boot was successful. */
  predicate Possible(ev: Event)
  {
    ev.DeviceUpdate? ==> ev.result.status == 200
  }

  // ---------------------------------------------------------------- what holds in every reachable state

  predicate AllOk(results: seq<Result>)
  {
    forall r | r in results :: r.status == 200
  }

  predicate Before(a: (int, int), b: (int, int))
  {
    a.0 < b.0 || (a.0 == b.0 && a.1 < b.1)
  }

  /** The results are those the steps returned, in the order of the steps. */
  predicate Returned(results: seq<Result>, returned: map<int, Result>)
  {
    forall number | 1 <= number <= |results| :: number in returned && returned[number] == results[number - 1]
  }

  /** Every start is later than all before, and its retry within the bound. */
  predicate StartsInv(starts: seq<(int, int)>, n: nat)
  {
    && (forall s | s in starts :: 1 <= s.0 <= n && 0 <= s.1 <= MAX_RETRIES)
    && (forall i, j | 0 <= i < j < |starts| :: Before(starts[i], starts[j]))
  }

  /** The procedure was executed as often as it may be. */
  predicate Exceeded(c: Setting, d: Disk)
  {
    c.procedure.exec.Limit? && d.executed.Listed? && d.executed.count >= c.procedure.exec.n
  }

  /** With assertions compiled in, the last step is not resumed. */
  predicate Blocked(c: Setting, d: Disk)
  {
    c.asserts && 0 < d.step && |c.procedure.steps| <= d.step && d.update == []
  }

  /** The results on disk matter only as long as the procedure may be executed again. */
  predicate DiskInv(c: Setting, d: Disk)
  {
    var n := |c.procedure.steps|;
    && -1 <= d.step <= n + 1 && (n == 0 ==> d.step <= 0)
    && 0 <= d.retry && (d.retry <= MAX_RETRIES || Blocked(c, d))
    && (d.step <= 0 ==> d.update == [] && d.retry == 0)
    && (d.step == -1 ==> d.results == [])
    && (!Exceeded(c, d) ==> |d.results| == (if d.step > 0 then d.step - 1 else 0) && AllOk(d.results))
    && (d.update != [] ==> 1 <= d.step <= n && |d.update| == 1 && d.update[0].status == OK)
    && (d.step > 0 ==> c.procedure.identified && c.procedure.described && !c.procedure.exec.NotNumeric?)
    && (d.step > 0 && c.procedure.exec.Limit? ==> d.executed.Listed?)
  }

  /** The display line is the one of an uninterrupted run, or 1 where the run was resumed at an update of the device
      controller. */
  predicate GuiInv(steps: seq<Procedures.Step>, e: Engine)
    requires e.number >= 1
  {
    e.gui == Uninterrupted(steps, e.number).gui || (e.number > 1 && IsDcUpdate(steps, e.pos) && e.gui == 1)
  }

  /** One more success is within the limit. The first execution takes place whatever the limit. */
  predicate MayCount(c: Setting, executed: Executions)
  {
    c.procedure.exec.Limit? ==> executed.Listed? && (executed.count < c.procedure.exec.n || executed.count == 0)
  }

  predicate ActiveInv(c: Setting, e: Engine, d: Disk, starts: seq<(int, int)>)
  {
    var steps := c.procedure.steps;
    && c.procedure.identified && c.procedure.described && !c.procedure.exec.NotNumeric? && MayCount(c, d.executed)
    && e.number == e.pos + 1 <= |steps| && 0 <= e.retry <= MAX_RETRIES && AllOk(e.results) && d.update == []
    && (if e.phase.AwaitRestore? then |e.results| == e.number && IsDcUpdate(steps, e.pos) && e.gui == 1
        else |e.results| == e.pos && GuiInv(steps, e))
    && e.results[..e.pos] == d.results
    && (if e.phase.AwaitGui?
        then (d.step == e.number || (d.step == 0 && e.number == 1)) && d.retry <= e.retry
             && forall s | s in starts :: Before(s, (e.number, e.retry))
        else d.step == e.number && d.retry == e.retry)
  }

  predicate EngineInv(c: Setting, e: Engine, d: Disk, starts: seq<(int, int)>)
  {
    match e.phase
    case Constructed => false
    case AwaitFinish(status) => d.step == -1 && (status == OK ==> |e.results| == |c.procedure.steps| && AllOk(e.results))
    case Ended(reply) =>
      (d.step <= 0 || Exceeded(c, d)) && (reply == OK ==> |e.results| == |c.procedure.steps| && AllOk(e.results))
    case _ => ActiveInv(c, e, d, starts)
  }

  predicate NotLater(starts: seq<(int, int)>, d: Disk)
  {
    forall s | s in starts :: !Before((d.step, d.retry), s)
  }

  /** Rises with every resumption and stays below a bound. */
  function Rank(d: Disk, n: nat): int
  {
    if d.step == -1 then 5 * (n + 2) else 5 * d.step + d.retry
  }

  /** A running procedure holds results the steps returned; a finished one does if it succeeded. */
  predicate HoldsReturned(e: Engine, returned: map<int, Result>)
  {
    match e.phase
    case AwaitFinish(status) => status == OK ==> Returned(e.results, returned)
    case Ended(reply) => reply == OK ==> Returned(e.results, returned)
    case _ => Returned(e.results, returned)
  }

  predicate WorldInv(c: Setting, w: World)
  {
    && DiskInv(c, w.disk)
    && StartsInv(w.starts, |c.procedure.steps|)
    && (w.disk.step != -1 ==> NotLater(w.starts, w.disk))
    && (!Exceeded(c, w.disk) ==> Returned(w.disk.results + w.disk.update, w.returned))
    && (!c.asserts ==> w.resumed <= Rank(w.disk, |c.procedure.steps|))
    && (w.running.Up? ==>
          EngineInv(c, w.running.engine, w.disk, w.starts) && HoldsReturned(w.running.engine, w.returned))
  }

  // ---------------------------------------------------------------- every event keeps it

  lemma SwitchedKeeps(c: Setting, executed: Executions)
    ensures WorldInv(c, Switched(executed))
  {
  }

  lemma FreshKeeps(c: Setting, w: World)
    requires WorldInv(c, w) && w.running.Down? && w.disk.update == [] && w.disk.step == 0 && w.starts == []
    ensures WorldInv(c, Launched(c, w))
  {
  }

  lemma FoundAgain(steps: seq<Procedures.Step>, s: nat)
    requires s >= 1
    ensures var p := Replay(steps, s);
            p.pos == s - 1 && p.number == s
            && (p.gui == Uninterrupted(steps, s).gui || (s > 1 && IsDcUpdate(steps, s - 1) && p.gui == 1))
  {
    ReplayPlace(steps, s);
    ReplayAgrees(steps, s);
  }

  /** What a resumption comes to. */
  lemma Resumed(c: Setting, w: World)
    requires WorldInv(c, w) && w.running.Down? && w.disk.update == [] && w.disk.step > 0
    ensures var s, retry, r := w.disk.step, w.disk.retry + 1, w.disk.results;
            var n, p := |c.procedure.steps|, Replay(c.procedure.steps, s);
            p.pos == s - 1 && p.number == s &&
            Launched(c, w) ==
              if Blocked(c, w.disk) then w.(disk := w.disk.(retry := retry))
              else if retry > MAX_RETRIES then With(w, (EngineAt(p, retry, r, Ended(FAILED)), Note(w.disk, -1, 0)))
              else if Exceeded(c, w.disk) then With(w, (EngineAt(p, retry, r, Ended(BAD_REQUEST)), w.disk.(retry := retry)))
              else if s <= n && c.procedure.steps[s - 1].described
                then With(w, (EngineAt(p, retry, r, AwaitGui), w.disk.(retry := retry)))
              else if s <= n
                then With(w, Shutdown(EngineAt(p, retry, r + [NOT_DESCRIBED], Constructed), w.disk, FAILED))
              else With(w, Shutdown(EngineAt(p, retry, r, Constructed), w.disk, OK))
  {
    hide Replay, Uninterrupted;
    FoundAgain(c.procedure.steps, w.disk.step);
  }

  /** The procedure is found again where it was left, one retry later; or it is given up or refused; or it was through
      already. */
  lemma ResumedKeeps(c: Setting, w: World)
    requires WorldInv(c, w) && w.running.Down? && w.disk.update == [] && w.disk.step > 0
    ensures WorldInv(c, Launched(c, w.(resumed := w.resumed + 1)))
  {
    hide Replay, Uninterrupted, Launched;
    Resumed(c, w);
    LaunchIgnoresCount(c, w);
    FoundAgain(c.procedure.steps, w.disk.step);
    assert w.disk.results + [] == w.disk.results;
    assert !Exceeded(c, w.disk) ==> w.disk.results[..w.disk.step - 1] == w.disk.results;
  }

  lemma LaunchIgnoresCount(c: Setting, w: World)
    ensures Launched(c, w.(resumed := w.resumed + 1)) == Launched(c, w).(resumed := w.resumed + 1)
  {
    hide Construct, StartCall;
  }

  lemma SubmittedKeeps(c: Setting, w: World)
    requires WorldInv(c, w) && Idle(w)
    ensures WorldInv(c, Submitted(c, w))
  {
    FreshKeeps(c, World(Note(w.disk, 0, 0), Down, [], map[], 0));
  }

  /** Reading the step file puts the result of an update of this device in its place. */
  lemma ReadStepKeeps(c: Setting, w: World)
    requires WorldInv(c, w) && w.running.Down?
    ensures var d := ReadStep(w.disk).1; WorldInv(c, w.(disk := d)) && d.update == [] && ReadStep(d) == (ReadStep(w.disk).0, d)
  {
    if w.disk.update != [] {
      assert w.disk.update == [w.disk.update[0]];
      var d := ReadStep(w.disk).1;
      assert d.results + d.update == d.results;
    }
  }

  lemma BootedKeeps(c: Setting, w: World)
    requires WorldInv(c, w) && w.running.Down?
    ensures WorldInv(c, Booted(c, w))
  {
    hide WorldInv, Launched;
    ReadStepKeeps(c, w);
    var (step, d) := ReadStep(w.disk);
    if step >= 0 {
      ResumedKeeps(c, w.(disk := d));
    }
  }

  lemma StartedKeeps(c: Setting, w: World)
    requires WorldInv(c, w) && w.running.Up? && w.running.engine.phase.AwaitGui?
    ensures WorldInv(c, Started(w, w.running.engine))
  {
    var e := w.running.engine;
    var starts := w.starts + [(e.number, e.retry)];
    forall i, j | 0 <= i < j < |starts|
      ensures Before(starts[i], starts[j])
    {
      if j == |w.starts| {
        assert starts[i] == w.starts[i] && w.starts[i] in w.starts;
      }
    }
    assert forall s | s in starts :: s in w.starts || s == (e.number, e.retry);
  }

  lemma RefusedKeeps(c: Setting, w: World, r: Result)
    requires WorldInv(c, w) && w.running.Up? && w.running.engine.phase.AwaitGui?
    ensures WorldInv(c, With(w, CallRefused(w.running.engine, w.disk, r)))
  {
  }

  /** The update of a result in the map leaves the results of the steps before in place. */
  lemma ReturnedMore(results: seq<Result>, returned: map<int, Result>, number: int, r: Result)
    requires Returned(results, returned) && |results| == number - 1
    ensures Returned(results, returned[number := r]) && Returned(results + [r], returned[number := r])
  {
  }

  lemma NextStepKeeps(c: Setting, w: World, e: Engine, checked: bool)
    requires WorldInv(c, w.(running := Down)) && Returned(e.results, w.returned) && AllOk(e.results) && w.disk.update == []
    requires e.number == e.pos + 1 <= |c.procedure.steps| && 0 <= e.retry <= MAX_RETRIES && |e.results| == e.number
    requires w.disk.step == e.number && MayCount(c, w.disk.executed)
    requires Place(e.pos + 1, e.number + 1, e.gui + 1) == Uninterrupted(c.procedure.steps, e.number + 1)
    ensures WorldInv(c, With(w, NextStep(c.procedure.steps, e, w.disk, checked)))
  {
    assert e.results[..e.pos + 1] == e.results && e.results + [] == e.results;
    assert forall s | s in w.starts :: Before(s, (e.number + 1, 0)) && Before(s, (e.number + 1, e.retry));
  }

  lemma StepDoneKeeps(c: Setting, w: World, r: Result)
    requires WorldInv(c, w) && w.running.Up? && w.running.engine.phase.AwaitStep?
    ensures WorldInv(c, Answered(c, w, w.running.engine, StepResult(r)))
  {
    var e := w.running.engine;
    var w1 := w.(returned := w.returned[e.number := r]);
    var e1 := e.(results := e.results + [r]);
    ReturnedMore(e.results, w.returned, e.number, r);
    assert w.disk.results + [] == w.disk.results == e.results by { assert e.results[..e.pos] == e.results; }
    if r.status == OK {
      if IsDcUpdate(c.procedure.steps, e.pos) {
        assert e1.results[..e.pos] == w.disk.results;
      } else {
        UninterruptedPlace(c.procedure.steps, e.number);
        NextStepKeeps(c, w1, e1, true);
      }
    }
  }

  lemma DeviceUpdateKeeps(c: Setting, w: World, r: Result)
    requires WorldInv(c, w) && w.running.Up? && w.running.engine.phase.AwaitStep? && r.status == OK
    ensures WorldInv(c, Answered(c, w, w.running.engine, DeviceUpdate(r)))
  {
    var e := w.running.engine;
    ReturnedMore(e.results, w.returned, e.number, r);
    assert w.disk.results == e.results by { assert e.results[..e.pos] == e.results; }
  }

  lemma RestoreDoneKeeps(c: Setting, w: World)
    requires WorldInv(c, w) && w.running.Up? && w.running.engine.phase.AwaitRestore?
    ensures WorldInv(c, Answered(c, w, w.running.engine, RestoreAnswer))
  {
    UninterruptedPlace(c.procedure.steps, w.running.engine.number);
    NextStepKeeps(c, w, w.running.engine, false);
  }

  lemma AnsweredKeeps(c: Setting, w: World, ev: Event)
    requires WorldInv(c, w) && w.running.Up? && Possible(ev)
    ensures WorldInv(c, Answered(c, w, w.running.engine, ev))
  {
    match (w.running.engine.phase, ev)
    case (AwaitGui, GuiAnswer) => StartedKeeps(c, w);
    case (AwaitGui, Refusal(r)) => RefusedKeeps(c, w, r);
    case (AwaitStep, StepResult(r)) => StepDoneKeeps(c, w, r);
    case (AwaitStep, DeviceUpdate(r)) => DeviceUpdateKeeps(c, w, r);
    case (AwaitRestore, RestoreAnswer) => RestoreDoneKeeps(c, w);
    case (AwaitFinish(_), FinishAnswer) =>
    case _ =>
  }

  lemma StepKeeps(c: Setting, w: World, ev: Event)
    requires WorldInv(c, w) && Possible(ev)
    ensures WorldInv(c, Step(c, w, ev))
  {
    match ev
    case Submit => if Idle(w) { SubmittedKeeps(c, w); }
    case Crash =>
    case Boot => if w.running.Down? { BootedKeeps(c, w); }
    case _ => if w.running.Up? { AnsweredKeeps(c, w, ev); }
  }

  lemma {:induction false} RunKeeps(c: Setting, w: World, events: seq<Event>)
    requires WorldInv(c, w) && forall ev | ev in events :: Possible(ev)
    ensures WorldInv(c, Run(c, w, events))
    decreases |events|
  {
    hide WorldInv, Step;
    if events != [] {
      StepKeeps(c, w, events[0]);
      RunKeeps(c, Step(c, w, events[0]), events[1..]);
    }
  }

  // ---------------------------------------------------------------- what it means

  /** A procedure that succeeds has, over any number of reboots, one result for every step in the order of the steps: the
      one the step returned last, and all of them good. */
  lemma SuccessIsComplete(c: Setting, executed: Executions, events: seq<Event>)
    requires forall ev | ev in events :: Possible(ev)
    ensures var w := Run(c, Switched(executed), events);
            var returned := ReturnedIn(c, executed, events);
            w.running.Up? && (w.running.engine.phase == AwaitFinish(200) || w.running.engine.phase == Ended(200)) ==>
              var results := w.running.engine.results;
              |results| == |c.procedure.steps| && AllOk(results)
              && forall number | 1 <= number <= |c.procedure.steps| :: number in returned && returned[number] == results[number - 1]
  {
    hide Run, ReturnedIn, StartsIn, ResumptionsIn;
    SwitchedKeeps(c, executed);
    RunKeeps(c, Switched(executed), events);
    RecordsAreTrue(c, executed, events);
  }

  /** A crash in the middle of a step: after the reboot the procedure stands before the same step, with the results of the
      steps before it, and one retry later. The display line is the same too, unless the step is an update of the device
      controller and not the first: then the line starts over. */
  lemma ResumesWhereInterrupted(c: Setting, w: World)
    requires WorldInv(c, w) && w.running.Up? && 0 < w.disk.step && w.disk.retry < 3
    requires !Blocked(c, w.disk) && !Exceeded(c, w.disk)
    requires w.running.engine.phase.AwaitGui? || w.running.engine.phase.AwaitStep? || w.running.engine.phase.AwaitRestore?
    requires c.procedure.steps[w.running.engine.pos].described
    ensures var e, w' := w.running.engine, Step(c, Step(c, w, Crash), Boot);
            && w'.running.Up? && w'.running.engine.phase.AwaitGui?
            && var e' := w'.running.engine;
               && e'.pos == e.pos && e'.number == e.number && e'.retry == w.disk.retry + 1
               && e'.results == e.results[..e.pos] == w.disk.results
               && e'.gui == if e.number > 1 && IsDcUpdate(c.procedure.steps, e.pos) then 1 else Uninterrupted(c.procedure.steps, e.number).gui
  {
    hide Uninterrupted;
    var down := Step(c, w, Crash);
    StepKeeps(c, w, Crash);
    Resumed(c, down);
    LaunchIgnoresCount(c, down);
    ReplayPlace(c.procedure.steps, w.disk.step);
    UninterruptedPlace(c.procedure.steps, w.disk.step);
  }

  /** A step that was noted but is not shown yet has no start to its name: taken up after a crash it has retry 1, whatever the
      retry of the process that came to it. */
  lemma NotedNotStarted(c: Setting, w: World, ev: Event)
    requires WorldInv(c, w) && Possible(ev) && !ev.Submit? && !Blocked(c, Step(c, w, ev).disk) && !Exceeded(c, w.disk)
    requires w.running.Up? && !w.running.engine.phase.AwaitGui?
    requires Step(c, w, ev).running.Up? && Step(c, w, ev).running.engine.phase.AwaitGui?
    ensures var w1 := Step(c, w, ev);
            var e1, w2 := w1.running.engine, Step(c, Step(c, w1, Crash), Boot);
            && e1.number == w.running.engine.number + 1 <= |c.procedure.steps|
            && (c.procedure.steps[e1.pos].described ==> w2.running.Up? && w2.running.engine.number == e1.number && w2.running.engine.retry == 1)
  {
  }

  /** A step that updates this device and takes the program down with it: the next boot goes on with the step after it, with
      the result the update left and retry 1. */
  lemma UpdateGoesOn(c: Setting, w: World, r: Result)
    requires WorldInv(c, w) && w.running.Up? && w.running.engine.phase.AwaitStep? && r.status == 200 && !Exceeded(c, w.disk)
    requires var k := w.disk.step; k < |c.procedure.steps| && c.procedure.steps[k].described && (c.asserts ==> k + 1 < |c.procedure.steps|)
    ensures var w' := Step(c, Step(c, w, DeviceUpdate(r)), Boot);
            && w'.running.Up? && w'.running.engine.phase.AwaitGui? && w'.disk.update == []
            && w'.running.engine.number == w.running.engine.number + 1 && w'.running.engine.retry == 1
            && w'.running.engine.results == w.running.engine.results + [r]
  {
    hide Replay, Uninterrupted, StartsInv, NotLater, Launched;
    var w1 := Step(c, w, DeviceUpdate(r));
    var d := ReadStep(w1.disk).1;
    assert w.running.engine.results[..w.running.engine.pos] == w.running.engine.results;
    StepKeeps(c, w, DeviceUpdate(r));
    ReadStepKeeps(c, w1);
    Resumed(c, w1.(disk := d));
    LaunchIgnoresCount(c, w1.(disk := d));
    FoundAgain(c.procedure.steps, d.step);
  }

  predicate Succeeded(w: World)
  {
    w.running.Up? && w.running.engine.phase == AwaitFinish(200)
  }

  function Count(executed: Executions): int
  {
    if executed.Listed? then executed.count else 0
  }

  /** From `x` to the state `ed` the count has risen by one exactly if that is a success. */
  predicate Counts(x: Executions, ed: (Engine, Disk))
  {
    && Count(ed.1.executed) == Count(x) + (if ed.0.phase == AwaitFinish(OK) then 1 else 0)
    && (ed.0.phase == AwaitFinish(OK) ==> ed.1.executed.Listed?)
  }

  lemma ShutdownCounts(e: Engine, d: Disk, status: int)
    ensures Counts(d.executed, Shutdown(e, d, status))
  {
  }

  lemma StartCallCounts(p: Procedure, e: Engine, d: Disk)
    requires e.phase == Constructed
    ensures Counts(d.executed, StartCall(p, e, d))
  {
    hide Shutdown;
    var d1 := if p.exec.Limit? then d.(executed := ExecExceeded(d.executed, p.exec.n).1) else d;
    ShutdownCounts(e.(results := e.results + [NOT_DESCRIBED]), d1, FAILED);
    ShutdownCounts(e, d1, OK);
  }

  lemma NextStepCounts(steps: seq<Procedures.Step>, e: Engine, d: Disk, checked: bool)
    ensures Counts(d.executed, NextStep(steps, e, d, checked))
  {
    hide Shutdown;
    var e1 := e.(pos := e.pos + 1, number := e.number + 1, gui := e.gui + 1, phase := AwaitGui);
    var d1 := NoteResults(d, e1.number, e1.results);
    ShutdownCounts(e1.(results := e1.results + [NOT_DESCRIBED]), d1, FAILED);
    ShutdownCounts(e1, d, OK);
  }

  lemma StepDoneCounts(steps: seq<Procedures.Step>, e: Engine, d: Disk, r: Result)
    ensures Counts(d.executed, StepDone(steps, e, d, r))
  {
    hide Shutdown, NextStep;
    var e1 := e.(results := e.results + [r]);
    ShutdownCounts(e1, d, FAILED);
    NextStepCounts(steps, e1, d, true);
  }

  lemma LaunchCounts(c: Setting, w: World)
    requires w.running.Down?
    ensures var w' := Launched(c, w);
            && Count(w'.disk.executed) == Count(w.disk.executed) + (if Succeeded(w') then 1 else 0)
            && (Succeeded(w') ==> w'.disk.executed.Listed?)
  {
    hide StartCall, Replay;
    var (es, d) := Construct(c.procedure.steps, w.disk, c.asserts);
    if es != [] {
      StartCallCounts(c.procedure, es[0], d);
    }
  }

  /** The count of executions rises by one with every success, and with nothing else. */
  lemma SuccessIsCounted(c: Setting, w: World, ev: Event)
    ensures Count(Step(c, w, ev).disk.executed)
         == Count(w.disk.executed) + if Succeeded(Step(c, w, ev)) && !Succeeded(w) then 1 else 0
    ensures Succeeded(Step(c, w, ev)) && !Succeeded(w) ==> Step(c, w, ev).disk.executed.Listed?
  {
    hide Launched, StepDone, NextStep, Shutdown;
    LaunchCounts(c, World(Note(w.disk, 0, 0), Down, [], map[], 0));
    LaunchCounts(c, w.(disk := ReadStep(w.disk).1, resumed := w.resumed + 1, running := Down));
    if w.running.Up? {
      var e := w.running.engine;
      match ev
      case Refusal(r) =>
        var (e1, d1) := GuiDone(e, w.disk);
        ShutdownCounts(e1.(results := e1.results + [r]), d1, FAILED);
      case StepResult(r) => StepDoneCounts(c.procedure.steps, e, w.disk, r);
      case RestoreAnswer => NextStepCounts(c.procedure.steps, e, w.disk, false);
      case _ =>
    }
  }

  function Max(a: int, b: int): int
  {
    if a < b then b else a
  }

  lemma StepWithinLimit(c: Setting, w: World, ev: Event)
    requires WorldInv(c, w) && Possible(ev) && c.procedure.exec.Limit?
    ensures Count(Step(c, w, ev).disk.executed) <= Max(Count(w.disk.executed), Max(c.procedure.exec.n, 1))
  {
    hide Replay, Uninterrupted, StartsInv, NotLater, Returned, Rank;
  }

  /** Over any run, crashes included, a procedure is not executed successfully more often than its limit says; except that it
      is executed once in any case. */
  lemma {:induction false} LimitKept(c: Setting, w: World, events: seq<Event>)
    requires WorldInv(c, w) && c.procedure.exec.Limit? && forall ev | ev in events :: Possible(ev)
    ensures Count(Run(c, w, events).disk.executed) <= Max(Count(w.disk.executed), Max(c.procedure.exec.n, 1))
    decreases |events|
  {
    hide WorldInv, Step;
    if events != [] {
      StepKeeps(c, w, events[0]);
      StepWithinLimit(c, w, events[0]);
      LimitKept(c, Step(c, w, events[0]), events[1..]);
    }
  }

  function StartsOf(starts: seq<(int, int)>, number: int): nat
  {
    if starts == [] then 0
    else StartsOf(starts[..|starts| - 1], number) + if starts[|starts| - 1].0 == number then 1 else 0
  }

  lemma {:induction false} StartsCounted(starts: seq<(int, int)>, n: nat, number: int)
    requires StartsInv(starts, n)
    ensures starts != [] ==>
              var last := starts[|starts| - 1];
              && |starts| <= 4 * (last.0 - 1) + last.1 + 1
              && StartsOf(starts, number) <= (if last.0 < number then 0 else if last.0 == number then last.1 + 1 else 4)
  {
    if starts != [] {
      var front, last := starts[..|starts| - 1], starts[|starts| - 1];
      assert forall s | s in front :: s in starts;
      StartsCounted(front, n, number);
      assert last in starts;
      if front != [] {
        assert front[|front| - 1] in starts && Before(front[|front| - 1], last);
      }
    }
  }

  /** Whatever crashes happen, no step of a procedure is started more than four times, and without assertions a procedure is
      resumed a bounded number of times. */
  lemma StartsBounded(c: Setting, executed: Executions, events: seq<Event>, number: int)
    requires forall ev | ev in events :: Possible(ev)
    ensures var starts := StartsIn(c, executed, events);
            && StartsOf(starts, number) <= 4
            && |starts| <= 4 * |c.procedure.steps|
            && (forall i, j | 0 <= i < j < |starts| :: Before(starts[i], starts[j]))
            && (!c.asserts ==> ResumptionsIn(c, executed, events) <= 5 * (|c.procedure.steps| + 2))
  {
    hide Run, ReturnedIn, StartsIn, ResumptionsIn;
    SwitchedKeeps(c, executed);
    RunKeeps(c, Switched(executed), events);
    RecordsAreTrue(c, executed, events);
    var w := Run(c, Switched(executed), events);
    StartsCounted(w.starts, |c.procedure.steps|, number);
    if w.starts != [] {
      assert w.starts[|w.starts| - 1] in w.starts;
    }
  }

  /** No event but a new request takes a procedure back, and every resumption takes it forward. */
  lemma StepForward(c: Setting, w: World, ev: Event)
    requires WorldInv(c, w) && Possible(ev) && !ev.Submit?
    ensures Rank(Step(c, w, ev).disk, |c.procedure.steps|) >= Rank(w.disk, |c.procedure.steps|)
    ensures ev.Boot? && w.running.Down? && w.disk.step > 0 ==> Rank(Step(c, w, ev).disk, |c.procedure.steps|) > Rank(w.disk, |c.procedure.steps|)
  {
    hide Replay, Uninterrupted, StartsInv, NotLater, Returned;
    if ev.Boot? && w.running.Down? {
      ReadStepKeeps(c, w);
    }
  }

  /** An answer of the display or the result of a step, with the process still running. */
  predicate IsAnswer(ev: Event)
  {
    ev.GuiAnswer? || ev.Refusal? || ev.StepResult? || ev.RestoreAnswer? || ev.FinishAnswer?
  }

  /** The retry is not set back from step to step. */
  lemma {:induction false} RetryCarriesOver(c: Setting, w: World, events: seq<Event>)
    requires w.running.Up? && forall ev | ev in events :: IsAnswer(ev)
    ensures var w' := Run(c, w, events); w'.running.Up? && w'.running.engine.retry == w.running.engine.retry
    decreases |events|
  {
    hide Step;
    if events != [] {
      assert events[0] in events && forall ev | ev in events[1..] :: ev in events;
      AnswerKeepsRetry(c, w, events[0]);
      RetryCarriesOver(c, Step(c, w, events[0]), events[1..]);
    }
  }

  lemma AnswerKeepsRetry(c: Setting, w: World, ev: Event)
    requires w.running.Up? && IsAnswer(ev)
    ensures var w' := Step(c, w, ev); w'.running.Up? && w'.running.engine.retry == w.running.engine.retry
  {
  }

  /** So once a process runs with the last retry, every step it still comes to is started a first time only: at its first
      crash the procedure is given up. */
  lemma LastChance(c: Setting, w: World, events: seq<Event>)
    requires WorldInv(c, w) && w.running.Up? && w.running.engine.retry == 3
    requires forall ev | ev in events :: IsAnswer(ev)
    requires var e := Run(c, w, events).running;
             e.Up? && e.engine.phase.AwaitGui? && (c.asserts ==> e.engine.number < |c.procedure.steps|)
    ensures var w0 := Run(c, w, events);
            var w1 := Step(c, w0, GuiAnswer);
            var w2 := Step(c, Step(c, w1, Crash), Boot);
            && w1.starts == w0.starts + [(w0.running.engine.number, 3)] && w2.starts == w1.starts
            && w2.running.Up? && w2.running.engine.phase == Ended(500) && w2.disk.step == -1
  {
    hide WorldInv, Run, Step;
    RunKeeps(c, w, events);
    RetryCarriesOver(c, w, events);
    GivenUp(c, Run(c, w, events));
  }

  lemma GivenUp(c: Setting, w: World)
    requires WorldInv(c, w) && w.running.Up? && (c.asserts ==> w.running.engine.number < |c.procedure.steps|)
    requires w.running.engine.phase.AwaitGui? && w.running.engine.retry == 3
    ensures var w1 := Step(c, w, GuiAnswer);
            var w2 := Step(c, Step(c, w1, Crash), Boot);
            && w1.starts == w.starts + [(w.running.engine.number, 3)] && w2.starts == w1.starts
            && w2.running.Up? && w2.running.engine.phase == Ended(500) && w2.disk.step == -1
  {
    hide Replay;
  }

  /** A request begins at the beginning; the first with a limit puts the procedure on the list, also when it is refused for want
      of a description. */
  lemma RequestBegins(c: Setting, w: World)
    requires Idle(w)
    ensures var w', x := Step(c, w, Submit), w.disk.executed;
            && w'.disk.executed == (if c.procedure.identified && c.procedure.exec.Limit? && !x.Listed? then Listed(0) else x)
            && w'.running.Up? && PlaceOf(w'.running.engine) == Place(0, 1, 1) && w'.running.engine.retry == 0
  {
  }

  // ---------------------------------------------------------------- with assertions compiled in

  function Boots(n: nat): seq<Event>
  {
    if n == 0 then [] else [Boot] + Boots(n - 1)
  }

  /** With assertions compiled in, a procedure interrupted in its last step is never taken up again: every boot ends the
      program and notes one retry more. */
  lemma {:induction false} AssertBlocksLastStep(c: Setting, w: World, boots: nat)
    requires c.asserts && w.running.Down? && w.disk.update == [] && 0 < |c.procedure.steps| <= w.disk.step && w.disk.retry >= 0
    ensures var w' := Run(c, w, Boots(boots));
            w'.running.Down? && w'.starts == w.starts && w'.disk == w.disk.(retry := w.disk.retry + boots)
    decreases boots
  {
    if boots > 0 {
      var w1 := Step(c, w, Boot);
      assert Boots(boots)[1..] == Boots(boots - 1);
      AssertBlocksLastStep(c, w1, boots - 1);
    }
  }

  /** The next boot goes on with the last step, or with none. */
  predicate LastStepNext(c: Setting, w: World)
  {
    w.running.Down? && 0 < ReadStep(w.disk).0 && |c.procedure.steps| <= ReadStep(w.disk).0
  }

  /** Assertions make a difference for an event exactly if it is a boot that goes on with the last step or with none: then
      they end the program, which without them would run. */
  lemma AssertsMatterIff(c: Setting, w: World, ev: Event)
    ensures var checked, unchecked := Step(c.(asserts := true), w, ev), Step(c.(asserts := false), w, ev);
            && (checked != unchecked <==> ev.Boot? && LastStepNext(c, w))
            && (checked != unchecked ==> checked.running.Down? && unchecked.running.Up?)
  {
    hide Replay, StartCall, Answered;
    if w.running.Up? {
      AnsweredAlike(c, w, ev);
    }
  }

  lemma AnsweredAlike(c: Setting, w: World, ev: Event)
    requires w.running.Up?
    ensures Answered(c.(asserts := true), w, w.running.engine, ev) == Answered(c.(asserts := false), w, w.running.engine, ev)
  {
  }

  predicate NeverLastNext(c: Setting, w: World, events: seq<Event>)
    decreases |events|
  {
    events != [] ==> !(events[0].Boot? && LastStepNext(c, w)) && NeverLastNext(c, Step(c, w, events[0]), events[1..])
  }

  /** So a run in which no boot comes so late is the same with and without assertions. */
  lemma {:induction false} AssertsHarmless(c: Setting, w: World, events: seq<Event>)
    requires NeverLastNext(c.(asserts := false), w, events)
    ensures Run(c.(asserts := true), w, events) == Run(c.(asserts := false), w, events)
    decreases |events|
  {
    hide Step;
    if events != [] {
      AssertsMatterIff(c, w, events[0]);
      AssertsHarmless(c, Step(c.(asserts := false), w, events[0]), events[1..]);
    }
  }
}

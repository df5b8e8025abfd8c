/** What a procedure reports when it has come to its end, whichever way it ended. */
module ProcedureReply {
  import opened Procedures
  import opened R = ProcedureRecovery

  /** The reason the call of a step could not be created, since the last request. */
  function RefusedIn(c: Setting, executed: Executions, events: seq<Event>): seq<Result>
  {
    if events == [] then []
    else
      var front, last := events[..|events| - 1], events[|events| - 1];
      RefusedAfter(c, Run(c, Switched(executed), front), RefusedIn(c, executed, front), last)
  }

  function RefusedAfter(c: Setting, w: World, refused: seq<Result>, ev: Event): seq<Result>
  {
    if ev.Submit? && R.Idle(w) then []
    else if ev.Refusal? && w.running.Up? && w.running.engine.phase.AwaitGui? then [ev.reason]
    else refused
  }

  predicate AtEnd(e: Engine, status: int)
  {
    e.phase == AwaitFinish(status) || e.phase == Ended(status)
  }

  predicate Failing(returned: map<int, Result>, number: int)
  {
    number in returned && returned[number].status != 200
  }

  /** Good results of the first steps, as they returned them. */
  predicate GoodOnes(results: seq<Result>, returned: map<int, Result>)
  {
    Returned(results, returned) && forall r | r in results :: r.status == 200
  }

  /** Good results of the first steps and one more entry. */
  predicate GoodAnd(results: seq<Result>, returned: map<int, Result>, more: Result)
  {
    results != [] && results[|results| - 1] == more && GoodOnes(results[..|results| - 1], returned)
  }

  /** What the reply says at the end of a procedure, by the way it ended: a step failed, the call of a step could not be
      created, it was taken up too often, it was refused as a whole, all steps are done, or a step has no description. */
  ghost predicate Report(c: Setting, w: World, refused: seq<Result>, e: Engine, status: int)
  {
    var n, results, returned := |c.procedure.steps|, e.results, w.returned;
    if exists number :: Failing(returned, number) then
      && status == 500 && Failing(returned, |results|) && (forall number | Failing(returned, number) :: number == |results|)
      && GoodAnd(results, returned, returned[|results|])
    else if refused != [] then status == 500 && GoodAnd(results, returned, refused[0])
    else if e.retry > 3 then status == 500 && (!Exceeded(c, w.disk) ==> GoodOnes(results, returned))
    else if status == 400 then
      !c.procedure.identified || !c.procedure.described || c.procedure.exec.NotNumeric? || Exceeded(c, w.disk)
    else
      && c.procedure.identified && c.procedure.described && !c.procedure.exec.NotNumeric?
      && if |results| == n && GoodOnes(results, returned) then status == if n == 0 || w.disk.executed.Listed? then 200 else 500
         else status == 500 && 0 < |results| <= n && !c.procedure.steps[|results| - 1].described
              && GoodAnd(results, returned, Result(400, "procedure function does not have a <description>"))
  }

  ghost predicate Reported(c: Setting, w: World, refused: seq<Result>)
  {
    && ((exists number :: Failing(w.returned, number)) || refused != [] ==>
          w.disk.step == -1 && (w.running.Up? ==> w.running.engine.phase.AwaitFinish? || w.running.engine.phase.Ended?))
    && (w.running.Up? ==> forall status | AtEnd(w.running.engine, status) :: Report(c, w, refused, w.running.engine, status))
  }

  // ---------------------------------------------------------------- every event keeps it

  /** No step failed, and no call was refused. */
  ghost predicate Undisturbed(w: World, refused: seq<Result>)
  {
    refused == [] && forall number :: !Failing(w.returned, number)
  }

  lemma NoneYet(c: Setting, w: World, refused: seq<Result>)
    requires Reported(c, w, refused) && (w.disk.step != -1 || (w.running.Up? && w.running.engine.phase.AwaitGui?))
    ensures Undisturbed(w, refused)
  {
  }

  lemma FreshReported(c: Setting, w: World)
    requires w.running.Down? && w.disk.update == [] && w.disk.step == 0 && w.returned == map[]
    ensures Reported(c, Launched(c, w), [])
  {
  }

  lemma ResumedReported(c: Setting, w: World)
    requires WorldInv(c, w) && w.running.Down? && w.disk.update == [] && w.disk.step > 0 && Undisturbed(w, [])
    ensures Reported(c, Launched(c, w), [])
  {
    hide Replay, Uninterrupted, Launched, StartsInv, NotLater, R.Rank;
    Resumed(c, w);
    assert w.disk.results + [] == w.disk.results;
    assert (w.disk.results + [NOT_DESCRIBED])[..|w.disk.results|] == w.disk.results;
  }

  lemma BootedReported(c: Setting, w: World, refused: seq<Result>)
    requires WorldInv(c, w) && w.running.Down? && Reported(c, w, refused)
    ensures Reported(c, Booted(c, w), refused)
  {
    hide WorldInv, Launched;
    ReadStepKeeps(c, w);
    var (step, d) := ReadStep(w.disk);
    StepToGoOn(c, w);
    if step >= 0 {
      NoneYet(c, w, refused);
      ResumedReported(c, w.(disk := d));
      LaunchIgnoresCount(c, w.(disk := d));
    }
  }

  lemma StepToGoOn(c: Setting, w: World)
    requires WorldInv(c, w)
    ensures if ReadStep(w.disk).0 >= 0 then w.disk.step > 0 && ReadStep(w.disk).1.step > 0 else ReadStep(w.disk).1 == w.disk
  {
  }

  lemma GoodAndOne(results: seq<Result>, returned: map<int, Result>, r: Result)
    requires GoodOnes(results, returned)
    ensures GoodAnd(results + [r], returned, r)
  {
    assert (results + [r])[..|results|] == results;
  }

  lemma FinishedReported(c: Setting, w: World, e: Engine, d: Disk)
    requires Undisturbed(w, []) && GoodOnes(e.results, w.returned) && |e.results| == |c.procedure.steps| > 0
    requires c.procedure.identified && c.procedure.described && !c.procedure.exec.NotNumeric? && e.retry <= 3
    ensures Reported(c, With(w, Shutdown(e, d, 200)), [])
  {
  }

  lemma NextStepReported(c: Setting, w: World, e: Engine, d: Disk, checked: bool)
    requires Undisturbed(w, []) && GoodOnes(e.results, w.returned) && |e.results| == e.number == e.pos + 1 <= |c.procedure.steps|
    requires c.procedure.identified && c.procedure.described && !c.procedure.exec.NotNumeric? && e.retry <= 3
    ensures Reported(c, With(w, NextStep(c.procedure.steps, e, d, checked)), [])
  {
    GoodAndOne(e.results, w.returned, Result(400, "procedure function does not have a <description>"));
    if e.number == |c.procedure.steps| {
      FinishedReported(c, w, e.(pos := e.pos + 1, number := e.number + 1, gui := e.gui + 1, phase := AwaitGui), d);
    }
  }

  lemma FailureReported(c: Setting, w: World, e: Engine, r: Result)
    requires r.status != 200 && forall number :: !Failing(w.returned, number)
    requires GoodOnes(e.results, w.returned) && |e.results| == e.number - 1
    ensures var w1 := w.(returned := w.returned[e.number := r]);
            Reported(c, With(w1, Shutdown(e.(results := e.results + [r]), w.disk, 500)), [])
  {
    var w1 := w.(returned := w.returned[e.number := r]);
    ReturnedMore(e.results, w.returned, e.number, r);
    GoodAndOne(e.results, w1.returned, r);
    assert Failing(w1.returned, e.number);
    forall number | Failing(w1.returned, number)
      ensures number == e.number
    {
      assert !Failing(w.returned, number);
    }
  }

  lemma StepDoneReported(c: Setting, w: World, r: Result)
    requires WorldInv(c, w) && w.running.Up? && w.running.engine.phase.AwaitStep? && Undisturbed(w, [])
    ensures Reported(c, Answered(c, w, w.running.engine, StepResult(r)), [])
  {
    hide NextStep, Uninterrupted, StartsInv, NotLater, R.Rank, Reported;
    var e := w.running.engine;
    if r.status != 200 {
      FailureReported(c, w, e, r);
    } else {
      ReturnedMore(e.results, w.returned, e.number, r);
      var w1 := w.(returned := w.returned[e.number := r]);
      GoodResult(w, e.number, r);
      if IsDcUpdate(c.procedure.steps, e.pos) {
        UnderWay(c, With(w1, StepDone(c.procedure.steps, e, w.disk, r)));
      } else {
        NextStepReported(c, w1, e.(results := e.results + [r]), w.disk, true);
      }
    }
  }

  lemma GoodResult(w: World, number: int, r: Result)
    requires Undisturbed(w, []) && r.status == 200
    ensures Undisturbed(w.(returned := w.returned[number := r]), [])
  {
    var w1 := w.(returned := w.returned[number := r]);
    forall n
      ensures !Failing(w1.returned, n)
    {
      assert !Failing(w.returned, n);
    }
  }

  lemma UnderWay(c: Setting, w: World)
    requires Undisturbed(w, []) && w.running.Up? && !w.running.engine.phase.AwaitFinish? && !w.running.engine.phase.Ended?
    ensures Reported(c, w, [])
  {
  }

  lemma RefusalReported(c: Setting, w: World, r: Result)
    requires WorldInv(c, w) && w.running.Up? && w.running.engine.phase.AwaitGui? && Undisturbed(w, [])
    ensures Reported(c, Answered(c, w, w.running.engine, Refusal(r)), [r])
  {
    hide Uninterrupted, StartsInv, NotLater, R.Rank;
    GoodAndOne(w.running.engine.results, w.returned, r);
  }

  lemma AnsweredReported(c: Setting, w: World, refused: seq<Result>, ev: Event)
    requires WorldInv(c, w) && w.running.Up? && Reported(c, w, refused) && Possible(ev) && !ev.Submit?
    ensures Reported(c, Answered(c, w, w.running.engine, ev), RefusedAfter(c, w, refused, ev))
  {
    hide Uninterrupted, StartsInv, NotLater, R.Rank, NextStep, StepDone, Report;
    match (w.running.engine.phase, ev)
    case (AwaitGui, GuiAnswer) => NoneYet(c, w, refused);
    case (AwaitGui, Refusal(r)) => NoneYet(c, w, refused); RefusalReported(c, w, r);
    case (AwaitStep, StepResult(r)) => NoneYet(c, w, refused); StepDoneReported(c, w, r);
    case (AwaitStep, DeviceUpdate(r)) =>
      NoneYet(c, w, refused);
      GoodResult(w, w.running.engine.number, r);
    case (AwaitRestore, RestoreAnswer) =>
      NoneYet(c, w, refused);
      NextStepReported(c, w, w.running.engine, w.disk, false);
    case (AwaitFinish(status), FinishAnswer) => FinishReported(c, w, refused);
    case _ =>
  }

  lemma FinishReported(c: Setting, w: World, refused: seq<Result>)
    requires w.running.Up? && w.running.engine.phase.AwaitFinish? && Reported(c, w, refused)
    ensures Reported(c, w.(running := Up(FinishDone(w.running.engine))), refused)
  {
    assert AtEnd(w.running.engine, w.running.engine.phase.status);
  }

  lemma StepReported(c: Setting, w: World, refused: seq<Result>, ev: Event)
    requires WorldInv(c, w) && Reported(c, w, refused) && Possible(ev)
    ensures Reported(c, R.Step(c, w, ev), RefusedAfter(c, w, refused, ev))
  {
    hide WorldInv, Launched, Answered, Report;
    match ev
    case Submit => if R.Idle(w) { FreshReported(c, World(Note(w.disk, 0, 0), Down, [], map[], 0)); }
    case Crash =>
    case Boot => if w.running.Down? { BootedReported(c, w, refused); }
    case _ => if w.running.Up? { AnsweredReported(c, w, refused, ev); }
  }

  lemma {:induction false} RunReported(c: Setting, executed: Executions, events: seq<Event>)
    requires forall ev | ev in events :: Possible(ev)
    ensures var w := Run(c, Switched(executed), events); WorldInv(c, w) && Reported(c, w, RefusedIn(c, executed, events))
  {
    hide Run, R.Step, WorldInv, Reported;
    if events == [] {
      RunNothing(c, Switched(executed));
      SwitchedKeeps(c, executed);
      SwitchedReported(c, executed);
    } else {
      var front, last := events[..|events| - 1], events[|events| - 1];
      RunReported(c, executed, front);
      RunLast(c, Switched(executed), events);
      StepKeeps(c, Run(c, Switched(executed), front), last);
      StepReported(c, Run(c, Switched(executed), front), RefusedIn(c, executed, front), last);
    }
  }

  lemma SwitchedReported(c: Setting, executed: Executions)
    ensures Reported(c, Switched(executed), [])
  {
  }

  // ---------------------------------------------------------------- what it means

  /** When a step returned something other than 200 the procedure is over, over any run: its reply is 500, with one result for
      each step up to the one that failed, as the steps returned them, and that one last. */
  lemma FailureIsReported(c: Setting, executed: Executions, events: seq<Event>, number: int)
    requires forall ev | ev in events :: Possible(ev)
    requires Failing(ReturnedIn(c, executed, events), number)
    ensures var w, returned := Run(c, Switched(executed), events), ReturnedIn(c, executed, events);
            && w.disk.step == -1
            && (w.running.Up? ==>
                  var results := w.running.engine.results;
                  && AtEnd(w.running.engine, 500) && |results| == number && Returned(results, returned)
                  && number > 0 && results[number - 1].status != 200 && forall i | 0 <= i < number - 1 :: results[i].status == 200)
  {
    hide Run, ReturnedIn, RefusedIn, WorldInv;
    RunReported(c, executed, events);
    RecordsAreTrue(c, executed, events);
    var w := Run(c, Switched(executed), events);
    if w.running.Up? {
      FailureMeans(c, w, RefusedIn(c, executed, events), number);
    }
  }

  /** Over any run: however a procedure comes to its end, its reply says so. */
  lemma EndIsReported(c: Setting, executed: Executions, events: seq<Event>, status: int)
    requires forall ev | ev in events :: Possible(ev)
    ensures var w := Run(c, Switched(executed), events);
            && w.returned == ReturnedIn(c, executed, events)
            && (w.running.Up? && AtEnd(w.running.engine, status) ==>
                  Report(c, w, RefusedIn(c, executed, events), w.running.engine, status))
  {
    hide Run, ReturnedIn, RefusedIn, WorldInv, Report;
    RunReported(c, executed, events);
    RecordsAreTrue(c, executed, events);
  }

  lemma EndHasStatus(e: Engine)
    requires e.phase.AwaitFinish? || e.phase.Ended?
    ensures AtEnd(e, if e.phase.AwaitFinish? then e.phase.status else e.phase.reply)
  {
  }

  lemma FailureMeans(c: Setting, w: World, refused: seq<Result>, number: int)
    requires Reported(c, w, refused) && w.running.Up? && Failing(w.returned, number)
    ensures var results := w.running.engine.results;
            && AtEnd(w.running.engine, 500) && |results| == number && Returned(results, w.returned)
            && number > 0 && results[number - 1].status != 200 && forall i | 0 <= i < number - 1 :: results[i].status == 200
  {
    EndHasStatus(w.running.engine);
    var results := w.running.engine.results;
    assert forall i | 0 <= i < |results| - 1 :: results[..|results| - 1][i] == results[i];
  }
}

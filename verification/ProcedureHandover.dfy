/** Different procedures one after the other: when a procedure finds the step file as another left it. */
module ProcedureHandover {
  import opened Procedures
  import opened R = ProcedureRecovery

  // ---------------------------------------------------------------- what a procedure leaves behind

  /** The first request of a procedure with a limit below 1 goes ahead, because nothing is listed yet; after a crash it is
      refused, and the results so far stay where they are. */
  predicate CanLeave(c: Setting, x: Executions)
  {
    var p := c.procedure;
    && p.identified && p.described && p.exec.Limit? && p.exec.n <= 0 && !x.Listed?
    && p.steps != [] && p.steps[0].described && (c.asserts ==> |p.steps| > 2)
  }

  predicate Active(w: World)
  {
    w.running.Up? && (w.running.engine.phase.AwaitGui? || w.running.engine.phase.AwaitStep? || w.running.engine.phase.AwaitRestore?)
  }

  /** Holds over the runs of a procedure that leaves nothing behind. */
  predicate Tidy(c: Setting, w: World)
  {
    && !CanLeave(c, w.disk.executed)
    && |w.disk.results| == (if w.disk.step > 0 then w.disk.step - 1 else 0)
    && (w.running.Up? && w.running.engine.phase.Ended? ==> w.disk.results == [])
    && (w.disk.step > 0 || Active(w) ==>
          c.procedure.steps != [] && c.procedure.steps[0].described
          && (!Exceeded(c, w.disk) || (c.asserts && |c.procedure.steps| <= 2)))
  }

  lemma FreshTidy(c: Setting, w: World)
    requires w.running.Down? && w.disk.step == 0 && w.disk.update == [] && w.disk.results == [] && !CanLeave(c, w.disk.executed)
    ensures Tidy(c, Launched(c, w))
  {
  }

  lemma ResumedTidy(c: Setting, w: World)
    requires WorldInv(c, w) && Tidy(c, w) && w.running.Down? && w.disk.update == [] && w.disk.step > 0
    ensures Tidy(c, Launched(c, w))
  {
    hide Replay, Uninterrupted, Launched;
    Resumed(c, w);
  }

  lemma ReadStepTidy(c: Setting, w: World)
    requires WorldInv(c, w) && Tidy(c, w) && w.running.Down?
    ensures Tidy(c, w.(disk := ReadStep(w.disk).1))
    ensures ReadStep(w.disk).0 >= 0 ==> ReadStep(w.disk).1.step > 0
  {
  }

  lemma BootedTidy(c: Setting, w: World)
    requires WorldInv(c, w) && Tidy(c, w) && w.running.Down?
    ensures Tidy(c, Booted(c, w))
  {
    hide WorldInv, Launched, Replay;
    ReadStepKeeps(c, w);
    var (step, d) := ReadStep(w.disk);
    ReadStepTidy(c, w);
    if step >= 0 {
      ResumedTidy(c, w.(disk := d));
      LaunchIgnoresCount(c, w.(disk := d));
    }
  }

  lemma AnsweredTidy(c: Setting, w: World, ev: Event)
    requires WorldInv(c, w) && Tidy(c, w) && w.running.Up?
    ensures Tidy(c, Answered(c, w, w.running.engine, ev))
  {
    hide StartsInv, NotLater, Returned, Uninterrupted;
  }

  lemma StepTidy(c: Setting, w: World, ev: Event)
    requires WorldInv(c, w) && Tidy(c, w)
    ensures Tidy(c, R.Step(c, w, ev))
  {
    hide WorldInv, Answered, Launched;
    match ev
    case Submit => if Idle(w) { FreshTidy(c, World(Note(w.disk, 0, 0), Down, [], map[], 0)); }
    case Crash =>
    case Boot => if w.running.Down? { BootedTidy(c, w); }
    case _ => if w.running.Up? { AnsweredTidy(c, w, ev); }
  }

  lemma {:induction false} RunTidy(c: Setting, w: World, events: seq<Event>)
    requires WorldInv(c, w) && Tidy(c, w) && forall ev | ev in events :: Possible(ev)
    ensures Tidy(c, Run(c, w, events))
    decreases |events|
  {
    hide WorldInv, Tidy, R.Step;
    if events != [] {
      StepKeeps(c, w, events[0]);
      StepTidy(c, w, events[0]);
      RunTidy(c, R.Step(c, w, events[0]), events[1..]);
    }
  }

  /** Some run of the procedure comes to an end with results left on disk. */
  ghost predicate LeavesResults(c: Setting, x: Executions)
  {
    exists events :: (forall ev | ev in events :: Possible(ev)) && Idle(Run(c, Switched(x), events))
                     && Run(c, Switched(x), events).disk.results != []
  }

  lemma TidyAtFirst(c: Setting, x: Executions)
    requires !CanLeave(c, x)
    ensures Tidy(c, Switched(x))
  {
  }

  /** An update of this device in the first step, and the boot after it. */
  lemma UpdateLeaves(c: Setting, x: Executions, r: Result)
    requires CanLeave(c, x) && r.status == OK
    ensures var w := Run(c, Switched(x), [Submit, GuiAnswer, DeviceUpdate(r), Boot]);
            Idle(w) && w.disk.results == [r] && w.running.Up? && w.running.engine.phase == Ended(BAD_REQUEST)
  {
    hide R.Step, Run, Idle;
    RunFour(c, Switched(x), Submit, GuiAnswer, DeviceUpdate(r), Boot);
    UpdateSteps(c, x, r);
  }

  lemma RunFour(c: Setting, w: World, e1: Event, e2: Event, e3: Event, e4: Event)
    ensures Run(c, w, [e1, e2, e3, e4]) == R.Step(c, R.Step(c, R.Step(c, R.Step(c, w, e1), e2), e3), e4)
  {
    hide R.Step;
    RunNothing(c, w);
    RunSnoc(c, w, [], e1);
    RunSnoc(c, w, [e1], e2);
    RunSnoc(c, w, [e1, e2], e3);
    RunSnoc(c, w, [e1, e2, e3], e4);
    assert [] + [e1] == [e1] && [e1] + [e2] == [e1, e2] && [e1, e2] + [e3] == [e1, e2, e3];
    assert [e1, e2, e3] + [e4] == [e1, e2, e3, e4];
  }

  lemma UpdateSteps(c: Setting, x: Executions, r: Result)
    requires CanLeave(c, x) && r.status == OK
    ensures var w := R.Step(c, R.Step(c, R.Step(c, R.Step(c, Switched(x), Submit), GuiAnswer), DeviceUpdate(r)), Boot);
            Idle(w) && w.disk.results == [r] && w.running.Up? && w.running.engine.phase == Ended(BAD_REQUEST)
  {
    var w2 := R.Step(c, R.Step(c, Switched(x), Submit), GuiAnswer);
    assert w2.running.Up? && w2.running.engine.phase.AwaitStep? && w2.disk == Disk(1, 0, [], [], Listed(0));
    var w3 := R.Step(c, w2, DeviceUpdate(r));
    assert w3.disk == Disk(1, 0, [], [r], Listed(0)) && w3.running.Down?;
    assert w3.disk.results + [r] == [r];
    assert ReadStep(w3.disk) == (2, Disk(2, 0, [r], [], Listed(0)));
    hide Replay;
  }

  /** A procedure can end with results left on disk exactly if its limit is below 1 and it is not on the list, its request is
      well-formed, and its first step has a description. */
  lemma LeavesResultsIff(c: Setting, x: Executions)
    ensures LeavesResults(c, x) <==> CanLeave(c, x)
  {
    hide R.Step, Run, WorldInv, Idle, Switched, CanLeave;
    SwitchedKeeps(c, x);
    if CanLeave(c, x) {
      var r := Result(OK, "");
      UpdateLeaves(c, x, r);
      var events := [Submit, GuiAnswer, DeviceUpdate(r), Boot];
      assert forall ev | ev in events :: Possible(ev);
      assert Run(c, Switched(x), events).disk.results != [];
    } else {
      TidyAtFirst(c, x);
      forall events | (forall ev | ev in events :: Possible(ev)) && Idle(Run(c, Switched(x), events))
        ensures Run(c, Switched(x), events).disk.results == []
      {
        RunKeeps(c, Switched(x), events);
        RunTidy(c, Switched(x), events);
        IdleTidy(c, Run(c, Switched(x), events));
      }
    }
  }

  lemma IdleTidy(c: Setting, w: World)
    requires Tidy(c, w) && Idle(w)
    ensures w.disk.results == []
  {
  }

  // ---------------------------------------------------------------- the next procedure

  /** The world in the hands of another procedure, of which the list of executions says `x`. */
  function Handed(w: World, x: Executions): World
  {
    w.(disk := w.disk.(executed := x))
  }

  /** What the runs of a procedure begin with when it is requested. */
  function Requested(c: Setting, w: World, x: Executions): World
  {
    R.Step(c, Handed(w, x), Submit)
  }

  lemma RequestedInv(c: Setting, w: World, x: Executions)
    requires Idle(w) && w.disk.results == []
    ensures WorldInv(c, Requested(c, w, x)) && (!CanLeave(c, x) ==> Tidy(c, Requested(c, w, x)))
    ensures Returned(Requested(c, w, x).disk.results, Requested(c, w, x).returned)
  {
    var w0 := World(Note(Handed(w, x).disk, 0, 0), Down, [], map[], 0);
    assert WorldInv(c, w0);
    FreshKeeps(c, w0);
    if !CanLeave(c, x) {
      FreshTidy(c, w0);
    }
  }

  /** If the run of a procedure requested in `w` succeeds it has one good result for each of its own steps, as the steps
      returned them. */
  predicate Complete(c: Setting, w: World, x: Executions, events: seq<Event>)
  {
    var w' := Run(c, Requested(c, w, x), events);
    Succeeded(w') ==>
      var results := w'.running.engine.results;
      |results| == |c.procedure.steps| && AllOk(results) && Returned(results, w'.returned)
  }

  /** A procedure requested when nothing was left behind is complete if it succeeds; and it leaves nothing behind in turn,
      unless it is one of those that can. */
  lemma CleanHandover(c: Setting, w: World, x: Executions, events: seq<Event>)
    requires Idle(w) && w.disk.results == [] && forall ev | ev in events :: Possible(ev)
    ensures Complete(c, w, x, events)
    ensures var w' := Run(c, Requested(c, w, x), events); !CanLeave(c, x) && Idle(w') ==> w'.disk.results == []
  {
    hide Run, Requested, Tidy, Idle;
    RequestedInv(c, w, x);
    RunKeeps(c, Requested(c, w, x), events);
    if !CanLeave(c, x) {
      RunTidy(c, Requested(c, w, x), events);
      if Idle(Run(c, Requested(c, w, x), events)) {
        IdleTidy(c, Run(c, Requested(c, w, x), events));
      }
    }
  }

  /** One procedure after the other, each from its request to its end. */
  datatype Session = Session(c: Setting, executed: Executions, events: seq<Event>)

  function RunSessions(w: World, sessions: seq<Session>): World
  {
    if sessions == [] then w
    else
      var s, w' := sessions[|sessions| - 1], RunSessions(w, sessions[..|sessions| - 1]);
      Run(s.c, Requested(s.c, w', s.executed), s.events)
  }

  predicate EachEnds(w: World, sessions: seq<Session>)
  {
    sessions != [] ==> EachEnds(w, sessions[..|sessions| - 1]) && Idle(RunSessions(w, sessions))
  }

  const NOTHING := Switched(NoList)

  lemma NothingIdle()
    ensures Idle(NOTHING) && NOTHING.disk.results == []
  {
  }

  /** Over any number of different procedures, none of which can leave results behind: whichever of them succeeds has one good
      result for each of its own steps, and none of another procedure. */
  lemma {:induction false} SessionsComplete(sessions: seq<Session>, last: Session)
    requires EachEnds(NOTHING, sessions) && forall ev | ev in last.events :: Possible(ev)
    requires forall s | s in sessions :: !CanLeave(s.c, s.executed) && forall ev | ev in s.events :: Possible(ev)
    ensures RunSessions(NOTHING, sessions).disk.results == []
    ensures Complete(last.c, RunSessions(NOTHING, sessions), last.executed, last.events)
  {
    hide Run, Requested, CanLeave, Idle, Complete, NOTHING;
    NothingIdle();
    if sessions != [] {
      var front, s := sessions[..|sessions| - 1], sessions[|sessions| - 1];
      assert s in sessions && forall t | t in front :: t in sessions;
      SessionsComplete(front, s);
      assert Idle(RunSessions(NOTHING, front)) by { FrontIdle(sessions); }
      CleanHandover(s.c, RunSessions(NOTHING, front), s.executed, s.events);
    }
    assert Idle(RunSessions(NOTHING, sessions));
    CleanHandover(last.c, RunSessions(NOTHING, sessions), last.executed, last.events);
  }

  lemma FrontIdle(sessions: seq<Session>)
    requires sessions != [] && EachEnds(NOTHING, sessions)
    ensures EachEnds(NOTHING, sessions[..|sessions| - 1]) && Idle(RunSessions(NOTHING, sessions[..|sessions| - 1]))
  {
    hide Idle, Run, Requested;
    NothingIdle();
  }

  /** One step, and no limit. */
  const SIMPLE := Setting(Procedure([Procedures.Step(false, true)], true, true, NoLimit), false)

  /** After one that left results behind it is otherwise: a procedure that crashes in its first step and is taken up again goes
      on with those results as if they were its own. */
  lemma ForeignResults(w: World, r: Result)
    requires Idle(w) && r.status == OK
    ensures var w' := Run(SIMPLE, Requested(SIMPLE, w, Listed(0)), [GuiAnswer, Crash, Boot, GuiAnswer, StepResult(r)]);
            Succeeded(w') && w'.running.engine.results == w.disk.results + [r]
  {
    hide R.Step, Run, Idle;
    var w1 := Requested(SIMPLE, w, Listed(0));
    RunFour(SIMPLE, w1, GuiAnswer, Crash, Boot, GuiAnswer);
    RunSnoc(SIMPLE, w1, [GuiAnswer, Crash, Boot, GuiAnswer], StepResult(r));
    assert [GuiAnswer, Crash, Boot, GuiAnswer] + [StepResult(r)] == [GuiAnswer, Crash, Boot, GuiAnswer, StepResult(r)];
    ForeignSteps(w, r);
  }

  lemma ForeignSteps(w: World, r: Result)
    requires Idle(w) && r.status == OK
    ensures var w' := R.Step(SIMPLE, R.Step(SIMPLE, R.Step(SIMPLE, R.Step(SIMPLE, R.Step(SIMPLE, Requested(SIMPLE, w, Listed(0)),
                             GuiAnswer), Crash), Boot), GuiAnswer), StepResult(r));
            Succeeded(w') && w'.running.engine.results == w.disk.results + [r]
  {
    var w2 := R.Step(SIMPLE, Requested(SIMPLE, w, Listed(0)), GuiAnswer);
    assert w2.running.Up? && w2.running.engine.phase.AwaitStep? && w2.disk.step == 1 && w2.disk.results == w.disk.results;
    var w4 := R.Step(SIMPLE, R.Step(SIMPLE, w2, Crash), Boot);
    assert w4.running.Up? && w4.running.engine.phase.AwaitGui? && w4.running.engine.number == 1
           && w4.running.engine.results == w.disk.results;
  }

  /** The procedures requested next are complete, whichever they are and whatever happens to them, exactly if nothing was left
      behind. */
  lemma CompleteIff(w: World)
    requires Idle(w)
    ensures (forall c, x, events | forall ev | ev in events :: Possible(ev) :: Complete(c, w, x, events))
       <==> w.disk.results == []
  {
    hide R.Step, Run, Idle, Requested, Complete;
    if w.disk.results == [] {
      forall c, x, events | forall ev | ev in events :: Possible(ev)
        ensures Complete(c, w, x, events)
      {
        CleanHandover(c, w, x, events);
      }
    } else {
      NotComplete(w);
    }
  }

  lemma NotComplete(w: World)
    requires Idle(w) && w.disk.results != []
    ensures var events := [GuiAnswer, Crash, Boot, GuiAnswer, StepResult(Result(OK, ""))];
            (forall ev | ev in events :: Possible(ev)) && !Complete(SIMPLE, w, Listed(0), events)
  {
    hide R.Step, Run, Idle, Requested;
    ForeignResults(w, Result(OK, ""));
  }
}

/** Which procedures can succeed at all. */
module ProcedureOutcome {
  import opened Procedures
  import opened R = ProcedureRecovery

  /** A step is shown if it has a description. The step after an update of the device controller is shown without. */
  predicate Showable(steps: seq<Procedures.Step>, j: nat)
    requires j < |steps|
  {
    steps[j].described || (j > 0 && steps[j - 1].dcUpdate)
  }

  predicate ShowableUpTo(steps: seq<Procedures.Step>, n: int)
  {
    forall j | 0 <= j < n && j < |steps| :: Showable(steps, j)
  }

  /** The request is well-formed and not used up when the list of executions says `x`. */
  predicate Admitted(p: Procedure, x: Executions)
  {
    && p.identified && p.described && !p.exec.NotNumeric?
    && (p.exec.Limit? && x.Listed? ==> x.count < p.exec.n)
  }

  /** A success can be counted: a procedure without a limit is not put on the list. */
  predicate Countable(p: Procedure, x: Executions)
  {
    p.exec.NoLimit? ==> x.Listed?
  }

  predicate Feasible(p: Procedure, x: Executions)
  {
    Admitted(p, x) && ShowableUpTo(p.steps, |p.steps|) && (p.steps != [] ==> Countable(p, x))
  }

  predicate Succeeds(w: World)
  {
    w.running.Up? && w.running.engine.phase == Ended(OK)
  }

  // ---------------------------------------------------------------- only these

  /** What the list says now, when at first it said `x`. */
  predicate ListFrom(p: Procedure, x: Executions, now: Executions)
  {
    && (!Countable(p, x) ==> !now.Listed?)
    && (p.exec.Limit? && x.Listed? && x.count >= p.exec.n ==> now.Listed? && now.count >= p.exec.n)
  }

  predicate EnginePromises(p: Procedure, x: Executions, e: Engine)
  {
    match e.phase
    case Constructed => false
    case AwaitFinish(status) => status == OK ==> Feasible(p, x)
    case Ended(reply) => reply == OK ==> Feasible(p, x)
    case _ => Admitted(p, x) && ShowableUpTo(p.steps, e.pos + 1)
  }

  predicate Promises(c: Setting, x: Executions, w: World)
  {
    && ListFrom(c.procedure, x, w.disk.executed)
    && (w.disk.step > 0 ==> Admitted(c.procedure, x) && ShowableUpTo(c.procedure.steps, w.disk.step - 1))
    && (w.disk.update != [] ==> ShowableUpTo(c.procedure.steps, w.disk.step))
    && (w.running.Up? ==> EnginePromises(c.procedure, x, w.running.engine))
  }

  lemma FreshPromises(c: Setting, x: Executions, w: World)
    requires w.disk.step == 0 && w.disk.update == [] && ListFrom(c.procedure, x, w.disk.executed) && w.running.Down?
    ensures Promises(c, x, Launched(c, w))
  {
  }

  lemma ResumedPromises(c: Setting, x: Executions, w: World)
    requires WorldInv(c, w) && Promises(c, x, w) && w.running.Down? && w.disk.update == [] && w.disk.step > 0
    ensures Promises(c, x, Launched(c, w))
  {
    hide Replay, Uninterrupted, Launched;
    Resumed(c, w);
  }

  lemma BootedPromises(c: Setting, x: Executions, w: World)
    requires WorldInv(c, w) && Promises(c, x, w) && w.running.Down?
    ensures Promises(c, x, Booted(c, w))
  {
    hide WorldInv, Launched, Replay;
    ReadStepKeeps(c, w);
    var (step, d) := ReadStep(w.disk);
    ReadStepPromises(c, x, w);
    if step >= 0 {
      ResumedPromises(c, x, w.(disk := d));
      LaunchIgnoresCount(c, w.(disk := d));
    }
  }

  lemma ReadStepPromises(c: Setting, x: Executions, w: World)
    requires WorldInv(c, w) && Promises(c, x, w) && w.running.Down?
    ensures Promises(c, x, w.(disk := ReadStep(w.disk).1))
    ensures ReadStep(w.disk).0 >= 0 ==> ReadStep(w.disk).1.step > 0
  {
  }

  lemma NextStepPromises(c: Setting, x: Executions, w: World, e: Engine, checked: bool)
    requires Admitted(c.procedure, x) && ShowableUpTo(c.procedure.steps, e.pos + 1) && e.number == e.pos + 1
    requires ListFrom(c.procedure, x, w.disk.executed) && w.disk.update == [] && !(checked && IsDcUpdate(c.procedure.steps, e.pos))
    requires checked || IsDcUpdate(c.procedure.steps, e.pos)
    ensures Promises(c, x, With(w, NextStep(c.procedure.steps, e, w.disk, checked)))
  {
  }

  lemma AnsweredPromises(c: Setting, x: Executions, w: World, ev: Event)
    requires WorldInv(c, w) && Promises(c, x, w) && w.running.Up?
    ensures Promises(c, x, Answered(c, w, w.running.engine, ev))
  {
    hide NextStep, StartsInv, NotLater, Returned, Uninterrupted;
    var e := w.running.engine;
    match (e.phase, ev)
    case (AwaitStep, StepResult(r)) =>
      NextStepPromises(c, x, w.(returned := w.returned[e.number := r]), e.(results := e.results + [r]),
                       !IsDcUpdate(c.procedure.steps, e.pos));
    case (AwaitRestore, RestoreAnswer) => NextStepPromises(c, x, w, e, false);
    case _ =>
  }

  lemma StepPromises(c: Setting, x: Executions, w: World, ev: Event)
    requires WorldInv(c, w) && Promises(c, x, w)
    ensures Promises(c, x, R.Step(c, w, ev))
  {
    hide WorldInv, Answered, Launched;
    match ev
    case Submit => if Idle(w) { FreshPromises(c, x, World(Note(w.disk, 0, 0), Down, [], map[], 0)); }
    case Crash =>
    case Boot => if w.running.Down? { BootedPromises(c, x, w); }
    case _ => if w.running.Up? { AnsweredPromises(c, x, w, ev); }
  }

  lemma {:induction false} RunPromises(c: Setting, x: Executions, w: World, events: seq<Event>)
    requires WorldInv(c, w) && Promises(c, x, w) && forall ev | ev in events :: Possible(ev)
    ensures Promises(c, x, Run(c, w, events))
    decreases |events|
  {
    hide WorldInv, Promises, R.Step;
    if events != [] {
      StepKeeps(c, w, events[0]);
      StepPromises(c, x, w, events[0]);
      RunPromises(c, x, R.Step(c, w, events[0]), events[1..]);
    }
  }

  // ---------------------------------------------------------------- and these do

  const GOOD := Result(OK, "")

  /** What it takes to get through the steps from `pos` on. */
  function Undisturbed(steps: seq<Procedures.Step>, pos: nat): seq<Event>
    decreases |steps| - pos
  {
    if pos >= |steps| then [FinishAnswer]
    else [GuiAnswer, StepResult(GOOD)] + (if steps[pos].dcUpdate then [RestoreAnswer] else []) + Undisturbed(steps, pos + 1)
  }

  lemma RunFirst(c: Setting, w: World, ev: Event, rest: seq<Event>)
    ensures Run(c, w, [ev] + rest) == Run(c, R.Step(c, w, ev), rest)
  {
    hide R.Step;
    assert ([ev] + rest)[1..] == rest;
  }

  /** The world as it stands before a step, or after the last. */
  predicate Ready(c: Setting, w: World, pos: nat)
  {
    && w.running.Up? && w.running.engine.pos == pos <= |c.procedure.steps| && w.disk.executed.Listed?
    && w.running.engine.phase == if pos == |c.procedure.steps| then AwaitFinish(OK) else AwaitGui
  }

  lemma OneStep(c: Setting, w: World, pos: nat)
    requires pos < |c.procedure.steps| && Ready(c, w, pos) && ShowableUpTo(c.procedure.steps, pos + 2)
    ensures var w2 := R.Step(c, R.Step(c, w, GuiAnswer), StepResult(GOOD));
            Ready(c, if c.procedure.steps[pos].dcUpdate then R.Step(c, w2, RestoreAnswer) else w2, pos + 1)
  {
    assert pos + 1 < |c.procedure.steps| ==> Showable(c.procedure.steps, pos + 1);
  }

  lemma {:induction false} Through(c: Setting, w: World, pos: nat)
    requires Ready(c, w, pos) && ShowableUpTo(c.procedure.steps, |c.procedure.steps|)
    ensures Succeeds(Run(c, w, Undisturbed(c.procedure.steps, pos)))
    ensures forall ev | ev in Undisturbed(c.procedure.steps, pos) :: Possible(ev)
    decreases |c.procedure.steps| - pos
  {
    if pos == |c.procedure.steps| {
      assert [FinishAnswer] == [FinishAnswer] + [];
      RunFirst(c, w, FinishAnswer, []);
    } else {
      ThroughOne(c, w, pos);
    }
  }

  lemma {:induction false} ThroughOne(c: Setting, w: World, pos: nat)
    requires Ready(c, w, pos) && ShowableUpTo(c.procedure.steps, |c.procedure.steps|) && pos < |c.procedure.steps|
    ensures Succeeds(Run(c, w, Undisturbed(c.procedure.steps, pos)))
    ensures forall ev | ev in Undisturbed(c.procedure.steps, pos) :: Possible(ev)
    decreases |c.procedure.steps| - pos, 0
  {
    hide R.Step, Run, Succeeds, Ready, Showable;
    var rest := Undisturbed(c.procedure.steps, pos + 1);
    var all := Undisturbed(c.procedure.steps, pos);
    var w1 := R.Step(c, w, GuiAnswer);
    var w2 := R.Step(c, w1, StepResult(GOOD));
    OneStep(c, w, pos);
    if c.procedure.steps[pos].dcUpdate {
      assert all == [GuiAnswer] + ([StepResult(GOOD)] + ([RestoreAnswer] + rest));
      RunFirst(c, w2, RestoreAnswer, rest);
      RunFirst(c, w1, StepResult(GOOD), [RestoreAnswer] + rest);
      RunFirst(c, w, GuiAnswer, [StepResult(GOOD)] + ([RestoreAnswer] + rest));
      Through(c, R.Step(c, w2, RestoreAnswer), pos + 1);
    } else {
      assert all == [GuiAnswer] + ([StepResult(GOOD)] + rest);
      RunFirst(c, w1, StepResult(GOOD), rest);
      RunFirst(c, w, GuiAnswer, [StepResult(GOOD)] + rest);
      Through(c, w2, pos + 1);
    }
  }

  lemma FreshBegins(c: Setting, x: Executions)
    requires Feasible(c.procedure, x)
    ensures var w := R.Step(c, Switched(x), Submit);
            if c.procedure.steps == [] then Succeeds(w) else Ready(c, w, 0)
  {
    assert c.procedure.steps != [] ==> Showable(c.procedure.steps, 0);
  }

  /** A procedure succeeds on some run exactly if its request is well-formed and not used up, each step has a description or
      follows an update of the device controller, and, without a limit, it was put on the list by an earlier request. */
  lemma CanSucceedIff(c: Setting, x: Executions)
    ensures (exists events :: (forall ev | ev in events :: Possible(ev)) && Succeeds(Run(c, Switched(x), events)))
       <==> Feasible(c.procedure, x)
  {
    hide R.Step, Run, WorldInv;
    SwitchedKeeps(c, x);
    forall events | (forall ev | ev in events :: Possible(ev)) && Succeeds(Run(c, Switched(x), events))
      ensures Feasible(c.procedure, x)
    {
      RunPromises(c, x, Switched(x), events);
    }
    if Feasible(c.procedure, x) {
      var w := R.Step(c, Switched(x), Submit);
      FreshBegins(c, x);
      var rest := if c.procedure.steps == [] then [] else Undisturbed(c.procedure.steps, 0);
      var events := [Submit] + rest;
      RunFirst(c, Switched(x), Submit, rest);
      if c.procedure.steps == [] {
        RunNothing(c, w);
      } else {
        Through(c, w, 0);
      }
      assert Succeeds(Run(c, Switched(x), events)) && forall ev | ev in events :: Possible(ev);
    }
  }
}

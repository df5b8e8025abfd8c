/** A procedure: a list of steps carried out one after the other, continued after a reboot from what is on disk. */
module Procedures {
  const MAX_RETRIES := 3
  const OK := 200
  const FAILED := 500
  const BAD_REQUEST := 400

  /** A step; an update of the device controller resets the lines on its display. */
  datatype Step = Step(dcUpdate: bool, described: bool)

  /** How often a procedure may be executed: the attribute of the request. */
  datatype Exec = NoLimit | NotNumeric | Limit(n: int)

  /** A procedure as requested: its steps, whether it has an id and a description, and how often it may be executed. */
  datatype Procedure = Procedure(steps: seq<Step>, identified: bool, described: bool, exec: Exec)

  datatype Result = Result(status: int, text: string)

  const NOT_DESCRIBED := Result(BAD_REQUEST, "procedure function does not have a <description>")

  /** What the list of executions says of the procedure; the list may not be there, or not have it. */
  datatype Executions = NoList | NotListed | Listed(count: int)

  /** What is on disk. `step` is -1 when no procedure runs and 0 before its first step; `update` is the result that an
      update of this device left behind. */
  datatype Disk = Disk(step: int, retry: int, results: seq<Result>, update: seq<Result>, executed: Executions)

  datatype Phase =
    | Constructed
    | AwaitGui
    | AwaitStep
    | AwaitRestore
    | AwaitFinish(status: int)
    | Ended(reply: int)

  /** The running procedure: the next step (counted from 0 and from 1), the line on the display, the retry. */
  datatype Engine = Engine(pos: nat, number: int, gui: int, retry: int, results: seq<Result>, phase: Phase)

  // ---------------------------------------------------------------- the step file

  function Note(d: Disk, step: int, retry: int): Disk
  {
    if step == -1 then d.(step := -1, retry := retry, results := []) else d.(step := step, retry := retry)
  }

  function NoteResults(d: Disk, step: int, results: seq<Result>): Disk
  {
    Note(d.(results := results), step, 0)
  }

  /** Reads the current step; the result of an update, if there is one, counts as that of the current step. */
  function ReadStep(d: Disk): (int, Disk)
  {
    var d' := if d.update == [] then d else Note(d.(results := d.results + [d.update[0]], update := []), d.step + 1, 0);
    (if d'.step != 0 then d'.step else -1, d')
  }

  // ---------------------------------------------------------------- the procedure

  predicate IsDcUpdate(steps: seq<Step>, pos: nat)
  {
    pos < |steps| && steps[pos].dcUpdate
  }

  /** Position, step number and display line. */
  datatype Place = Place(pos: nat, number: int, gui: int)

  const BEGINNING := Place(0, 1, 1)

  /** One turn of the loop that finds the place again after a reboot. */
  function Forward(steps: seq<Step>, p: Place, i: nat): Place
  {
    Place(p.pos + 1, i + 1, if IsDcUpdate(steps, p.pos + 1) then 1 else p.gui + 1)
  }

  /** The place found again after `i - 1` turns. */
  function Replay(steps: seq<Step>, i: nat): Place
  {
    if i <= 1 then BEGINNING else Forward(steps, Replay(steps, i - 1), i - 1)
  }

  /** The place after the step at `p` is done. */
  function Advanced(steps: seq<Step>, p: Place): Place
  {
    Place(p.pos + 1, p.number + 1, if IsDcUpdate(steps, p.pos) then 2 else p.gui + 1)
  }

  /** The place before step `s` without any reboot. */
  function Uninterrupted(steps: seq<Step>, s: nat): Place
  {
    if s <= 1 then BEGINNING else Advanced(steps, Uninterrupted(steps, s - 1))
  }

  function EngineAt(p: Place, retry: int, results: seq<Result>, phase: Phase): Engine
  {
    Engine(p.pos, p.number, p.gui, retry, results, phase)
  }

  function PlaceOf(e: Engine): Place
  {
    Place(e.pos, e.number, e.gui)
  }

  /** With assertions compiled in, the program ends when the step noted is not followed by another. */
  function Construct(steps: seq<Step>, d: Disk, asserts: bool): (seq<Engine>, Disk)
  {
    var (step, d1) := ReadStep(d);
    if step <= 0 then ([EngineAt(BEGINNING, 0, [], Constructed)], d1)
    else
      var retry := d1.retry + 1;
      var d2 := Note(d1, step, retry);
      if asserts && |steps| <= step then ([], d2)
      else ([EngineAt(Replay(steps, step), retry, d1.results, Constructed)], d2)
  }

  // ---------------------------------------------------------------- the list of executions

  /** Whether the procedure was executed often enough. One that is not listed is listed, and goes ahead whatever the limit. */
  function ExecExceeded(x: Executions, n: int): (bool, Executions)
  {
    match x
    case Listed(count) => (count >= n, x)
    case _ => (false, Listed(0))
  }

  /** One more execution; this fails for a procedure that is not listed. */
  function IncrementExec(x: Executions): (bool, Executions)
  {
    match x
    case Listed(count) => (true, Listed(count + 1))
    case _ => (false, x)
  }

  // ---------------------------------------------------------------- running

  function Shutdown(e: Engine, d: Disk, status: int): (Engine, Disk)
  {
    var d1 := Note(d, -1, 0);
    if status != OK then (e.(phase := AwaitFinish(status)), d1)
    else
      var (counted, executed) := IncrementExec(d1.executed);
      (e.(phase := AwaitFinish(if counted then OK else FAILED)), d1.(executed := executed))
  }

  function Refused(e: Engine): Engine
  {
    e.(phase := Ended(BAD_REQUEST))
  }

  /** Id, number of executions and description are looked at on every start, also after a reboot. */
  function StartCall(p: Procedure, e: Engine, d: Disk): (Engine, Disk)
  {
    if e.retry > MAX_RETRIES then (e.(phase := Ended(FAILED)), Note(d, -1, 0))
    else if !p.identified || p.exec.NotNumeric? then (Refused(e), d)
    else if p.exec.NoLimit? then Begin(p, e, d)
    else
      var (exceeded, executed) := ExecExceeded(d.executed, p.exec.n);
      if exceeded then (Refused(e), d) else Begin(p, e, d.(executed := executed))
  }

  function Begin(p: Procedure, e: Engine, d: Disk): (Engine, Disk)
  {
    if !p.described then (Refused(e), d)
    else if e.pos < |p.steps| then
      if p.steps[e.pos].described then (e.(phase := AwaitGui), d)
      else Shutdown(e.(results := e.results + [NOT_DESCRIBED]), d, FAILED)
    else if e.number == 1 then (e.(phase := Ended(OK)), d)
    else Shutdown(e, d, OK)
  }

  /** The display shows the step: its call starts. */
  function GuiDone(e: Engine, d: Disk): (Engine, Disk)
  {
    (e.(phase := AwaitStep), Note(d, e.number, e.retry))
  }

  /** The call of the step cannot be created. */
  function CallRefused(e: Engine, d: Disk, reason: Result): (Engine, Disk)
  {
    var (e1, d1) := GuiDone(e, d);
    Shutdown(e1.(results := e1.results + [reason]), d1, FAILED)
  }

  function NextStep(steps: seq<Step>, e: Engine, d: Disk, checked: bool): (Engine, Disk)
  {
    var e1 := e.(pos := e.pos + 1, number := e.number + 1, gui := e.gui + 1, phase := AwaitGui);
    if e1.pos < |steps| then
      var d1 := NoteResults(d, e1.number, e1.results);
      if checked && !steps[e1.pos].described then Shutdown(e1.(results := e1.results + [NOT_DESCRIBED]), d1, FAILED)
      else (e1, d1)
    else Shutdown(e1, d, OK)
  }

  function StepDone(steps: seq<Step>, e: Engine, d: Disk, r: Result): (Engine, Disk)
  {
    var e1 := e.(results := e.results + [r]);
    if r.status != OK then Shutdown(e1, d, FAILED)
    else if IsDcUpdate(steps, e.pos) then (e1.(gui := 1, phase := AwaitRestore), d)
    else NextStep(steps, e1, d, true)
  }

  /** The display is back after an update of the device controller. The description of the next step is not checked. */
  function RestoreDone(steps: seq<Step>, e: Engine, d: Disk): (Engine, Disk)
  {
    NextStep(steps, e, d, false)
  }

  function FinishDone(e: Engine): Engine
  {
    match e.phase
    case AwaitFinish(status) => e.(phase := Ended(status))
    case _ => e
  }

  // ---------------------------------------------------------------- finding the place again

  /** The last update of the device controller before step `s`, or 0. */
  function LastDcUpdate(steps: seq<Step>, s: nat): (d: nat)
    ensures d == 0 || (d < s && IsDcUpdate(steps, d - 1))
    ensures forall pos | d <= pos < s - 1 :: !IsDcUpdate(steps, pos)
  {
    if s <= 1 then 0 else if IsDcUpdate(steps, s - 2) then s - 1 else LastDcUpdate(steps, s - 1)
  }

  lemma {:induction false} UninterruptedPlace(steps: seq<Step>, s: nat)
    requires s >= 1
    ensures var d := LastDcUpdate(steps, s);
            Uninterrupted(steps, s) == Place(s - 1, s, if d > 0 then s - d + 1 else s)
  {
    if s > 1 {
      UninterruptedPlace(steps, s - 1);
    }
  }

  lemma {:induction false} ReplayPlace(steps: seq<Step>, s: nat)
    requires s >= 1
    ensures var d := LastDcUpdate(steps, s);
            Replay(steps, s) == Place(s - 1, s, if s > 1 && IsDcUpdate(steps, s - 1) then 1 else if d > 0 then s - d + 1 else s)
  {
    if s > 1 {
      ReplayPlace(steps, s - 1);
    }
  }

  /** The place found again is the place left, except at an update of the device controller other than the first step, where
      the display starts over at line 1. */
  lemma ReplayAgrees(steps: seq<Step>, s: nat)
    requires s >= 1
    ensures Replay(steps, s).pos == Uninterrupted(steps, s).pos && Replay(steps, s).number == Uninterrupted(steps, s).number
    ensures Replay(steps, s) == Uninterrupted(steps, s) <==> s == 1 || !IsDcUpdate(steps, s - 1)
  {
    ReplayPlace(steps, s);
    UninterruptedPlace(steps, s);
  }

  /** Once the step resumed at is done the places agree in any case. */
  lemma AgreesAfterwards(steps: seq<Step>, s: nat)
    requires s >= 1
    ensures Advanced(steps, Replay(steps, s)) == Uninterrupted(steps, s + 1)
  {
    ReplayAgrees(steps, s);
    ReplayPlace(steps, s);
    UninterruptedPlace(steps, s);
  }
}

/** The procedure and its step file as objects, proved against `Procedures`. */
module CoreFunctionProcedures {
  import opened Procedures

  /** The step file, with the result an update of this device may have left and the count of executions. */
  class StepFile {
    var step: int
    var retry: int
    var results: seq<Result>
    var update: seq<Result>
    var executed: Executions

    ghost function View(): Disk
      reads this
    {
      Disk(step, retry, results, update, executed)
    }

    constructor ()
      ensures View() == Disk(-1, 0, [], [], NoList)
    {
      step, retry, results, update, executed := -1, 0, [], [], NoList;
    }

    method NoteCurrentProcStep(step: int, retry: int)
      modifies this
      ensures View() == Note(old(View()), step, retry)
    {
      if step == -1 {
        results := [];
      }
      this.step, this.retry := step, retry;
    }

    method NoteStepAndResults(step: int, results: seq<Result>)
      modifies this
      ensures View() == NoteResults(old(View()), step, results)
    {
      this.results := results;
      NoteCurrentProcStep(step, 0);
    }

    method GetCurrentProcStep() returns (current: int)
      modifies this
      ensures (current, View()) == ReadStep(old(View()))
    {
      current := step;
      if update != [] {
        results := results + [update[0]];
        current := current + 1;
        NoteCurrentProcStep(current, 0);
        update := [];
      }
      if current == 0 {
        current := -1;
      }
    }

    /** Lists the procedure if it is not listed yet. */
    method CheckExecExceeded(n: int) returns (exceeded: bool)
      modifies this`executed
      ensures (exceeded, executed) == ExecExceeded(old(executed), n)
    {
      match executed
      case Listed(count) => return count >= n;
      case _ =>
        executed := Listed(0);
        return false;
    }

    method IncrementExecAttribute() returns (counted: bool)
      modifies this`executed
      ensures (counted, executed) == IncrementExec(old(executed))
    {
      match executed
      case Listed(count) =>
        executed := Listed(count + 1);
        return true;
      case _ => return false;
    }
  }

  class CoreFunctionProcedure {
    const procedure: Procedure
    const file: StepFile
    var funcParamPos: nat
    var funcParamNumber: int
    var guiParamNumber: int
    var retry: int
    var resultList: seq<Result>
    var phase: Phase
    var aborted: bool      // an assertion failed and ended the program

    ghost function View(): Engine
      reads this
    {
      Engine(funcParamPos, funcParamNumber, guiParamNumber, retry, resultList, phase)
    }

    ghost function State(): (Engine, Disk)
      reads this, file
    {
      (View(), file.View())
    }

    /** `asserts` tells whether assertions are compiled in. */
    constructor (procedure: Procedure, file: StepFile, asserts: bool)
      modifies file
      ensures this.procedure == procedure && this.file == file
      ensures Construct(procedure.steps, old(file.View()), asserts) == (if aborted then [] else [View()], file.View())
    {
      this.procedure, this.file := procedure, file;
      funcParamPos, funcParamNumber, guiParamNumber := 0, 1, 1;
      retry, resultList, phase, aborted := 0, [], Constructed, false;
      new;
      Resume(asserts);
    }

    /** Continues after a reboot. */
    method Resume(asserts: bool)
      requires View() == EngineAt(BEGINNING, 0, [], Constructed) && !aborted
      modifies this, file
      ensures Construct(procedure.steps, old(file.View()), asserts) == (if aborted then [] else [View()], file.View())
    {
      var step := file.GetCurrentProcStep();
      if step <= 0 {
        assert View() == EngineAt(BEGINNING, 0, [], Constructed);
        return;
      }
      resultList := file.results;
      retry := file.retry + 1;
      file.NoteCurrentProcStep(step, retry);
      if asserts && |procedure.steps| <= step {
        aborted := true;
        return;
      }
      SkipTo(step);
    }

    method SkipTo(step: int)
      requires step > 0 && PlaceOf(View()) == BEGINNING
      modifies this`funcParamPos, this`funcParamNumber, this`guiParamNumber
      ensures View() == EngineAt(Replay(procedure.steps, step), retry, resultList, phase)
    {
      for i := 1 to step
        invariant PlaceOf(View()) == Replay(procedure.steps, i)
      {
        funcParamPos := funcParamPos + 1;
        funcParamNumber := i + 1;
        guiParamNumber := guiParamNumber + 1;
        if funcParamPos < |procedure.steps| {
          var function_ := procedure.steps[funcParamPos];
          if function_.dcUpdate {
            guiParamNumber := 1;
          }
        }
      }
    }

    method ShutdownProcedure(status: int)
      modifies this`phase, file
      ensures State() == Shutdown(old(View()), old(file.View()), status)
    {
      file.NoteCurrentProcStep(-1, 0);
      var returnStatus := status;
      if status == OK {
        var counted := file.IncrementExecAttribute();
        if !counted {
          returnStatus := FAILED;
        }
      }
      phase := AwaitFinish(returnStatus);
    }

    /** Either the procedure goes ahead, or it ends with a refusal. */
    method StartCall()
      modifies this, file
      ensures State() == Procedures.StartCall(procedure, old(View()), old(file.View()))
    {
      if retry > MAX_RETRIES {
        file.NoteCurrentProcStep(-1, 0);
        phase := Ended(FAILED);
        return;
      }
      if !procedure.identified {
        phase := Ended(BAD_REQUEST);
        return;
      }
      match procedure.exec {
        case NoLimit =>
        case NotNumeric =>
          phase := Ended(BAD_REQUEST);
          return;
        case Limit(n) =>
          var exceeded := file.CheckExecExceeded(n);
          if exceeded {
            phase := Ended(BAD_REQUEST);
            return;
          }
      }
      if !procedure.described {
        phase := Ended(BAD_REQUEST);
        return;
      }
      if funcParamPos < |procedure.steps| {
        if !procedure.steps[funcParamPos].described {
          resultList := resultList + [NOT_DESCRIBED];
          ShutdownProcedure(FAILED);
          return;
        }
        phase := AwaitGui;
      } else if funcParamNumber == 1 {
        phase := Ended(OK);
      } else {
        ShutdownProcedure(OK);
      }
    }

    /** The display answered: the call of the step starts, unless it cannot be created. */
    method GuiQueryFinished(refusal: seq<Result>)
      modifies this, file
      ensures State() == if refusal == [] then GuiDone(old(View()), old(file.View()))
                         else CallRefused(old(View()), old(file.View()), refusal[0])
    {
      file.NoteCurrentProcStep(funcParamNumber, retry);
      phase := AwaitStep;
      if refusal != [] {
        resultList := resultList + [refusal[0]];
        ShutdownProcedure(FAILED);
      }
    }

    method ProcStepFinished(result: Result)
      modifies this, file
      ensures State() == StepDone(procedure.steps, old(View()), old(file.View()), result)
    {
      resultList := resultList + [result];
      if result.status != OK {
        ShutdownProcedure(FAILED);
        return;
      }
      if funcParamPos < |procedure.steps| && procedure.steps[funcParamPos].dcUpdate {
        guiParamNumber := 1;
        phase := AwaitRestore;
        return;
      }
      funcParamPos := funcParamPos + 1;
      funcParamNumber := funcParamNumber + 1;
      guiParamNumber := guiParamNumber + 1;
      phase := AwaitGui;
      if funcParamPos < |procedure.steps| {
        file.NoteStepAndResults(funcParamNumber, resultList);
        if !procedure.steps[funcParamPos].described {
          resultList := resultList + [NOT_DESCRIBED];
          ShutdownProcedure(FAILED);
        }
      } else {
        ShutdownProcedure(OK);
      }
    }

    method DcUpdateGuiRestoreQueryFinished()
      modifies this, file
      ensures State() == RestoreDone(procedure.steps, old(View()), old(file.View()))
    {
      funcParamPos := funcParamPos + 1;
      funcParamNumber := funcParamNumber + 1;
      guiParamNumber := guiParamNumber + 1;
      phase := AwaitGui;
      if funcParamPos < |procedure.steps| {
        file.NoteStepAndResults(funcParamNumber, resultList);
      } else {
        ShutdownProcedure(OK);
      }
    }

    method GuiFinishFinished()
      modifies this`phase
      ensures View() == FinishDone(old(View()))
    {
      match phase
      case AwaitFinish(status) => phase := Ended(status);
      case _ =>
    }
  }
}

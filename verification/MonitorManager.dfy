/** Monitors and their manager as objects, proved against `Monitors`. */
module MonitorObjects {
  import M = Monitors
  import L = LogRing
  import opened LogHandlers

  class Monitor {
    var appearTriggerValue: int
    var disappearTriggerValue: int
    var slopeType: M.Slope
    var valid: bool
    var alarmOn: bool
    ghost var alarms: seq<M.Direction>

    ghost function View(): M.Monitor
      reads this
    {
      M.Monitor(appearTriggerValue, disappearTriggerValue, slopeType, valid, alarmOn, alarms)
    }

    constructor ()
      ensures View().slope == M.NoSlope && !View().valid && !View().on && View().alarms == []
    {
      slopeType, valid, alarmOn, alarms := M.NoSlope, false, false, [];
    }

    method SetValid(valid: bool)
      modifies this`valid
      ensures View() == old(View()).(valid := valid)
    {
      this.valid := valid;
    }

    method SetAlarmThresholds(appearValue: int, disappearValue: int, slope: M.Slope)
      modifies this`appearTriggerValue, this`disappearTriggerValue, this`slopeType
      ensures View() == M.Thresholds(old(View()), appearValue, disappearValue, slope)
    {
      appearTriggerValue := appearValue;
      if disappearValue == M.ALARM_VALUE_INVALID {
        disappearTriggerValue := appearValue;
      } else {
        disappearTriggerValue := disappearValue;
      }
      if slope == M.Rising {
        if disappearTriggerValue > appearTriggerValue {
          disappearTriggerValue := appearTriggerValue;
        }
      }
      if slope == M.Falling {
        if disappearTriggerValue < appearTriggerValue {
          disappearTriggerValue := appearTriggerValue;
        }
      }
      slopeType := slope;
    }

    /** Evaluates the current value, and returns the alarms to emit: one or none. */
    method EvaluateAlarms(triggerValue: int) returns (emitted: seq<M.Direction>)
      modifies this`alarmOn, this`alarms
      ensures View() == M.Evaluated(old(View()), triggerValue)
      ensures emitted == if View().on == old(View()).on then [] else if View().on then [M.Appear] else [M.Disappear]
    {
      if slopeType == M.NoSlope || !valid {
        return [];
      }
      var on := alarmOn;
      if !on {
        match slopeType
        case Rising => if triggerValue > appearTriggerValue { on := true; }
        case Falling => if triggerValue < appearTriggerValue { on := true; }
        case NoSlope =>
      } else {
        match slopeType
        case Rising => if triggerValue < disappearTriggerValue { on := false; }
        case Falling => if triggerValue > disappearTriggerValue { on := false; }
        case NoSlope =>
      }
      emitted := UpdateAlarmState(on);
    }

    method UpdateAlarmState(on: bool) returns (emitted: seq<M.Direction>)
      modifies this`alarmOn, this`alarms
      ensures emitted == if on == old(alarmOn) then [] else if on then [M.Appear] else [M.Disappear]
      ensures alarmOn == on && alarms == old(alarms) + emitted
    {
      emitted := [];
      if on {
        if !alarmOn {
          emitted := [M.Appear];
        }
      } else {
        if alarmOn {
          emitted := [M.Disappear];
        }
      }
      alarms := alarms + emitted;
      alarmOn := on;
    }
  }

  ghost function Views(ms: seq<Monitor>): (vs: seq<M.Monitor>)
    reads ms
    ensures |vs| == |ms| && forall i | 0 <= i < |ms| :: vs[i] == ms[i].View()
  {
    if ms == [] then [] else Views(ms[..|ms| - 1]) + [ms[|ms| - 1].View()]
  }

  /** Logs a line of the manager's own. */
  method Note(logHandler: LogHandler<M.Entry>, level: L.Level, text: string)
    requires logHandler.Valid() && (level == L.WARNING || level == L.DEBUG)
    modifies logHandler, logHandler.buffer
    ensures logHandler.Valid() && logHandler.buffer == old(logHandler.buffer)
    ensures logHandler.View() == M.Noted(old(logHandler.View()), level, text)
  {
    hide L.Logged, L.ToLogLevel;
    M.LevelNames();
    var refused := logHandler.LogEntry(if level == L.WARNING then "Warning" else "Debug", M.Other(text));
  }

  /** Logs an error and flushes the log. */
  method LogError(logHandler: LogHandler<M.Entry>, e: M.Entry)
    requires logHandler.Valid()
    modifies logHandler, logHandler.buffer
    ensures logHandler.Valid() && logHandler.buffer == old(logHandler.buffer)
    ensures logHandler.View() == M.ErrorLogged(old(logHandler.View()), e)
  {
    hide L.Logged, L.Flushed, L.ToLogLevel;
    M.LevelNames();
    var refused := logHandler.LogEntry("Error", e);
    logHandler.Flush();
  }

  class MonitorManager {
    const logHandler: LogHandler<M.Entry>   // the log of the program
    var monitors: seq<Monitor>
    var alarmCounter: int
    var originLogLevel: int
    var lines: seq<M.Entry>                 // the manager's own file

    ghost function View(): M.Manager
      reads this, monitors, logHandler
    {
      M.Manager(Views(monitors), alarmCounter, originLogLevel, lines, logHandler.View())
    }

    /** No monitor is watched twice. */
    ghost predicate Valid()
      reads this, logHandler, logHandler.buffer
    {
      logHandler.Valid() && forall i, j | 0 <= i < j < |monitors| :: monitors[i] != monitors[j]
    }

    constructor (logHandler: LogHandler<M.Entry>)
      requires logHandler.Valid()
      ensures Valid() && this.logHandler == logHandler
      ensures View() == M.Manager([], 0, M.INVALID, [], logHandler.View())
    {
      this.logHandler := logHandler;
      monitors, alarmCounter, originLogLevel, lines := [], 0, M.INVALID, [];
    }

    method AddMonitor(monitor: Monitor)
      requires Valid() && monitor !in monitors
      modifies this`monitors
      ensures Valid() && View() == M.Step(old(View()), M.Add(monitor.View()))
    {
      monitors := monitors + [monitor];
      assert Views(monitors) == old(Views(monitors)) + [monitor.View()];
    }

    /** Counts the alarm; the first raises the level, and after the last it is restored. */
    method CountAlarm(direction: M.Direction)
      requires Valid()
      modifies this`alarmCounter, this`originLogLevel, logHandler, logHandler.buffer
      ensures Valid() && logHandler.buffer == old(logHandler.buffer)
      ensures alarmCounter == old(alarmCounter) + if direction == M.Appear then 1 else -1
      ensures var first := direction == M.Appear && alarmCounter == 1;
              var last := alarmCounter == 0 && old(originLogLevel) != M.INVALID;
              var before := old(logHandler.View());
              && originLogLevel == (if first then before.level else old(originLogLevel))
              && logHandler.View()
                 == if first then M.LevelChanged(before, M.DEBUG, "raised")
                    else if last then M.LevelChanged(before, old(originLogLevel), "restored") else before
    {
      hide M.Noted;
      if direction == M.Appear {
        alarmCounter := alarmCounter + 1;
      } else {
        alarmCounter := alarmCounter - 1;
      }
      if direction == M.Appear && alarmCounter == 1 {
        originLogLevel := logHandler.currentLogLevel;
        logHandler.SetLogLevel(M.DEBUG);
        Note(logHandler, L.WARNING, "raised");
      } else if alarmCounter == 0 {
        if originLogLevel != M.INVALID {
          logHandler.SetLogLevel(originLogLevel);
          Note(logHandler, L.WARNING, "restored");
        }
      }
    }

    /** Counts the alarm, raises or restores the level, and writes the alarm to both files. */
    method SlotAlarm(i: nat, direction: M.Direction)
      requires Valid()
      modifies this`alarmCounter, this`originLogLevel, this`lines, logHandler, logHandler.buffer
      ensures Valid() && View() == M.SlotAlarm(old(View()), i, direction)
      ensures logHandler.buffer == old(logHandler.buffer)
    {
      hide M.ErrorLogged, Views, M.LevelChanged;
      NotedKeepsLevel(logHandler.View(), L.WARNING, "alarm");
      hide M.Noted;
      Note(logHandler, L.WARNING, "alarm");
      CountAlarm(direction);
      lines := lines + [M.Alarm(i, direction)];
      LogError(logHandler, M.Alarm(i, direction));
    }

    /** Writes the value of a monitor to both files. */
    method LogReading(i: nat, value: int)
      requires Valid()
      modifies this`lines, logHandler, logHandler.buffer
      ensures Valid() && logHandler.buffer == old(logHandler.buffer)
      ensures View() == old(View()).(lines := old(lines) + [M.Reading(i, value)],
                                     log := M.Noted(old(logHandler.View()), L.DEBUG, "reading"))
    {
      hide M.Noted;
      lines := lines + [M.Reading(i, value)];
      Note(logHandler, L.DEBUG, "reading");
      assert Views(monitors) == old(Views(monitors));
    }

    /** One monitor with its current value. */
    method Watch(i: nat, value: int)
      requires Valid() && i < |monitors|
      modifies this`alarmCounter, this`originLogLevel, this`lines, monitors[i], logHandler, logHandler.buffer
      ensures Valid() && View() == M.Watch(old(View()), i, value)
      ensures logHandler.buffer == old(logHandler.buffer)
    {
      hide M.SlotAlarm, M.AlarmAfter, M.Noted;
      LogReading(i, value);
      ghost var before := View();
      var emitted := monitors[i].EvaluateAlarms(value);
      assert Views(monitors) == before.monitors[i := monitors[i].View()];
      assert View() == M.Put(before, i, monitors[i].View());
      if emitted != [] {
        SlotAlarm(i, emitted[0]);
      } else {
        UnchangedWhenQuiet(before.monitors[i], value);
      }
    }

    /** The timer: every monitor in turn; `values` are what they read. */
    method TimeoutHandler(values: seq<int>)
      requires Valid() && |values| == |monitors|
      modifies this`alarmCounter, this`originLogLevel, this`lines, monitors, logHandler, logHandler.buffer
      ensures Valid() && View() == M.Round(old(View()), values)
    {
      hide M.Noted, M.Watch;
      Note(logHandler, L.DEBUG, "timer");
      assert values[..0] == [];
      for i := 0 to |monitors|
        invariant Valid() && logHandler.buffer == old(logHandler.buffer)
        invariant View() == M.Round(old(View()), values[..i])
      {
        assert values[..i + 1][..i] == values[..i];
        Watch(i, values[i]);
      }
      assert values[..|values|] == values;
    }
  }

  lemma NotedKeepsLevel(l: L.Log<M.Entry>, level: L.Level, text: string)
    ensures M.Noted(l, level, text).level == l.level
  {
  }

  lemma UnchangedWhenQuiet(m: M.Monitor, value: int)
    requires M.Evaluated(m, value).on == m.on
    ensures M.Evaluated(m, value) == m
  {
    assert m.alarms + [] == m.alarms;
  }
}

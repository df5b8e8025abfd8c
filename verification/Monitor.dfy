/** Monitors with hysteresis, the log level they raise while any of them is in alarm, and what they write. */
module Monitors {
  import L = LogRing

  const ALARM_VALUE_INVALID: int := 0x7FFF_FFFF_FFFF_FFFF

  const DEBUG := L.Number(L.DEBUG)
  const FATAL_ERROR := L.Number(L.FATAL_ERROR)
  const INVALID := -1

  datatype Slope = NoSlope | Rising | Falling
  datatype Direction = Appear | Disappear

  /** `alarms` are the alarms emitted so far. */
  datatype Monitor = Monitor(appear: int, disappear: int, slope: Slope, valid: bool, on: bool, alarms: seq<Direction>)

  function Thresholds(m: Monitor, appear: int, disappear: int, slope: Slope): Monitor
  {
    var d := if disappear == ALARM_VALUE_INVALID then appear else disappear;
    var wrong := (slope == Rising && d > appear) || (slope == Falling && d < appear);
    m.(appear := appear, disappear := if wrong then appear else d, slope := slope)
  }

  /** Whether the alarm is on after `value`; what counts depends on whether it was on before. */
  function AlarmAfter(m: Monitor, value: int): bool
  {
    match m.slope
    case NoSlope => m.on
    case Rising => if !m.on then value > m.appear else value >= m.disappear
    case Falling => if !m.on then value < m.appear else value <= m.disappear
  }

  function Evaluated(m: Monitor, value: int): Monitor
  {
    if m.slope == NoSlope || !m.valid then m
    else
      var on := AlarmAfter(m, value);
      m.(on := on, alarms := m.alarms + if on == m.on then [] else if on then [Appear] else [Disappear])
  }

  // ---------------------------------------------------------------- one monitor

  /** The two thresholds are the ends of a band; the alarm appears beyond the one and disappears beyond the other. */
  predicate BandInv(m: Monitor)
  {
    (m.slope == Rising ==> m.disappear <= m.appear) && (m.slope == Falling ==> m.appear <= m.disappear)
  }

  lemma ThresholdsMakeBand(m: Monitor, appear: int, disappear: int, slope: Slope)
    ensures BandInv(Thresholds(m, appear, disappear, slope))
    ensures var m' := Thresholds(m, appear, disappear, slope);
            m'.appear == appear && m'.on == m.on
            && (disappear != ALARM_VALUE_INVALID && BandInv(m'.(disappear := disappear)) ==> m'.disappear == disappear)
  {
  }

  predicate AlarmSide(m: Monitor, value: int)
  {
    if m.slope == Rising then value > m.appear else m.slope == Falling && value < m.appear
  }

  predicate QuietSide(m: Monitor, value: int)
  {
    if m.slope == Rising then value < m.disappear else m.slope == Falling && value > m.disappear
  }

  /** The reference: the last value outside the band decides. */
  function LastOutside(m: Monitor, values: seq<int>): bool
  {
    if values == [] then m.on
    else
      var last := values[|values| - 1];
      if AlarmSide(m, last) then true else if QuietSide(m, last) then false
      else LastOutside(m, values[..|values| - 1])
  }

  function EvaluatedAll(m: Monitor, values: seq<int>): Monitor
  {
    if values == [] then m else Evaluated(EvaluatedAll(m, values[..|values| - 1]), values[|values| - 1])
  }

  lemma {:induction false} Hysteresis(m: Monitor, values: seq<int>)
    requires BandInv(m) && m.valid
    ensures var m' := EvaluatedAll(m, values);
            m' == m.(on := m'.on, alarms := m'.alarms) && m'.on == LastOutside(m, values)
  {
    if values != [] {
      Hysteresis(m, values[..|values| - 1]);
    }
  }

  /** Alarms alternate, beginning with one that appears, and the last tells the state. */
  predicate Alternating(m: Monitor)
  {
    && (forall i | 0 <= i < |m.alarms| :: m.alarms[i] == if i % 2 == 0 then Appear else Disappear)
    && (m.on <==> |m.alarms| % 2 == 1)
  }

  lemma EvaluatedAlternates(m: Monitor, value: int)
    requires Alternating(m)
    ensures Alternating(Evaluated(m, value))
  {
  }

  // ---------------------------------------------------------------- all monitors

  /** A line of a log: the value of a monitor, an alarm, or anything else. Monitors go by their position. */
  datatype Entry = Reading(monitor: nat, value: int) | Alarm(monitor: nat, direction: Direction) | Other(text: string)

  /** `lines` is the manager's own file, `log` the log of the program. */
  datatype Manager = Manager(monitors: seq<Monitor>, alarmCounter: int, originLogLevel: int, lines: seq<Entry>, log: L.Log<Entry>)

  /** An error is logged, and the log is flushed. */
  function ErrorLogged(l: L.Log<Entry>, e: Entry): L.Log<Entry>
  {
    L.Flushed(L.Logged(l, L.ERROR, e))
  }

  /** The manager logs something of its own. */
  function Noted(l: L.Log<Entry>, level: L.Level, text: string): L.Log<Entry>
  {
    L.Logged(l, level, Other(text))
  }

  /** The level changes, and a warning tells so. */
  function LevelChanged(l: L.Log<Entry>, level: int, text: string): L.Log<Entry>
  {
    Noted(l.(level := level), L.WARNING, text)
  }

  /** The alarm is counted, the level raised with the first and restored after the last; then the alarm is written. */
  function SlotAlarm(a: Manager, i: nat, direction: Direction): Manager
  {
    var counter := if direction == Appear then a.alarmCounter + 1 else a.alarmCounter - 1;
    var first, last := direction == Appear && counter == 1, counter == 0 && a.originLogLevel != INVALID;
    var warned := Noted(a.log, L.WARNING, "alarm");
    var log := if first then LevelChanged(warned, DEBUG, "raised")
               else if last then LevelChanged(warned, a.originLogLevel, "restored") else warned;
    a.(alarmCounter := counter, originLogLevel := if first then a.log.level else a.originLogLevel,
       lines := a.lines + [Alarm(i, direction)], log := ErrorLogged(log, Alarm(i, direction)))
  }

  function Put(a: Manager, i: nat, m: Monitor): Manager
    requires i < |a.monitors|
  {
    a.(monitors := a.monitors[i := m])
  }

  function Watch(a: Manager, i: nat, value: int): Manager
    requires i < |a.monitors|
  {
    var m, m' := a.monitors[i], Evaluated(a.monitors[i], value);
    var a1 := a.(lines := a.lines + [Reading(i, value)], log := Noted(a.log, L.DEBUG, "reading"));
    if m'.on == m.on then a1 else SlotAlarm(Put(a1, i, m'), i, if m'.on then Appear else Disappear)
  }

  datatype Event =
    | Add(monitor: Monitor)
    | Configure(i: nat, appear: int, disappear: int, slope: Slope)
    | Validate(i: nat, valid: bool)
    | Update(i: nat, value: int)
    | Logging(event: L.Event<Entry>)   // whatever else happens to the log

  /** A monitor is added before it was ever evaluated; a level set from outside is a real one, and nobody else logs alarms. */
  predicate Possible(e: Event)
  {
    match e
    case Add(m) => !m.on && m.alarms == [] && BandInv(m)
    case Logging(SetLevel(level)) => DEBUG <= level <= FATAL_ERROR
    case Logging(Entered(_, entry)) => entry.Other?
    case _ => true
  }

  /** The event sets the level: directly, or by a configuration with a level the log knows, or with none. */
  predicate SetsLevel(e: Event)
  {
    e.Logging? &&
      (e.event.SetLevel? || (e.event.Configure? && (e.event.levelName == "" || L.ToLogLevel(e.event.levelName).Some?)))
  }

  function LevelSet(e: Event): int
    requires SetsLevel(e)
  {
    match e.event
    case SetLevel(level) => level
    case Configure(_, levelName) => L.Number(if levelName == "" then L.INFO else L.ToLogLevel(levelName).value)
  }

  function Step(a: Manager, e: Event): Manager
  {
    match e
    case Add(m) => a.(monitors := a.monitors + [m])
    case Configure(i, appear, disappear, slope) =>
      if i < |a.monitors| then Put(a, i, Thresholds(a.monitors[i], appear, disappear, slope)) else a
    case Validate(i, valid) => if i < |a.monitors| then Put(a, i, a.monitors[i].(valid := valid)) else a
    case Update(i, value) => if i < |a.monitors| then Watch(a, i, value) else a
    case Logging(ev) => a.(log := L.Step(a.log, ev))
  }

  function Run(a: Manager, events: seq<Event>): Manager
  {
    if events == [] then a else Step(Run(a, events[..|events| - 1]), events[|events| - 1])
  }

  function Initial(size: nat, level: int): Manager
  {
    Manager([], 0, INVALID, [], L.Log(size, level, [], [], [], []))
  }

  function CountOn(ms: seq<Monitor>): nat
  {
    if ms == [] then 0 else CountOn(ms[..|ms| - 1]) + if ms[|ms| - 1].on then 1 else 0
  }

  /** The level last set from outside while no monitor was in alarm. */
  function WantedLevel(a: Manager, events: seq<Event>): int
  {
    if events == [] then a.log.level
    else
      var front, last := events[..|events| - 1], events[|events| - 1];
      if SetsLevel(last) && Run(a, front).alarmCounter == 0 then LevelSet(last) else WantedLevel(a, front)
  }

  /** Nobody set the level from outside since it was raised. */
  predicate Untouched(a: Manager, events: seq<Event>)
  {
    events != [] ==>
      var front, last := events[..|events| - 1], events[|events| - 1];
      Run(a, front).alarmCounter == 0 || (!SetsLevel(last) && Untouched(a, front))
  }

  // ---------------------------------------------------------------- what alarms leave in the logs

  /** The alarms of monitor `i` among some entries. */
  function AlarmsOf(entries: seq<Entry>, i: nat): seq<Direction>
  {
    if entries == [] then []
    else
      var last := entries[|entries| - 1];
      AlarmsOf(entries[..|entries| - 1], i) + if last.Alarm? && last.monitor == i then [last.direction] else []
  }

  lemma {:induction false} AlarmsOfConcat(a: seq<Entry>, b: seq<Entry>, i: nat)
    ensures AlarmsOf(a + b, i) == AlarmsOf(a, i) + AlarmsOf(b, i)
    decreases |b|
  {
    if b == [] {
      assert a + b == a && AlarmsOf(a, i) + [] == AlarmsOf(a, i);
    } else {
      var front, last := b[..|b| - 1], b[|b| - 1];
      assert (a + b)[..|a + b| - 1] == a + front && (a + b)[|a + b| - 1] == last;
      AlarmsOfConcat(a, front, i);
      var now := if last.Alarm? && last.monitor == i then [last.direction] else [];
      assert AlarmsOf(a, i) + (AlarmsOf(front, i) + now) == AlarmsOf(a, i) + AlarmsOf(front, i) + now;
    }
  }

  predicate NoAlarms(entries: seq<Entry>)
  {
    forall e | e in entries :: !e.Alarm?
  }

  lemma {:induction false} NoneOf(entries: seq<Entry>, i: nat)
    requires NoAlarms(entries)
    ensures AlarmsOf(entries, i) == []
  {
    if entries != [] {
      assert entries[|entries| - 1] in entries;
      NoneOf(entries[..|entries| - 1], i);
    }
  }

  lemma AlarmsOfSnoc(entries: seq<Entry>, e: Entry, i: nat)
    ensures AlarmsOf(entries + [e], i) == AlarmsOf(entries, i) + if e.Alarm? && e.monitor == i then [e.direction] else []
  {
    assert (entries + [e])[..|entries|] == entries;
  }

  /** Whatever the level, an error logged and flushed is in the file, right after what was buffered. */
  lemma ErrorLoggedIs(l: L.Log<Entry>, e: Entry) returns (before: seq<Entry>)
    requires l.size > 0
    ensures var l' := ErrorLogged(l, e);
            l'.file == l.file + before + [e] && l'.recent == [] && l'.size == l.size && l'.level == l.level
    ensures forall x | x in before :: x in l.recent
  {
    before := l.recent[if |l.recent| < l.size then 0 else |l.recent| - l.size + 1..];
    if L.Number(L.ERROR) < l.level {
      L.ErrorIsWritten(l.(level := L.Number(L.ERROR)), L.ERROR, e);
    } else {
      L.ErrorIsWritten(l, L.ERROR, e);
      var l1 := L.Logged(l, L.ERROR, e);
      assert l1.file + [] == l1.file;
    }
  }

  /** The alarms of each monitor among some entries are those it emitted. */
  ghost predicate HasAlarms(entries: seq<Entry>, ms: seq<Monitor>)
  {
    forall i: nat :: AlarmsOf(entries, i) == if i < |ms| then ms[i].alarms else []
  }

  /** The program's log: no alarm waits in the ring, and those of a monitor in the file are those it emitted. */
  ghost predicate LogInv(a: Manager)
  {
    a.log.size > 0 && NoAlarms(a.log.recent) && HasAlarms(a.log.file, a.monitors) && HasAlarms(a.lines, a.monitors)
  }

  lemma OtherEntries(entries: seq<Entry>, more: seq<Entry>, ms: seq<Monitor>)
    requires HasAlarms(entries, ms) && NoAlarms(more)
    ensures HasAlarms(entries + more, ms)
  {
    hide AlarmsOf;
    forall i: nat
      ensures AlarmsOf(entries + more, i) == AlarmsOf(entries, i)
    {
      AlarmsOfConcat(entries, more, i);
      NoneOf(more, i);
      assert AlarmsOf(entries, i) + [] == AlarmsOf(entries, i);
    }
  }

  lemma OneMoreAlarm(entries: seq<Entry>, ms: seq<Monitor>, i: nat, m: Monitor, direction: Direction)
    requires HasAlarms(entries, ms) && i < |ms| && m.alarms == ms[i].alarms + [direction]
    ensures HasAlarms(entries + [Alarm(i, direction)], ms[i := m])
  {
    hide AlarmsOf;
    forall k: nat
      ensures AlarmsOf(entries + [Alarm(i, direction)], k) == AlarmsOf(entries, k) + if k == i then [direction] else []
    {
      AlarmsOfSnoc(entries, Alarm(i, direction), k);
    }
    assert forall k: nat :: AlarmsOf(entries, k) + [] == AlarmsOf(entries, k);
  }

  /** A line of the manager's own, short of an error, goes to the file or to the ring. */
  lemma NotedIs(l: L.Log<Entry>, level: L.Level, text: string, ms: seq<Monitor>)
    requires l.size > 0 && NoAlarms(l.recent) && HasAlarms(l.file, ms) && L.Number(level) < L.Number(L.ERROR)
    ensures var l' := Noted(l, level, text); l'.size > 0 && NoAlarms(l'.recent) && HasAlarms(l'.file, ms)
  {
    hide HasAlarms;
    OtherEntries(l.file, [Other(text)], ms);
  }

  lemma {:induction false} CountOnPut(ms: seq<Monitor>, i: nat, m: Monitor)
    requires i < |ms|
    ensures CountOn(ms[i := m]) == CountOn(ms) - (if ms[i].on then 1 else 0) + (if m.on then 1 else 0)
  {
    var front := ms[..|ms| - 1];
    if i == |front| {
      assert ms[i := m][..|front|] == front;
    } else {
      CountOnPut(front, i, m);
      assert ms[i := m][..|front|] == front[i := m];
    }
  }

  lemma CountOnSnoc(ms: seq<Monitor>, m: Monitor)
    ensures CountOn(ms + [m]) == CountOn(ms) + if m.on then 1 else 0
  {
    assert (ms + [m])[..|ms|] == ms;
  }

  /** The counter is the number of monitors in alarm; while there is one the level to go back to is remembered, and while
      there is none it is the current one. */
  predicate ManagerInv(a: Manager, wanted: int)
  {
    && (forall m | m in a.monitors :: BandInv(m) && Alternating(m))
    && a.alarmCounter == CountOn(a.monitors) && DEBUG <= wanted <= FATAL_ERROR
    && (if a.alarmCounter == 0 then a.log.level == wanted else a.originLogLevel == wanted)
  }

  /** The level is DEBUG, and nothing waits in the ring. */
  predicate AllWritten(l: L.Log<Entry>)
  {
    l.level == DEBUG && l.recent == []
  }

  lemma {:induction false} CountOnZero(ms: seq<Monitor>)
    ensures CountOn(ms) == 0 <==> forall m | m in ms :: !m.on
  {
    if ms != [] {
      CountOnZero(ms[..|ms| - 1]);
      assert ms == ms[..|ms| - 1] + [ms[|ms| - 1]];
    }
  }

  lemma PutKeeps(a: Manager, i: nat, m: Monitor, wanted: int)
    requires ManagerInv(a, wanted) && i < |a.monitors| && BandInv(m) && Alternating(m) && m.on == a.monitors[i].on
    ensures ManagerInv(Put(a, i, m), wanted)
  {
    CountOnPut(a.monitors, i, m);
  }

  /** An alarm that appears or disappears moves the counter, and at its ends the level. */
  lemma WatchKeeps(a: Manager, i: nat, value: int, wanted: int)
    requires ManagerInv(a, wanted) && i < |a.monitors|
    ensures ManagerInv(Watch(a, i, value), wanted)
    ensures Watch(a, i, value).alarmCounter > 0 && (a.alarmCounter > 0 ==> AllWritten(a.log)) ==>
              AllWritten(Watch(a, i, value).log)
  {
    hide Evaluated, Alternating, ErrorLogged, Noted;
    LineKeepsLevel();
    var m, m' := a.monitors[i], Evaluated(a.monitors[i], value);
    assert m in a.monitors;
    EvaluatedAlternates(m, value);
    EvaluatedBand(m, value);
    CountOnPut(a.monitors, i, m');
  }

  lemma LineKeepsLevel()
    ensures forall l, e :: ErrorLogged(l, e).level == l.level && ErrorLogged(l, e).recent == []
    ensures forall l, level, text :: Noted(l, level, text).level == l.level
    ensures forall l, level, text :: AllWritten(l) ==> AllWritten(Noted(l, level, text))
  {
  }

  lemma LevelAfter(a: Manager, ev: L.Event<Entry>)
    ensures L.Step(a.log, ev).level == if SetsLevel(Logging(ev)) then LevelSet(Logging(ev)) else a.log.level
    ensures SetsLevel(Logging(ev)) && Possible(Logging(ev)) ==> DEBUG <= LevelSet(Logging(ev)) <= FATAL_ERROR
    ensures !SetsLevel(Logging(ev)) && AllWritten(a.log) ==> AllWritten(L.Step(a.log, ev))
  {
    hide L.ToLogLevel;
  }

  lemma EvaluatedBand(m: Monitor, value: int)
    requires BandInv(m)
    ensures BandInv(Evaluated(m, value))
  {
  }

  lemma StepKeeps(a: Manager, e: Event, wanted: int)
    requires ManagerInv(a, wanted) && Possible(e)
    ensures ManagerInv(Step(a, e), if SetsLevel(e) && a.alarmCounter == 0 then LevelSet(e) else wanted)
    ensures (a.alarmCounter > 0 ==> AllWritten(a.log)) && (a.alarmCounter == 0 || !SetsLevel(e)) && Step(a, e).alarmCounter > 0 ==>
              AllWritten(Step(a, e).log)
  {
    hide Watch, Thresholds, Alternating, BandInv, L.Step, LevelSet;
    match e
    case Add(m) =>
      CountOnSnoc(a.monitors, m);
      AddedAlternates(m);
    case Configure(i, appear, disappear, slope) =>
      if i < |a.monitors| {
        var m := a.monitors[i];
        assert m in a.monitors;
        ThresholdsMakeBand(m, appear, disappear, slope);
        ThresholdsAlternate(m, appear, disappear, slope);
        PutKeeps(a, i, Thresholds(m, appear, disappear, slope), wanted);
      }
    case Validate(i, valid) =>
      if i < |a.monitors| {
        assert a.monitors[i] in a.monitors;
        ValidAlternates(a.monitors[i], valid);
        PutKeeps(a, i, a.monitors[i].(valid := valid), wanted);
      }
    case Update(i, value) =>
      if i < |a.monitors| {
        WatchKeeps(a, i, value, wanted);
      }
    case Logging(ev) => LevelAfter(a, ev);
  }

  lemma AddedAlternates(m: Monitor)
    requires !m.on && m.alarms == []
    ensures Alternating(m)
  {
  }

  lemma ThresholdsAlternate(m: Monitor, appear: int, disappear: int, slope: Slope)
    requires Alternating(m)
    ensures Alternating(Thresholds(m, appear, disappear, slope))
  {
  }

  lemma ValidAlternates(m: Monitor, valid: bool)
    requires Alternating(m) && BandInv(m)
    ensures Alternating(m.(valid := valid)) && BandInv(m.(valid := valid))
  {
  }

  lemma {:induction false} RunKeeps(size: nat, level: int, events: seq<Event>)
    requires DEBUG <= level <= FATAL_ERROR && forall e | e in events :: Possible(e)
    ensures var a := Run(Initial(size, level), events);
            && ManagerInv(a, WantedLevel(Initial(size, level), events))
            && (a.alarmCounter > 0 && Untouched(Initial(size, level), events) ==> AllWritten(a.log))
  {
    hide Step;
    if events != [] {
      var front, last := events[..|events| - 1], events[|events| - 1];
      assert last in events && forall e | e in front :: e in events;
      RunKeeps(size, level, front);
      StepKeeps(Run(Initial(size, level), front), last, WantedLevel(Initial(size, level), front));
    }
  }

  /** Over any run: the counter is the number of monitors in alarm, and each monitor's alarms alternate from `Appear` on. */
  lemma AlarmAccounting(size: nat, level: int, events: seq<Event>, i: nat)
    requires DEBUG <= level <= FATAL_ERROR && forall e | e in events :: Possible(e)
    ensures var a := Run(Initial(size, level), events);
            a.alarmCounter == CountOn(a.monitors) && (i < |a.monitors| ==> Alternating(a.monitors[i]))
  {
    RunKeeps(size, level, events);
    var a := Run(Initial(size, level), events);
    if i < |a.monitors| {
      assert a.monitors[i] in a.monitors;
    }
  }

  /** While a monitor is in alarm the level is DEBUG and nothing waits in the ring, unless somebody set the level since; and
      whenever none is, it is the level last set while none was, so a change during an alarm does not last. */
  lemma LevelRaisedAndRestored(size: nat, level: int, events: seq<Event>)
    requires DEBUG <= level <= FATAL_ERROR && forall e | e in events :: Possible(e)
    ensures var a := Run(Initial(size, level), events);
            if forall m | m in a.monitors :: !m.on then a.log.level == WantedLevel(Initial(size, level), events)
            else Untouched(Initial(size, level), events) ==> AllWritten(a.log)
  {
    RunKeeps(size, level, events);
    CountOnZero(Run(Initial(size, level), events).monitors);
  }

  lemma {:induction false} NobodySets(size: nat, level: int, events: seq<Event>)
    requires forall e | e in events :: !SetsLevel(e)
    ensures WantedLevel(Initial(size, level), events) == level
    ensures Run(Initial(size, level), events).alarmCounter > 0 ==> Untouched(Initial(size, level), events)
  {
    if events != [] {
      assert events[|events| - 1] in events && forall e | e in events[..|events| - 1] :: e in events;
      NobodySets(size, level, events[..|events| - 1]);
    }
  }

  /** Without changes from outside: DEBUG, with nothing waiting, while a monitor is in alarm, and the level of the start
      while none is. */
  lemma NobodyInterferes(size: nat, level: int, events: seq<Event>)
    requires DEBUG <= level <= FATAL_ERROR && forall e | e in events :: Possible(e) && !SetsLevel(e)
    ensures var a := Run(Initial(size, level), events);
            if exists m | m in a.monitors :: m.on then AllWritten(a.log) else a.log.level == level
  {
    RunKeeps(size, level, events);
    NobodySets(size, level, events);
    CountOnZero(Run(Initial(size, level), events).monitors);
  }

  lemma WatchLogs(a: Manager, i: nat, value: int)
    requires LogInv(a) && i < |a.monitors|
    ensures LogInv(Watch(a, i, value))
  {
    hide HasAlarms, ErrorLogged, Noted;
    var m, m' := a.monitors[i], Evaluated(a.monitors[i], value);
    var a1 := a.(lines := a.lines + [Reading(i, value)], log := Noted(a.log, L.DEBUG, "reading"));
    OtherEntries(a.lines, [Reading(i, value)], a.monitors);
    NotedIs(a.log, L.DEBUG, "reading", a.monitors);
    if m'.on != m.on {
      SlotAlarmLogs(a1, i, m', if m'.on then Appear else Disappear);
    }
  }

  /** A monitor emits an alarm: it is written to both files. */
  lemma SlotAlarmLogs(a: Manager, i: nat, m: Monitor, direction: Direction)
    requires LogInv(a) && i < |a.monitors| && m.alarms == a.monitors[i].alarms + [direction]
    ensures LogInv(SlotAlarm(Put(a, i, m), i, direction))
  {
    hide HasAlarms, ErrorLogged, Noted;
    OneMoreAlarm(a.lines, a.monitors, i, m, direction);
    var warned := Noted(a.log, L.WARNING, "alarm");
    NotedIs(a.log, L.WARNING, "alarm", a.monitors);
    NotedIs(warned.(level := DEBUG), L.WARNING, "raised", a.monitors);
    NotedIs(warned.(level := a.originLogLevel), L.WARNING, "restored", a.monitors);
    AlarmLogged(warned, a.monitors, i, m, direction);
    AlarmLogged(LevelChanged(warned, DEBUG, "raised"), a.monitors, i, m, direction);
    AlarmLogged(LevelChanged(warned, a.originLogLevel, "restored"), a.monitors, i, m, direction);
  }

  lemma AlarmLogged(l: L.Log<Entry>, ms: seq<Monitor>, i: nat, m: Monitor, direction: Direction)
    requires l.size > 0 && NoAlarms(l.recent) && HasAlarms(l.file, ms) && i < |ms| && m.alarms == ms[i].alarms + [direction]
    ensures var l' := ErrorLogged(l, Alarm(i, direction));
            l'.size > 0 && l'.recent == [] && HasAlarms(l'.file, ms[i := m])
  {
    hide HasAlarms, ErrorLogged;
    var before := ErrorLoggedIs(l, Alarm(i, direction));
    OtherEntries(l.file, before, ms);
    OneMoreAlarm(l.file + before, ms, i, m, direction);
  }

  /** Other entries leave no alarm behind, neither in the ring nor in the file. */
  lemma LoggingLogs(a: Manager, ev: L.Event<Entry>) returns (more: seq<Entry>)
    requires LogInv(a) && Possible(Logging(ev))
    ensures var l := L.Step(a.log, ev); l.size > 0 && NoAlarms(l.recent) && l.file == a.log.file + more && NoAlarms(more)
  {
    hide L.ToLogLevel, AlarmsOf;
    var l := a.log;
    match ev
    case Entered(levelName, entry) =>
      var level := L.ToLogLevel(levelName);
      if level.None? || L.Number(level.value) < l.level {
        more := [];
      } else if level.value == L.ERROR || level.value == L.FATAL_ERROR {
        more := L.Buffered(L.Inserted(l, entry));
      } else {
        more := [entry];
      }
      assert l.file + [] == l.file;
    case Flush => more := L.Buffered(l);
    case _ =>
      more := [];
      assert l.file + [] == l.file;
  }

  lemma StepLogs(a: Manager, e: Event)
    requires LogInv(a) && Possible(e)
    ensures LogInv(Step(a, e))
  {
    hide AlarmsOf, Watch, L.Step, Thresholds;
    match e
    case Add(m) =>
    case Configure(i, appear, disappear, slope) =>
      if i < |a.monitors| {
        ThresholdsKeepAlarms(a.monitors[i], appear, disappear, slope);
      }
    case Validate(i, valid) =>
    case Update(i, value) => if i < |a.monitors| { WatchLogs(a, i, value); }
    case Logging(ev) =>
      var more := LoggingLogs(a, ev);
      OtherEntries(a.log.file, more, a.monitors);
  }

  lemma ThresholdsKeepAlarms(m: Monitor, appear: int, disappear: int, slope: Slope)
    ensures Thresholds(m, appear, disappear, slope).alarms == m.alarms
  {
  }

  lemma {:induction false} RunLogs(size: nat, level: int, events: seq<Event>)
    requires size > 0 && forall e | e in events :: Possible(e)
    ensures LogInv(Run(Initial(size, level), events))
  {
    hide Step, LogInv;
    if events == [] {
      NothingLogged(size, level);
    } else {
      var front, last := events[..|events| - 1], events[|events| - 1];
      assert last in events && forall e | e in front :: e in events;
      RunLogs(size, level, front);
      StepLogs(Run(Initial(size, level), front), last);
    }
  }

  lemma NothingLogged(size: nat, level: int)
    requires size > 0
    ensures LogInv(Initial(size, level))
  {
  }

  /** Whatever the level and whatever else is logged: every alarm a monitor emitted is in both files, in order, and no other;
      none waits in the ring or is lost. */
  lemma EveryAlarmWritten(size: nat, level: int, events: seq<Event>, i: nat)
    requires size > 0 && forall e | e in events :: Possible(e)
    ensures var a := Run(Initial(size, level), events);
            && NoAlarms(a.log.recent)
            && (i < |a.monitors| ==> AlarmsOf(a.log.file, i) == AlarmsOf(a.lines, i) == a.monitors[i].alarms)
            && (i >= |a.monitors| ==> AlarmsOf(a.log.file, i) == AlarmsOf(a.lines, i) == [])
  {
    hide AlarmsOf, Run;
    RunLogs(size, level, events);
  }

  // ---------------------------------------------------------------- the reference: a monitor read off the events

  /** What a monitor is set to, and whether its alarm is on. */
  datatype Watched = Watched(appear: int, disappear: int, slope: Slope, valid: bool, on: bool)

  /** A disappearance threshold that is missing or beyond that of the appearance is the same as that. */
  function SetTo(w: Watched, appear: int, disappear: int, slope: Slope): Watched
  {
    var d := if disappear == 0x7FFF_FFFF_FFFF_FFFF then appear else disappear;
    Watched(appear,
            match slope case NoSlope => d case Rising => (if d < appear then d else appear) case Falling => if appear < d then d else appear,
            slope, w.valid, w.on)
  }

  /** Beyond the threshold of the appearance the alarm is on, beyond that of the disappearance it is off, between them it
      stays; a monitor without valid values or without a slope does nothing. */
  function Read(w: Watched, value: int): Watched
  {
    if !w.valid then w
    else
      match w.slope
      case NoSlope => w
      case Rising => if value > w.appear then w.(on := true) else if value < w.disappear then w.(on := false) else w
      case Falling => if value < w.appear then w.(on := true) else if value > w.disappear then w.(on := false) else w
  }

  function Added(events: seq<Event>): nat
  {
    if events == [] then 0 else Added(events[..|events| - 1]) + if events[|events| - 1].Add? then 1 else 0
  }

  /** The `i`-th monitor added, after all events. */
  function WatchedIn(events: seq<Event>, i: nat): Watched
    requires i < Added(events)
  {
    var front, last := events[..|events| - 1], events[|events| - 1];
    if i >= Added(front) then var m := last.monitor; Watched(m.appear, m.disappear, m.slope, m.valid, m.on)
    else
      var w := WatchedIn(front, i);
      match last
      case Configure(j, appear, disappear, slope) => if j == i then SetTo(w, appear, disappear, slope) else w
      case Validate(j, valid) => if j == i then w.(valid := valid) else w
      case Update(j, value) => if j == i then Read(w, value) else w
      case _ => w
  }

  predicate LooksAs(m: Monitor, w: Watched)
  {
    w == Watched(m.appear, m.disappear, m.slope, m.valid, m.on)
  }

  lemma ThresholdsLook(m: Monitor, w: Watched, appear: int, disappear: int, slope: Slope)
    requires LooksAs(m, w)
    ensures LooksAs(Thresholds(m, appear, disappear, slope), SetTo(w, appear, disappear, slope))
  {
  }

  lemma EvaluatedLooks(m: Monitor, w: Watched, value: int)
    requires LooksAs(m, w) && BandInv(m)
    ensures LooksAs(Evaluated(m, value), Read(w, value))
  {
  }

  lemma WatchMonitors(a: Manager, i: nat, value: int)
    requires i < |a.monitors|
    ensures LooksAs(Watch(a, i, value).monitors[i], var m := Evaluated(a.monitors[i], value); Watched(m.appear, m.disappear, m.slope, m.valid, m.on))
    ensures |Watch(a, i, value).monitors| == |a.monitors|
    ensures forall k | 0 <= k < |a.monitors| && k != i :: Watch(a, i, value).monitors[k] == a.monitors[k]
    ensures Watch(a, i, value).lines
         == a.lines + [Reading(i, value)]
            + var on := Evaluated(a.monitors[i], value).on;
              if on == a.monitors[i].on then [] else [Alarm(i, if on then Appear else Disappear)]
  {
    assert a.lines + [Reading(i, value)] + [] == a.lines + [Reading(i, value)];
  }

  /** Over any run: there are as many monitors as were added, and each is set to what was configured, in the state its values
      say. */
  lemma {:induction false} MonitorsAreAsWatched(size: nat, level: int, events: seq<Event>, i: nat)
    requires DEBUG <= level <= FATAL_ERROR && forall e | e in events :: Possible(e)
    ensures var a := Run(Initial(size, level), events);
            |a.monitors| == Added(events) && (i < Added(events) ==> LooksAs(a.monitors[i], WatchedIn(events, i)))
  {
    hide Thresholds, Evaluated, Watch, SetTo, Read, L.Step, LooksAs;
    if events != [] {
      var front, last := events[..|events| - 1], events[|events| - 1];
      assert last in events && forall e | e in front :: e in events;
      MonitorsAreAsWatched(size, level, front, i);
      RunKeeps(size, level, front);
      var a := Run(Initial(size, level), front);
      if i < Added(front) {
        assert a.monitors[i] in a.monitors;
        MonitorStep(a, last, i, WatchedIn(front, i));
      } else if last.Add? {
        assert LooksAs(last.monitor, Watched(last.monitor.appear, last.monitor.disappear, last.monitor.slope, last.monitor.valid, last.monitor.on)) by {
          LooksLike(last.monitor);
        }
      }
      MonitorCount(a, last);
    }
  }

  lemma LooksLike(m: Monitor)
    ensures LooksAs(m, Watched(m.appear, m.disappear, m.slope, m.valid, m.on))
  {
  }

  lemma MonitorCount(a: Manager, e: Event)
    ensures |Step(a, e).monitors| == |a.monitors| + if e.Add? then 1 else 0
  {
    hide Watch, Thresholds, L.Step;
    if e.Update? && e.i < |a.monitors| {
      WatchMonitors(a, e.i, e.value);
    }
  }

  lemma MonitorStep(a: Manager, e: Event, i: nat, w: Watched)
    requires i < |a.monitors| && LooksAs(a.monitors[i], w) && BandInv(a.monitors[i])
    ensures i < |Step(a, e).monitors|
    ensures LooksAs(Step(a, e).monitors[i],
                    match e
                    case Configure(j, appear, disappear, slope) => if j == i then SetTo(w, appear, disappear, slope) else w
                    case Validate(j, valid) => if j == i then w.(valid := valid) else w
                    case Update(j, value) => if j == i then Read(w, value) else w
                    case _ => w)
  {
    hide Watch, Thresholds, Evaluated, Read, SetTo, L.Step;
    match e
    case Configure(j, appear, disappear, slope) => ThresholdsLook(a.monitors[i], w, appear, disappear, slope);
    case Update(j, value) =>
      if j < |a.monitors| {
        WatchMonitors(a, j, value);
        EvaluatedLooks(a.monitors[i], w, value);
      }
    case _ =>
  }

  /** The lines of the manager's own file, read off the events: every value, and after it the alarm if the state changed. */
  function LinesIn(events: seq<Event>): seq<Entry>
  {
    if events == [] then []
    else
      var front, last := events[..|events| - 1], events[|events| - 1];
      LinesIn(front)
      + if !last.Update? || last.i >= Added(front) then []
        else
          var before, after := WatchedIn(front, last.i).on, Read(WatchedIn(front, last.i), last.value).on;
          [Reading(last.i, last.value)] + if before == after then [] else [Alarm(last.i, if after then Appear else Disappear)]
  }

  lemma {:induction false} LinesAre(size: nat, level: int, events: seq<Event>)
    requires DEBUG <= level <= FATAL_ERROR && forall e | e in events :: Possible(e)
    ensures Run(Initial(size, level), events).lines == LinesIn(events)
  {
    hide Watch, Evaluated, Read, L.Step, Thresholds, WatchedIn;
    if events != [] {
      var front, last := events[..|events| - 1], events[|events| - 1];
      assert last in events && forall e | e in front :: e in events;
      LinesAre(size, level, front);
      RunKeeps(size, level, front);
      var a := Run(Initial(size, level), front);
      MonitorsAreAsWatched(size, level, front, if last.Update? then last.i else 0);
      assert LinesIn(front) + [] == LinesIn(front);
      if last.Update? && last.i < Added(front) {
        assert a.monitors[last.i] in a.monitors;
        WatchMonitors(a, last.i, last.value);
        EvaluatedLooks(a.monitors[last.i], WatchedIn(front, last.i), last.value);
      }
    }
  }

  /** What one event does to the log of the program: the lines of the manager, the level raised with the first alarm and set
      back to `wanted` after the last, and the alarm, which is flushed out. */
  function LogEvents(e: Event, before: seq<Monitor>, after: seq<Monitor>, wanted: int): seq<L.Event<Entry>>
    requires |before| <= |after|
  {
    match e
    case Logging(ev) => [ev]
    case Update(i, value) =>
      if i >= |before| then []
      else
        [L.Entered("Debug", Other("reading"))]
        + if before[i].on == after[i].on then []
          else
            [L.Entered("Warning", Other("alarm"))]
            + (if after[i].on && CountOn(after) == 1 then [L.SetLevel(0), L.Entered("Warning", Other("raised"))]
               else if CountOn(after) == 0 then [L.SetLevel(wanted), L.Entered("Warning", Other("restored"))]
               else [])
            + [L.Entered("Error", Alarm(i, if after[i].on then Appear else Disappear)), L.Flush]
    case _ => []
  }

  /** All that reaches the log of the program over a run. */
  function LogEventsIn(size: nat, level: int, events: seq<Event>): seq<L.Event<Entry>>
    requires forall e | e in events :: Possible(e)
  {
    if events == [] then []
    else
      var front, last := events[..|events| - 1], events[|events| - 1];
      assert forall e | e in front :: e in events;
      var a, a' := Run(Initial(size, level), front), Run(Initial(size, level), events);
      MonitorCount(a, last);
      LogEventsIn(size, level, front) + LogEvents(last, a.monitors, a'.monitors, WantedLevel(Initial(size, level), front))
  }

  lemma {:induction false} LogRunConcat(l: L.Log<Entry>, a: seq<L.Event<Entry>>, b: seq<L.Event<Entry>>)
    ensures L.Run(l, a + b) == L.Run(L.Run(l, a), b)
    decreases |b|
  {
    hide L.Step;
    if b == [] {
      assert a + b == a;
    } else {
      var front, last := b[..|b| - 1], b[|b| - 1];
      assert (a + b)[..|a + b| - 1] == a + front && (a + b)[|a + b| - 1] == last;
      LogRunConcat(l, a, front);
    }
  }

  lemma LogOne(l: L.Log<Entry>, ev: L.Event<Entry>)
    ensures L.Run(l, [ev]) == L.Step(l, ev) && L.Run(l, []) == l
  {
    assert [ev][..0] == [];
  }

  lemma LogTwo(l: L.Log<Entry>, e1: L.Event<Entry>, e2: L.Event<Entry>)
    ensures L.Run(l, [e1, e2]) == L.Step(L.Step(l, e1), e2)
  {
    LogOne(l, e1);
    assert [e1, e2][..1] == [e1];
  }

  /** The names of the levels are those the log knows. */
  lemma LevelNames()
    ensures L.ToLogLevel("Debug") == L.Some(L.DEBUG) && L.ToLogLevel("Warning") == L.Some(L.WARNING)
    ensures L.ToLogLevel("Error") == L.Some(L.ERROR)
  {
  }

  lemma SlotAlarmLogsAs(a: Manager, i: nat, direction: Direction, wanted: int)
    requires a.alarmCounter > 0 ==> a.originLogLevel == wanted
    requires a.alarmCounter >= 0 && (direction == Disappear ==> a.alarmCounter > 0) && DEBUG <= wanted
    ensures var a' := SlotAlarm(a, i, direction);
            a'.log == L.Run(a.log,
              [L.Entered("Warning", Other("alarm"))]
              + (if direction == Appear && a'.alarmCounter == 1 then [L.SetLevel(0), L.Entered("Warning", Other("raised"))]
                 else if a'.alarmCounter == 0 then [L.SetLevel(wanted), L.Entered("Warning", Other("restored"))]
                 else [])
              + [L.Entered("Error", Alarm(i, direction)), L.Flush])
  {
    hide L.Logged, L.Flushed, L.ToLogLevel;
    LevelNames();
    var a' := SlotAlarm(a, i, direction);
    var e1 := [L.Entered("Warning", Other("alarm"))];
    var e2 := if direction == Appear && a'.alarmCounter == 1 then [L.SetLevel(0), L.Entered("Warning", Other("raised"))]
              else if a'.alarmCounter == 0 then [L.SetLevel(wanted), L.Entered("Warning", Other("restored"))]
              else [];
    var e3 := [L.Entered("Error", Alarm(i, direction)), L.Flush];
    LogRunConcat(a.log, e1 + e2, e3);
    LogRunConcat(a.log, e1, e2);
    LogOne(a.log, e1[0]);
    var l1 := Noted(a.log, L.WARNING, "alarm");
    LogOne(l1, L.Flush);
    LogTwo(l1, L.SetLevel(0), L.Entered("Warning", Other("raised")));
    LogTwo(l1, L.SetLevel(wanted), L.Entered("Warning", Other("restored")));
    LogTwo(L.Run(l1, e2), L.Entered("Error", Alarm(i, direction)), L.Flush);
  }

  lemma StepLogsAs(a: Manager, e: Event, wanted: int)
    requires ManagerInv(a, wanted) && Possible(e)
    ensures |Step(a, e).monitors| >= |a.monitors|
    ensures Step(a, e).log == L.Run(a.log, LogEvents(e, a.monitors, Step(a, e).monitors, wanted))
  {
    hide SlotAlarm, Evaluated, L.Logged, L.ToLogLevel, L.Flushed, L.Configured, Thresholds, Alternating;
    MonitorCount(a, e);
    LogOne(a.log, L.Flush);
    match e
    case Logging(ev) => LogOne(a.log, ev);
    case Update(i, value) =>
      if i < |a.monitors| {
        LevelNames();
        var reading := L.Entered("Debug", Other("reading"));
        LogOne(a.log, reading);
        var m, m' := a.monitors[i], Evaluated(a.monitors[i], value);
        assert m in a.monitors;
        EvaluatedAlternates(m, value);
        CountOnPut(a.monitors, i, m');
        if m'.on != m.on {
          var direction := if m'.on then Appear else Disappear;
          var a1 := Put(a.(lines := a.lines + [Reading(i, value)], log := Noted(a.log, L.DEBUG, "reading")), i, m');
          SlotAlarmLogsAs(a1, i, direction, wanted);
          AlarmCounted(a1, i, direction);
          LogRunConcat(a.log, [reading], LogEvents(e, a.monitors, Step(a, e).monitors, wanted)[1..]);
        }
      }
    case _ =>
  }

  lemma AlarmCounted(a: Manager, i: nat, direction: Direction)
    ensures SlotAlarm(a, i, direction).alarmCounter == a.alarmCounter + (if direction == Appear then 1 else -1)
    ensures SlotAlarm(a, i, direction).monitors == a.monitors
  {
  }

  /** Over any run the log of the program is that of a log handler to which exactly these entries, levels and flushes came; so
      all that holds of the log handler holds of it. */
  lemma {:induction false} LogIsRun(size: nat, level: int, events: seq<Event>)
    requires DEBUG <= level <= FATAL_ERROR && forall e | e in events :: Possible(e)
    ensures Run(Initial(size, level), events).log == L.Run(L.Log(size, level, [], [], [], []), LogEventsIn(size, level, events))
  {
    hide Step, L.Step, LogEvents;
    if events != [] {
      var front, last := events[..|events| - 1], events[|events| - 1];
      assert last in events && forall e | e in front :: e in events;
      LogIsRun(size, level, front);
      RunKeeps(size, level, front);
      var a, a' := Run(Initial(size, level), front), Run(Initial(size, level), events);
      StepLogsAs(a, last, WantedLevel(Initial(size, level), front));
      LogRunConcat(L.Log(size, level, [], [], [], []), LogEventsIn(size, level, front),
                   LogEvents(last, a.monitors, a'.monitors, WantedLevel(Initial(size, level), front)));
    }
  }

  /** One round of the timer: every monitor in turn, with its value. */
  function Round(a: Manager, values: seq<int>): (a': Manager)
    requires |values| <= |a.monitors|
    ensures |a'.monitors| == |a.monitors|
  {
    if values == [] then a.(log := Noted(a.log, L.DEBUG, "timer"))
    else Watch(Round(a, values[..|values| - 1]), |values| - 1, values[|values| - 1])
  }

  /** The events of a round: the timer's own line, and one update after the other. */
  function RoundEvents(values: seq<int>): seq<Event>
  {
    if values == [] then [Logging(L.Entered("Debug", Other("timer")))]
    else RoundEvents(values[..|values| - 1]) + [Update(|values| - 1, values[|values| - 1])]
  }

  /** A round of the timer is a part of a run; so what holds over all runs holds over all rounds. */
  lemma {:induction false} RoundIsRun(a: Manager, events: seq<Event>, values: seq<int>)
    requires |values| <= |Run(a, events).monitors|
    ensures Round(Run(a, events), values) == Run(a, events + RoundEvents(values))
    ensures forall e | e in RoundEvents(values) :: Possible(e) && !SetsLevel(e)
  {
    hide Watch;
    if values == [] {
      var timer := Logging(L.Entered("Debug", Other("timer")));
      assert (events + [timer])[..|events|] == events;
      assert L.ToLogLevel("Debug") == L.Some(L.DEBUG) by { LevelNames(); }
    } else {
      var front, k := values[..|values| - 1], |values| - 1;
      RoundIsRun(a, events, front);
      var all := events + RoundEvents(values);
      assert all[..|all| - 1] == events + RoundEvents(front) && all[|all| - 1] == Update(k, values[k]);
    }
  }
}

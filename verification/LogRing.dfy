/** The log: entries below the level wait in a ring, and an error writes out the last of them. */
module LogRing {
  import opened Bytes

  const DEFAULT_SIZE := 64

  datatype Level = DEBUG | INFO | WARNING | ERROR | FATAL_ERROR

  function Number(l: Level): int
  {
    match l case DEBUG => 0 case INFO => 1 case WARNING => 2 case ERROR => 3 case FATAL_ERROR => 4
  }

  datatype Option<T> = None | Some(value: T)

  function ToLogLevel(name: string): Option<Level>
  {
    if name == "Fatal Error" then Some(FATAL_ERROR)
    else if name == "Error" then Some(ERROR)
    else if name == "Warning" then Some(WARNING)
    else if name == "Info" then Some(INFO)
    else if name == "Debug" then Some(DEBUG)
    else None
  }

  /** The log without the ring: `recent` are the entries buffered since the buffer was last emptied; of these only the last
      `size` still count. `file` is what was written, `overwritten` and `dropped` what was lost before. */
  datatype Log<E> = Log(size: nat, level: int, recent: seq<E>, file: seq<E>, overwritten: seq<E>, dropped: seq<E>)

  /** How many of the recent entries are already overwritten. */
  function Gone<E>(l: Log<E>): nat
  {
    if |l.recent| <= l.size then 0 else |l.recent| - l.size
  }

  function Buffered<E>(l: Log<E>): seq<E>
  {
    l.recent[Gone(l)..]
  }

  function Flushed<E>(l: Log<E>): Log<E>
  {
    l.(recent := [], file := l.file + Buffered(l), overwritten := l.overwritten + l.recent[..Gone(l)])
  }

  function Inserted<E>(l: Log<E>, e: E): Log<E>
  {
    l.(recent := l.recent + [e])
  }

  /** An entry below the level waits; an error or worse flushes the buffer with itself as the last; the rest is written at
      once, ahead of what waits. */
  function Logged<E>(l: Log<E>, level: Level, e: E): Log<E>
  {
    if Number(level) < l.level then Inserted(l, e)
    else if level == ERROR || level == FATAL_ERROR then Flushed(Inserted(l, e))
    else l.(file := l.file + [e])
  }

  function Resized<E>(l: Log<E>, size: nat): Log<E>
  {
    l.(size := size, recent := [], overwritten := l.overwritten + l.recent[..Gone(l)], dropped := l.dropped + Buffered(l))
  }

  /** The configuration changed; size 0 stands for one that cannot be read, and always empties the buffer. */
  function Configured<E>(l: Log<E>, size: nat, levelName: string): Log<E>
  {
    var l1 := if size == 0 then Resized(l, DEFAULT_SIZE) else if size != l.size then Resized(l, size) else l;
    var level := if levelName == "" then Some(INFO) else ToLogLevel(levelName);
    if level.Some? then l1.(level := Number(level.value)) else l1
  }

  datatype Event<E> = Entered(levelName: string, entry: E) | Flush | Configure(size: nat, levelName: string) | SetLevel(level: int)

  function Step<E>(l: Log<E>, ev: Event<E>): Log<E>
  {
    match ev
    case Entered(levelName, entry) =>
      var level := ToLogLevel(levelName);
      if level.Some? then Logged(l, level.value, entry) else l
    case Flush => Flushed(l)
    case Configure(size, levelName) => Configured(l, size, levelName)
    case SetLevel(level) => l.(level := level)
  }

  function Run<E>(l: Log<E>, events: seq<Event<E>>): Log<E>
  {
    if events == [] then l else Step(Run(l, events[..|events| - 1]), events[|events| - 1])
  }

  /** The entries with a level the log knows. */
  function Accepted<E>(events: seq<Event<E>>): seq<E>
  {
    if events == [] then []
    else
      var last := events[|events| - 1];
      Accepted(events[..|events| - 1]) + if last.Entered? && ToLogLevel(last.levelName).Some? then [last.entry] else []
  }

  function Places<E>(l: Log<E>): multiset<E>
  {
    multiset(l.file) + multiset(l.recent) + multiset(l.overwritten) + multiset(l.dropped)
  }

  lemma SplitCount<E>(s: seq<E>, k: nat)
    requires k <= |s|
    ensures multiset(s) == multiset(s[..k]) + multiset(s[k..])
  {
    assert s == s[..k] + s[k..];
  }

  lemma FlushedPlaces<E>(l: Log<E>)
    ensures Places(Flushed(l)) == Places(l)
  {
    SplitCount(l.recent, Gone(l));
  }

  lemma ResizedPlaces<E>(l: Log<E>, size: nat)
    ensures Places(Resized(l, size)) == Places(l)
  {
    SplitCount(l.recent, Gone(l));
  }

  lemma InsertedPlaces<E>(l: Log<E>, e: E)
    ensures Places(Inserted(l, e)) == Places(l) + multiset{e}
  {
    assert multiset(l.recent + [e]) == multiset(l.recent) + multiset{e};
  }

  lemma LoggedPlaces<E>(l: Log<E>, level: Level, e: E)
    ensures Places(Logged(l, level, e)) == Places(l) + multiset{e}
  {
    hide Flushed, Inserted;
    InsertedPlaces(l, e);
    FlushedPlaces(Inserted(l, e));
    assert multiset(l.file + [e]) == multiset(l.file) + multiset{e};
  }

  lemma StepPlaces<E>(l: Log<E>, ev: Event<E>)
    ensures Places(Step(l, ev))
         == Places(l) + if ev.Entered? && ToLogLevel(ev.levelName).Some? then multiset{ev.entry} else multiset{}
  {
    hide Resized, Logged, Flushed;
    match ev
    case Entered(levelName, entry) =>
      if ToLogLevel(levelName).Some? {
        LoggedPlaces(l, ToLogLevel(levelName).value, entry);
      }
    case Flush => FlushedPlaces(l);
    case Configure(size, levelName) =>
      ResizedPlaces(l, DEFAULT_SIZE);
      ResizedPlaces(l, size);
    case SetLevel(level) =>
  }

  lemma {:induction false} RunPlaces<E>(l: Log<E>, events: seq<Event<E>>)
    ensures Places(Run(l, events)) == Places(l) + multiset(Accepted(events))
  {
    hide Step, Places;
    if events != [] {
      var front, last := events[..|events| - 1], events[|events| - 1];
      RunPlaces(l, front);
      StepPlaces(Run(l, front), last);
    }
  }

  /** The four places of an entry. */
  lemma PlacesAre<E>(l: Log<E>)
    ensures Places(l) == multiset(l.file) + multiset(Buffered(l)) + multiset(l.overwritten + l.recent[..Gone(l)]) + multiset(l.dropped)
  {
    SplitCount(l.recent, Gone(l));
    var f, b, g, o, d := multiset(l.file), multiset(Buffered(l)), multiset(l.recent[..Gone(l)]), multiset(l.overwritten), multiset(l.dropped);
    assert multiset(l.overwritten + l.recent[..Gone(l)]) == o + g;
    Rearrange(f, b, g, o, d);
  }

  lemma Rearrange<E>(f: multiset<E>, b: multiset<E>, g: multiset<E>, o: multiset<E>, d: multiset<E>)
    ensures f + (g + b) + o + d == f + b + (o + g) + d
  {
  }

  /** Every entry accepted is, at all times, in exactly one place: written, buffered, overwritten or dropped. */
  lemma NothingUnaccounted<E>(size: nat, level: int, events: seq<Event<E>>)
    ensures var l := Run(Log(size, level, [], [], [], []), events);
            multiset(Accepted(events)) ==
            multiset(l.file) + multiset(Buffered(l)) + multiset(l.overwritten + l.recent[..Gone(l)]) + multiset(l.dropped)
  {
    hide Run;
    var l0: Log<E> := Log(size, level, [], [], [], []);
    RunPlaces(l0, events);
    PlacesAre(Run(l0, events));
    assert Places(l0) == multiset{};
  }

  /** An error at or above the level is in the file at once, as the last entry, right after the entries buffered before it:
      as many of the latest as fit. */
  lemma ErrorIsWritten<E>(l: Log<E>, level: Level, e: E)
    requires l.size > 0 && (level == ERROR || level == FATAL_ERROR) && l.level <= Number(level)
    ensures var l' := Logged(l, level, e);
            var before := l.recent[if |l.recent| < l.size then 0 else |l.recent| - l.size + 1..];
            l'.recent == [] && l'.file == l.file + before + [e]
  {
    var all := l.recent + [e];
    var gone := Gone(Inserted(l, e));
    assert all[gone..] == l.recent[gone..] + [e];
    AppendTwo(l.file, l.recent[gone..], [e]);
  }

  // ---------------------------------------------------------------- which entries reach the file, at any level

  const NAMES := ["Debug", "Info", "Warning", "Error", "Fatal Error"]

  /** The rank of a level by its name, from 0 for "Debug" to 4 for "Fatal Error"; -1 for any other name. */
  function Rank(name: string): (r: int)
    ensures -1 <= r < |NAMES| && (r >= 0 ==> NAMES[r] == name) && (r == -1 ==> name !in NAMES)
  {
    if name == NAMES[0] then 0 else if name == NAMES[1] then 1 else if name == NAMES[2] then 2
    else if name == NAMES[3] then 3 else if name == NAMES[4] then 4 else -1
  }

  lemma RankIsLevel(name: string)
    ensures ToLogLevel(name).None? <==> Rank(name) == -1
    ensures ToLogLevel(name).Some? ==>
              var l := ToLogLevel(name).value; Number(l) == Rank(name) && (l == ERROR || l == FATAL_ERROR <==> Rank(name) >= 3)
  {
    assert |"Error"| == 5 && |"Debug"| == 5 && "Error"[0] == 'E' && "Debug"[0] == 'D';
    assert |"Info"| == 4 && |"Warning"| == 7 && |"Fatal Error"| == 11;
  }

  /** The entries of at least the given level. */
  function AtLeast<E>(events: seq<Event<E>>, level: int): seq<E>
  {
    if events == [] then []
    else
      var last := events[|events| - 1];
      AtLeast(events[..|events| - 1], level)
      + if last.Entered? && Rank(last.levelName) >= 0 && Rank(last.levelName) >= level then [last.entry] else []
  }

  /** The entries below the given level. */
  function Below<E>(events: seq<Event<E>>, level: int): seq<E>
  {
    if events == [] then []
    else
      var last := events[|events| - 1];
      Below(events[..|events| - 1], level)
      + if last.Entered? && 0 <= Rank(last.levelName) < level then [last.entry] else []
  }

  /** An entry that is no error, or is one below the level. */
  predicate Plain<E>(ev: Event<E>, level: int)
  {
    ev.Entered? && (Rank(ev.levelName) < 3 || Rank(ev.levelName) < level)
  }

  /** The last `n` of `s`, or all when they are fewer. */
  function LastOf<E>(s: seq<E>, n: nat): seq<E>
  {
    if |s| <= n then s else s[|s| - n..]
  }

  lemma PlainStep<E>(l: Log<E>, ev: Event<E>)
    requires Plain(ev, l.level)
    ensures var r := Rank(ev.levelName);
            Step(l, ev) == l.(file := l.file + (if r >= 0 && r >= l.level then [ev.entry] else []),
                              recent := l.recent + if 0 <= r < l.level then [ev.entry] else [])
  {
    hide ToLogLevel, Rank;
    RankIsLevel(ev.levelName);
    assert l.file + [] == l.file && l.recent + [] == l.recent;
  }

  lemma NothingEntered<E>(l: Log<E>)
    ensures Run(l, []) == l.(file := l.file + AtLeast([], l.level), recent := l.recent + Below([], l.level))
  {
    assert l.file + [] == l.file && l.recent + [] == l.recent;
  }

  /** At any level, over any run of entries: those of at least the level are in the file at once, in order, and those below it
      wait, in order. */
  lemma {:induction false} WrittenOrWaiting<E>(l: Log<E>, events: seq<Event<E>>)
    requires forall ev | ev in events :: Plain(ev, l.level)
    ensures Run(l, events) == l.(file := l.file + AtLeast(events, l.level), recent := l.recent + Below(events, l.level))
  {
    hide Step, Rank;
    if events == [] {
      NothingEntered(l);
    } else {
      var front, last := events[..|events| - 1], events[|events| - 1];
      assert last in events && forall ev | ev in front :: ev in events;
      WrittenOrWaiting(l, front);
      PlainStep(Run(l, front), last);
      var r := Rank(last.levelName);
      AppendTwo(l.file, AtLeast(front, l.level), if r >= 0 && r >= l.level then [last.entry] else []);
      AppendTwo(l.recent, Below(front, l.level), if 0 <= r < l.level then [last.entry] else []);
    }
  }

  /** What ends the waiting: an error that is not below the level brings the last of those waiting into the file, itself
      included, oldest first; so does a flush, and a new size loses them, while the same size does not. */
  lemma WaitingEnds<E>(l: Log<E>, events: seq<Event<E>>, ev: Event<E>)
    requires forall e | e in events :: Plain(e, l.level)
    ensures var l1, l2 := Run(l, events), Run(l, events + [ev]);
            var direct, waiting := AtLeast(events, l.level), l.recent + Below(events, l.level);
            match ev
            case Entered(name, e) =>
              Rank(name) >= 3 && Rank(name) >= l.level ==>
                l2.file == l.file + direct + LastOf(waiting + [e], l.size) && l2.recent == []
            case Flush => l2.file == l.file + direct + LastOf(waiting, l.size) && l2.recent == []
            case Configure(size, name) =>
              && l2.file == l.file + direct && l2.size == (if size == 0 then 64 else size)
              && l2.level == (if name == "" then 1 else if Rank(name) >= 0 then Rank(name) else l.level)
              && l2.recent == (if size == l.size && size != 0 then waiting else [])
              && l2.dropped == l.dropped + if size == l.size && size != 0 then [] else LastOf(waiting, l.size)
            case SetLevel(level) => l2 == l1.(level := level)
  {
    WrittenOrWaiting(l, events);
    RunMore(l, events, ev);
    EndsWaiting(Run(l, events), ev);
  }

  lemma RunMore<E>(l: Log<E>, events: seq<Event<E>>, ev: Event<E>)
    ensures Run(l, events + [ev]) == Step(Run(l, events), ev)
  {
    assert (events + [ev])[..|events|] == events;
  }

  lemma EndsWaiting<E>(l: Log<E>, ev: Event<E>)
    ensures var l2 := Step(l, ev);
            match ev
            case Entered(name, e) =>
              Rank(name) >= 3 && Rank(name) >= l.level ==> l2.file == l.file + LastOf(l.recent + [e], l.size) && l2.recent == []
            case Flush => l2.file == l.file + LastOf(l.recent, l.size) && l2.recent == []
            case Configure(size, name) =>
              && l2.file == l.file && l2.size == (if size == 0 then 64 else size)
              && l2.level == (if name == "" then 1 else if Rank(name) >= 0 then Rank(name) else l.level)
              && l2.recent == (if size == l.size && size != 0 then l.recent else [])
              && l2.dropped == l.dropped + if size == l.size && size != 0 then [] else LastOf(l.recent, l.size)
            case SetLevel(level) => l2 == l.(level := level)
  {
    hide ToLogLevel, Rank;
    if ev.Entered? || ev.Configure? {
      RankIsLevel(ev.levelName);
    }
    assert l.dropped + [] == l.dropped && l.recent[0..] == l.recent;
    if ev.Entered? {
      assert (l.recent + [ev.entry])[0..] == l.recent + [ev.entry];
    }
  }

  /** The event leaves the level at DEBUG. */
  predicate StaysAtDebug<E>(ev: Event<E>)
  {
    match ev
    case SetLevel(level) => level == Number(DEBUG)
    case Configure(_, levelName) => levelName != "" && (ToLogLevel(levelName).None? || ToLogLevel(levelName) == Some(DEBUG))
    case _ => true
  }

  /** As long as the level is DEBUG the file gets every entry accepted, in order: no entry waits, and none is lost, whatever
      the size of the ring is set to. */
  lemma {:induction false} DebugWritesAll<E>(l: Log<E>, events: seq<Event<E>>)
    requires l.size > 0 && l.level == Number(DEBUG) && l.recent == [] && forall ev | ev in events :: StaysAtDebug(ev)
    ensures var l' := Run(l, events);
            && l'.size > 0 && l'.level == Number(DEBUG) && l'.recent == []
            && l'.file == l.file + Accepted(events) && l'.overwritten == l.overwritten && l'.dropped == l.dropped
  {
    hide Step, StaysAtDebug;
    if events != [] {
      var front, last := events[..|events| - 1], events[|events| - 1];
      assert last in events && forall ev | ev in front :: ev in events;
      DebugWritesAll(l, front);
      DebugWrites(Run(l, front), last);
      var now := if last.Entered? && ToLogLevel(last.levelName).Some? then [last.entry] else [];
      AppendTwo(l.file, Accepted(front), now);
    }
  }

  lemma DebugWrites<E>(l: Log<E>, ev: Event<E>)
    requires l.size > 0 && l.level == Number(DEBUG) && l.recent == [] && StaysAtDebug(ev)
    ensures var l' := Step(l, ev);
            && l'.size > 0 && l'.level == Number(DEBUG) && l'.recent == []
            && l'.file == l.file + (if ev.Entered? && ToLogLevel(ev.levelName).Some? then [ev.entry] else [])
            && l'.overwritten == l.overwritten && l'.dropped == l.dropped
  {
    hide ToLogLevel;
    assert l.file + [] == l.file && l.overwritten + [] == l.overwritten && l.dropped + [] == l.dropped;
  }
}

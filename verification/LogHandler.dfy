/** The log handler and its ring as an object, proved against `LogRing`. */
module LogHandlers {
  import opened Arithmetic
  import opened Bytes
  import opened LogRing

  class LogHandler<E(0)> {
    var buffer: array<E>
    var idx: nat
    var msgcnt: nat
    var currentLogLevel: int
    var file: seq<E>            // the log file
    ghost var recent: seq<E>
    ghost var overwritten: seq<E>
    ghost var dropped: seq<E>

    ghost function View(): Log<E>
      reads this
    {
      Log(buffer.Length, currentLogLevel, recent, file, overwritten, dropped)
    }

    /** The slot of every entry that still counts holds it. */
    ghost predicate Valid()
      reads this, buffer
    {
      && buffer.Length > 0 && msgcnt == |recent| && idx == msgcnt % buffer.Length
      && forall k | Gone(View()) <= k < msgcnt :: buffer[k % buffer.Length] == recent[k]
    }

    constructor (size: nat, levelName: string)
      requires levelName == "" || ToLogLevel(levelName).Some?
      ensures Valid() && fresh(buffer)
      ensures View() == Log(if size == 0 then 64 else size, if levelName == "" then 1 else Rank(levelName), [], [], [], [])
    {
      buffer := new E[if size == 0 then DEFAULT_SIZE else size];
      RankIsLevel(levelName);
      currentLogLevel := Number(if levelName == "" then INFO else ToLogLevel(levelName).value);
      idx, msgcnt, file, recent, overwritten, dropped := 0, 0, [], [], [], [];
    }

    method InsertIntoBuffer(entry: E)
      requires Valid()
      modifies this`idx, this`msgcnt, this`recent, buffer
      ensures Valid() && View() == Inserted(old(View()), entry)
    {
      var bufferSize := buffer.Length;
      forall k | Gone(View()) <= k < msgcnt && msgcnt - k < bufferSize
        ensures k % bufferSize != idx
      {
        ModDiffers(k, msgcnt - k, bufferSize);
      }
      ModAdd(msgcnt, 1, bufferSize);
      buffer[idx] := entry;
      idx := (idx + 1) % bufferSize;
      msgcnt := msgcnt + 1;
      recent := recent + [entry];
    }

    /** Where the loop of `Flush` finds the j-th entry. */
    lemma Slot(j: nat)
      requires Valid() && j < |Buffered(View())|
      ensures var entries := if msgcnt < buffer.Length then msgcnt else buffer.Length;
              var start := if msgcnt >= buffer.Length then idx else 0;
              |Buffered(View())| == entries && buffer[(start + j) % entries] == Buffered(View())[j]
    {
      var n := buffer.Length;
      if msgcnt >= n {
        ModAdd(msgcnt - n, j, n);
        DivModStep(msgcnt - n, n);
        ModAdd(idx, j, n);
        ModAdd(msgcnt, j, n);
        assert recent[msgcnt - n + j] == Buffered(View())[j];
      } else {
        SmallMod(j, msgcnt);
        SmallMod(j, n);
      }
    }

    /** Writes what is buffered, oldest first. */
    method WriteBuffered()
      requires Valid()
      modifies this`file
      ensures file == old(file) + Buffered(old(View()))
    {
      var bufferSize := buffer.Length;
      var entries := if msgcnt < bufferSize then msgcnt else bufferSize;
      var start := if msgcnt >= bufferSize then idx else 0;
      ghost var out := Buffered(View());
      assert |out| == entries && forall j | 0 <= j < entries :: buffer[(start + j) % entries] == out[j] by {
        forall j | 0 <= j < entries
          ensures buffer[(start + j) % entries] == out[j]
        {
          Slot(j);
        }
      }
      assert file + out[..0] == file;
      for i := start to start + entries
        invariant file == old(file) + out[..i - start]
      {
        assert buffer[(start + (i - start)) % entries] == out[i - start];
        assert out[..i - start + 1] == out[..i - start] + [out[i - start]];
        AppendTwo(old(file), out[..i - start], [out[i - start]]);
        file := file + [buffer[i % entries]];
      }
      assert out[..entries] == out;
    }

    method Flush()
      requires Valid()
      modifies this`idx, this`msgcnt, this`file, this`recent, this`overwritten
      ensures Valid() && View() == Flushed(old(View()))
    {
      WriteBuffered();
      overwritten := overwritten + recent[..Gone(View())];
      recent := [];
      idx := 0;
      msgcnt := 0;
    }

    /** Buffers the entry, or flushes with it; returns false when it is to be written at once. */
    method LogCommon(level: Level, entry: E) returns (handled: bool)
      requires Valid()
      modifies this`idx, this`msgcnt, this`file, this`recent, this`overwritten, buffer
      ensures Valid()
      ensures handled ==> View() == Logged(old(View()), level, entry)
      ensures !handled ==> View() == old(View()) && Logged(old(View()), level, entry) == old(View()).(file := old(file) + [entry])
    {
      if Number(level) < currentLogLevel {
        InsertIntoBuffer(entry);
        return true;
      }
      if level == ERROR || level == FATAL_ERROR {
        InsertIntoBuffer(entry);
        Flush();
        return true;
      }
      return false;
    }

    /** An unknown level name is refused with an exception. */
    method LogEntry(levelName: string, entry: E) returns (refused: bool)
      requires Valid()
      modifies this`idx, this`msgcnt, this`file, this`recent, this`overwritten, buffer
      ensures Valid() && View() == Step(old(View()), Entered(levelName, entry))
      ensures refused <==> ToLogLevel(levelName).None?
    {
      hide Logged;
      var level := ToLogLevel(levelName);
      if level.None? {
        return true;
      }
      var handled := LogCommon(level.value, entry);
      if !handled {
        file := file + [entry];
      }
      return false;
    }

    method Resize(size: nat)
      requires size > 0 && Valid()
      modifies this`buffer, this`idx, this`msgcnt, this`recent, this`overwritten, this`dropped
      ensures Valid() && fresh(buffer) && View() == Resized(old(View()), size)
    {
      overwritten, dropped := overwritten + recent[..Gone(View())], dropped + Buffered(View());
      recent := [];
      buffer := new E[size];
      idx, msgcnt := 0, 0;
    }

    /** The size is dealt with before the level is looked at; an unknown level name is refused with an exception. */
    method OnConfigChanged(size: nat, levelName: string) returns (refused: bool)
      requires Valid()
      modifies this
      ensures Valid() && View() == Configured(old(View()), size, levelName)
      ensures buffer == old(buffer) || fresh(buffer)
      ensures refused <==> levelName != "" && ToLogLevel(levelName).None?
    {
      if size == 0 {
        Resize(DEFAULT_SIZE);
      } else if buffer.Length != size {
        Resize(size);
      }
      if levelName == "" {
        currentLogLevel := Number(INFO);
        return false;
      }
      var level := ToLogLevel(levelName);
      if level.None? {
        return true;
      }
      currentLogLevel := Number(level.value);
      return false;
    }

    method SetLogLevel(level: int)
      requires Valid()
      modifies this`currentLogLevel
      ensures Valid() && View() == Step(old(View()), SetLevel(level))
    {
      currentLogLevel := level;
    }
  }
}

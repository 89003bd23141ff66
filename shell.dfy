/** The shell's global state and the functions of `mysh.c` that update it in
    place: the history array `hist` with its cursor `IDX`, the exit flag,
    `currentdir`, the background pid array `running` with `pidSIZE` and
    `pidLAST`, and the text printed so far. Each method is proved against the
    value-level specification in `Commands` through `Abs()`. */
module Mysh {
  import opened Text
  import opened Records
  import opened Commands
  import opened HistoryFile
  import Tokenizer

  /** `SIZE`: the capacity of the history array when there is no history file. */
  const SIZE: nat := 100

  /** `pidSIZE` after the first `pushPID`. */
  const FIRST_PID_SIZE: nat := 10

  /** The digit test of `replayCommand` and `dalekCommand`: a loop over the
      characters that stops at the first one that is not a digit. */
  method IsNumber(s: string) returns (ok: bool)
    ensures ok == AllDigits(s)
  {
    var i := 0;
    while i < |s|
      invariant 0 <= i <= |s|
      invariant forall k :: 0 <= k < i ==> IsDigit(s[k])
    {
      if !IsDigit(s[i]) {
        return false;
      }
      i := i + 1;
    }
    return true;
  }

  /** `realloc`: a larger array that starts with the old one's contents. */
  method Realloc<T(0)>(a: array<T>, size: nat) returns (b: array<T>)
    requires a.Length <= size
    ensures fresh(b) && b.Length == size && b[..a.Length] == a[..]
  {
    b := new T[size];
    var i := 0;
    while i < a.Length
      invariant 0 <= i <= a.Length
      invariant b[..i] == a[..i]
    {
      b[i] := a[i];
      i := i + 1;
    }
  }

  /** One line of `writeHistory`: the command's length and text, the
      parameter count, each parameter's length and text, a newline. */
  method WriteRecord(r: Record) returns (line: string)
    ensures line == RecordLine(r)
  {
    line := Itoa(|r.cmd|) + " " + r.cmd + " " + Itoa(|r.params|);
    ghost var head := line;
    var j := 0;
    while j < |r.params|
      invariant 0 <= j <= |r.params|
      invariant line == head + ParamsLine(r.params[..j])
    {
      var piece := " " + Itoa(|r.params[j]|) + " " + r.params[j];
      ParamsLineSnoc(r.params[..j], r.params[j]);
      assert r.params[..j + 1] == r.params[..j] + [r.params[j]];
      AppendAssoc(head, ParamsLine(r.params[..j]), piece);
      line := line + piece;
      j := j + 1;
    }
    assert r.params[..j] == r.params;
    line := line + "\n";
  }

  /** Updating a cell inside a prefix updates the prefix. */
  lemma UpdateInPrefix<T>(cells: seq<T>, n: nat, i: nat, x: T)
    requires i < n <= |cells|
    ensures cells[i := x][..n] == cells[..n][i := x]
  {
  }

  /** Replacing or appending a record made of tokens keeps a store made of tokens. */
  lemma UpdateWellFormed(rs: seq<Record>, i: nat, rec: Record)
    requires AllWellFormed(rs) && i < |rs| && WellFormed(rec)
    ensures AllWellFormed(rs[i := rec])
  {
  }

  lemma SnocWellFormed(rs: seq<Record>, rec: Record)
    requires AllWellFormed(rs) && WellFormed(rec)
    ensures AllWellFormed(rs + [rec])
  {
  }

  class Shell {
    var hist: array<Record>
    var idx: int
    var exit: bool
    var currentDir: string
    var running: array?<int>
    var pidSize: nat
    var pidLast: int
    var log: seq<Effect>

    /** The records `hist[0..IDX]` and the pids `running[0..pidLAST]`, kept
        beside the arrays for the specifications. */
    ghost var records: seq<Record>
    ghost var pids: seq<int>

    /** `IDX` stays inside the history array, whose records are made of
        tokens; `running` is unallocated until
        the first pid, and afterwards has `pidSIZE` slots of which
        `0..pidLAST` are in use. */
    ghost predicate Valid()
      reads this, hist, running
    {
      && -1 <= idx < hist.Length
      && records == hist[..idx + 1]
      && AllWellFormed(records)
      && (running == null ==> pidSize == 0 && pidLast == -1 && pids == [])
      && (running != null ==> running.Length == pidSize && FIRST_PID_SIZE <= pidSize && -1 <= pidLast < pidSize
                              && pids == running[..pidLast + 1])
    }

    /** The shell's globals as a value of the specification. */
    ghost function Abs(): State
      reads this
    {
      State(records, exit, currentDir, pids, log)
    }

    /** Start-up, as `main` does it: `getHistory()` from the history file's
        text (None when there is no file) and `getcwd`. A file whose fields
        cannot be read back gives an empty store. */
    constructor (file: Option<string>, cwd: string)
      ensures Valid() && fresh(hist)
      ensures file.None? || Load(file.value).None? ==> records == [] && hist.Length == SIZE
      ensures file.Some? && Load(file.value).Some? ==>
                records == Load(file.value).value && hist.Length == (|records| + 1) * 2
      ensures !exit && currentDir == cwd && pids == [] && running == null && log == []
    {
      var loaded := if file.Some? then Load(file.value) else None;
      if loaded.None? {
        hist := new Record[SIZE];
        idx := -1;
        records := [];
      } else {
        var rs := loaded.value;
        LoadedRecordsWellFormed(file.value);
        var a := new Record[(|rs| + 1) * 2];
        var i := 0;
        while i < |rs|
          invariant 0 <= i <= |rs|
          invariant a[..i] == rs[..i]
        {
          a[i] := rs[i];
          i := i + 1;
        }
        assert a[..|rs|] == rs;
        hist := a;
        idx := |rs| - 1;
        records := rs;
      }
      exit := false;
      currentDir := cwd;
      running := null;
      pidSize := 0;
      pidLast := -1;
      log := [];
      pids := [];
    }

    /** `pushHistory`: append the record for a non-empty word array, growing
        the array when `IDX` reaches its capacity. */
    method PushHistory(words: seq<string>)
      requires Valid() && |words| >= 1 && forall w :: w in words ==> IsToken(w)
      modifies this, hist
      ensures Valid() && (hist == old(hist) || fresh(hist))
      ensures records == old(records) + [FromWords(words)] && idx == old(idx) + 1
      ensures hist.Length == if old(idx) + 1 == old(hist.Length) then (old(hist.Length) + 1) * 2 else old(hist.Length)
      ensures exit == old(exit) && currentDir == old(currentDir) && log == old(log)
      ensures running == old(running) && pids == old(pids) && pidSize == old(pidSize) && pidLast == old(pidLast)
    {
      idx := idx + 1;
      if idx == hist.Length {
        hist := Realloc(hist, (hist.Length + 1) * 2);
      }
      hist[idx] := FromWords(words);
      assert WellFormed(FromWords(words)) by {
        assert words[0] in words;
        forall p | p in words[1..] ensures IsToken(p) {
          assert p in words;
        }
      }
      SnocWellFormed(records, FromWords(words));
      records := records + [FromWords(words)];
      assert hist[..idx + 1] == hist[..idx] + [FromWords(words)];
    }

    /** `printHistory`: the listing, newest record first. */
    method PrintHistory() returns (lines: seq<string>)
      requires Valid()
      ensures lines == Listing(records)
    {
      if idx < 0 {
        return [NoHistory];
      }
      lines := [];
      var temp := 0;
      var i := idx;
      while i >= 0
        invariant -1 <= i <= idx && temp == idx - i && |lines| == temp
        invariant forall k :: 0 <= k < temp ==> lines[k] == HistoryLine(k, hist[idx - k])
      {
        var r := hist[i];
        var line := Itoa(temp) + ": " + r.cmd;
        var j := 0;
        while j < |r.params|
          invariant 0 <= j <= |r.params|
          invariant line == Itoa(temp) + ": " + r.cmd + ParamsText(r.params[..j])
        {
          assert r.params[..j + 1][..j] == r.params[..j];
          line := line + " " + r.params[j];
          j := j + 1;
        }
        assert r.params[..j] == r.params;
        line := line + "\n";
        lines := lines + [line];
        temp := temp + 1;
        i := i - 1;
      }
    }

    /** `historyCommand`. */
    method HistoryCommand(index: nat)
      requires Valid() && index <= idx
      modifies this
      ensures Valid() && hist == old(hist) && running == old(running)
      ensures Abs() == Commands.HistoryCommand(old(Abs()), old(records)[index])
    {
      var r := hist[index];
      if |r.params| > 0 {
        if r.params[0] == "-c" {
          idx := -1;
          records := [];
        } else {
          Emit(Report(BadHistoryFlag));
        }
      } else {
        var lines := PrintHistory();
        log := log + Prints(lines);
      }
    }

    /** `movetodirCommand`: `opendir` answers through `openDir`. */
    method MovetodirCommand(index: nat, openDir: string -> DirStatus)
      requires Valid() && index <= idx
      modifies this
      ensures Valid() && hist == old(hist) && running == old(running)
      ensures Abs() == Commands.MoveToDirCommand(old(Abs()), old(records)[index], openDir)
    {
      var r := hist[index];
      if |r.params| == 0 {
        Emit(Report(MissingDirectory));
        return;
      }
      var dir := openDir(r.params[0]);
      if dir == Opened {
        currentDir := r.params[0];
      } else if dir == NoSuchDirectory {
        Emit(Report(DirectoryDoesNotExist(r.params[0])));
      } else {
        Emit(Report(CannotOpenDirectory));
      }
    }

    /** `replayCommand`: check the argument, then run the target record. */
    method ReplayCommand(index: nat, env: Env)
      requires Valid() && index <= idx
      modifies this, hist, running
      ensures Valid() && hist == old(hist) && (running == old(running) || fresh(running))
      ensures CheckReplay(old(records)[index], index, old(idx)).Target? ==>
                Abs() == Dispatch(old(Abs()), CheckReplay(old(records)[index], index, old(idx)).index, env)
      ensures CheckReplay(old(records)[index], index, old(idx)).Refused? ==>
                Abs() == Say(old(Abs()), CheckReplay(old(records)[index], index, old(idx)).msg)
      decreases index, 0
    {
      var r := hist[index];
      var msg := MissingReplayNumber;
      var target := -1;
      if |r.params| == 0 {
        msg := MissingReplayNumber;
      } else {
        var ok := IsNumber(r.params[0]);
        if !ok {
          msg := BadReplayNumber;
        } else {
          var n := DigitsValue(r.params[0]);
          if n > idx || n >= index {
            msg := ReplayOutOfRange;
          } else {
            target := index - n - 1;
          }
        }
      }
      assert CheckReplay(r, index, idx) == if target >= 0 then Target(target) else Refused(msg);
      if target >= 0 {
        Run(target, env);
      } else {
        Emit(Report(msg));
      }
    }

    /** `startCommand` up to the fork: the `./` prefix is written back into
        the record; `fork` answers through `fork`. */
    method StartCommand(index: nat, fork: ForkResult)
      requires Valid() && index <= idx
      modifies this, hist
      ensures Valid() && hist == old(hist) && running == old(running)
      ensures Abs() == Commands.StartCommand(old(Abs()), index, fork)
    {
      var r := hist[index];
      if |r.params| == 0 {
        Emit(Report(MissingProgram));
        return;
      }
      ghost var s := Abs();
      assert r == s.hist[index];
      StartKeepsRecordWellFormed(r);
      var argv := r.params[0 := StartPath(r.params[0])];
      SetRecord(index, r.(params := argv));
      var effect := if fork.ForkFailed? then Report(ForkFailure) else Exec(argv, true);
      Emit(effect);
      assert Abs() == Commands.StartCommand(s, index, fork);
    }

    /** Write to standard output, or hand a request to the operating system. */
    method Emit(e: Effect)
      requires Valid()
      modifies this
      ensures Valid() && log == old(log) + [e]
      ensures hist == old(hist) && idx == old(idx) && records == old(records) && exit == old(exit)
      ensures currentDir == old(currentDir) && running == old(running) && pids == old(pids)
    {
      log := log + [e];
    }

    /** `hist[index] = rec`, for a record in the store. */
    method SetRecord(index: nat, rec: Record)
      requires Valid() && index <= idx && WellFormed(rec)
      modifies this, hist
      ensures Valid() && hist == old(hist) && records == old(records)[index := rec]
      ensures idx == old(idx) && exit == old(exit) && currentDir == old(currentDir) && log == old(log)
      ensures running == old(running) && pids == old(pids)
    {
      ghost var cells := hist[..];
      hist[index] := rec;
      assert hist[..] == cells[index := rec];
      UpdateInPrefix(cells, idx + 1, index, rec);
      UpdateWellFormed(records, index, rec);
      records := records[index := rec];
    }

    /** `backgroundCommand` up to the fork: print the child's pid, then `pushPID`. */
    method BackgroundCommand(index: nat, fork: ForkResult)
      requires Valid() && index <= idx
      modifies this, running
      ensures Valid() && hist == old(hist) && (running == old(running) || fresh(running))
      ensures Abs() == Commands.BackgroundCommand(old(Abs()), old(records)[index], fork)
    {
      var r := hist[index];
      if |r.params| == 0 {
        Emit(Report(MissingProgram));
        return;
      }
      if fork.ForkFailed? {
        Emit(Report(ForkFailure));
      } else {
        log := log + [Exec(r.params, false), Print(Itoa(fork.pid) + "\n")];
        PushPID(fork.pid);
      }
    }

    /** `dalekCommand` up to the `kill`, refusing a number too wide for `pid_t`. */
    method DalekCommand(index: nat)
      requires Valid() && index <= idx
      modifies this
      ensures Valid() && hist == old(hist) && running == old(running)
      ensures Abs() == Commands.DalekCommand(old(Abs()), old(records)[index])
    {
      var r := hist[index];
      if |r.params| == 0 {
        Emit(Report(MissingPid));
        return;
      }
      var ok := IsNumber(r.params[0]);
      if !ok {
        Emit(Report(BadPid));
        return;
      }
      var pid := DigitsValue(r.params[0]);
      if pid > INT_MAX {
        Emit(Report(BadPid));
        return;
      }
      Emit(Kill(pid));
    }

    /** `pushPID`: allocate ten slots on first use, double when full, then
        store the pid after the last one. */
    method PushPID(pid: int)
      requires Valid()
      modifies this, running
      ensures Valid() && (running == old(running) || fresh(running))
      ensures pids == old(pids) + [pid] && pidLast == old(pidLast) + 1
      ensures pidSize == if old(running) == null then FIRST_PID_SIZE
                         else if old(pidLast) == old(pidSize) - 1 then 2 * old(pidSize)
                         else old(pidSize)
      ensures hist == old(hist) && idx == old(idx) && records == old(records) && exit == old(exit)
      ensures currentDir == old(currentDir) && log == old(log)
    {
      MakeRoom();
      pidLast := pidLast + 1;
      running[pidLast] := pid;
      pids := pids + [pid];
      assert running[..pidLast + 1] == running[..pidLast] + [pid];
    }

    /** The allocation part of `pushPID`: afterwards there is a free slot
        after `pidLAST`, and the pids in use are the same. */
    method MakeRoom()
      requires Valid()
      modifies this
      ensures Valid() && running != null && pidLast < pidSize - 1
      ensures old(running) == null ==> fresh(running) && pidSize == FIRST_PID_SIZE
      ensures old(running) != null && old(pidLast) == old(pidSize) - 1 ==> fresh(running) && pidSize == 2 * old(pidSize)
      ensures old(running) != null && old(pidLast) < old(pidSize) - 1 ==> running == old(running) && pidSize == old(pidSize)
      ensures pids == old(pids) && pidLast == old(pidLast)
      ensures hist == old(hist) && idx == old(idx) && records == old(records) && exit == old(exit)
      ensures currentDir == old(currentDir) && log == old(log)
    {
      if running == null {
        pidSize := FIRST_PID_SIZE;
        running := new int[pidSize];
      } else if pidLast == pidSize - 1 {
        var grown := Realloc(running, pidSize * 2);
        pidSize := pidSize * 2;
        running := grown;
      }
    }

    /** `run`: find the record's command among the `LOOKUP` names, with the
        source's chain of comparisons (`Resolve`), and run it. */
    method Run(index: nat, env: Env)
      requires Valid() && index <= idx
      modifies this, hist, running
      ensures Valid() && hist == old(hist) && (running == old(running) || fresh(running))
      ensures Abs() == Dispatch(old(Abs()), index, env)
      decreases index, 1
    {
      ghost var s := Abs();
      var k := Resolve(hist[index].cmd);
      if k == Some(Replay) {
        ReplayRedispatches(s, index, env);
        ReplayCommand(index, env);
      } else {
        DispatchPerforms(s, index, env);
        RunBuiltin(index, k, env);
      }
    }

    /** The branches of `run` other than `replay`, for the kind `k` the
        record's command word resolved to. */
    method RunBuiltin(index: nat, k: Option<Kind>, env: Env)
      requires Valid() && index <= idx && k != Some(Replay)
      modifies this, hist, running
      ensures Valid() && hist == old(hist) && (running == old(running) || fresh(running))
      ensures Abs() == Commands.Perform(old(Abs()), index, k, env)
    {
      ghost var s := Abs();
      match k
      case Some(ByeBye) =>
        exit := true;
      case Some(History) =>
        assert Commands.Perform(s, index, k, env) == Commands.HistoryCommand(s, s.hist[index]);
        HistoryCommand(index);
      case Some(WhereAmI) =>
        Emit(Print(currentDir + "\n"));
      case Some(MoveToDir) =>
        assert Commands.Perform(s, index, k, env) == MoveToDirCommand(s, s.hist[index], env.openDir);
        MovetodirCommand(index, env.openDir);
      case Some(Start) =>
        assert Commands.Perform(s, index, k, env) == Commands.StartCommand(s, index, env.fork);
        StartCommand(index, env.fork);
      case Some(Background) =>
        assert Commands.Perform(s, index, k, env) == Commands.BackgroundCommand(s, s.hist[index], env.fork);
        BackgroundCommand(index, env.fork);
      case Some(Dalek) =>
        assert Commands.Perform(s, index, k, env) == Commands.DalekCommand(s, s.hist[index]);
        DalekCommand(index);
      case Some(Replay) =>
        assert false;
      case _ =>
        Emit(Report(UnknownCommand(hist[index].cmd)));
    }

    /** One turn of `main`'s loop: split the line, record it, run it. A line
        without words is skipped. */
    method HandleLine(line: string, env: Env)
      requires Valid()
      modifies this, hist, running
      ensures Valid() && (running == old(running) || fresh(running)) && (hist == old(hist) || fresh(hist))
      ensures Abs() == Step(old(Abs()), line, env)
    {
      var n, wordArray := Tokenizer.StringParser(line);
      if n == 0 {
        return;
      }
      TokensAreTokens(line, 0);
      PushHistory(wordArray[..]);
      Run(idx, env);
    }

    /** `writeHistory`: the count, then one line per record. */
    method WriteHistory() returns (text: string)
      requires Valid()
      ensures text == Save(records) && Load(text) == Some(records)
    {
      var body := "";
      var i := 0;
      while i <= idx
        invariant 0 <= i <= idx + 1
        invariant body == RecordLines(hist[..i])
      {
        var line := WriteRecord(hist[i]);
        RecordLinesSnoc(hist[..i], hist[i]);
        assert hist[..i + 1] == hist[..i] + [hist[i]];
        body := body + line;
        i := i + 1;
      }
      assert hist[..i] == records;
      text := Itoa(idx + 1) + "\n" + body;
      LoadSave(records);
    }
  }
}

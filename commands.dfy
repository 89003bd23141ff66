/** The shell's behaviour on one input line, as a function of its state: `run`
    resolves the command word against the `LOOKUP` table and either performs a
    built-in or reports an unknown command; `replay` re-dispatches an earlier
    record. Printed text and the requests handed to the operating system are
    recorded, in order, in the state's log. This module is the specification
    the imperative `Shell` class is proved against. */
module Commands {
  import opened Text
  import opened Records

  /** The command kinds of the `enum`, in `LOOKUP` order. */
  datatype Kind = MoveToDir | WhereAmI | History | ByeBye | Replay | Start | Background | Dalek | Repeat | DalekAll

  datatype Entry = Entry(kind: Kind, val: string)

  /** The `LOOKUP` table: entry `k` names the command kind whose `enum` value is `k`. */
  const LOOKUP: seq<Entry> := [
    Entry(MoveToDir, "movetodir"),
    Entry(WhereAmI, "whereami"),
    Entry(History, "history"),
    Entry(ByeBye, "byebye"),
    Entry(Replay, "replay"),
    Entry(Start, "start"),
    Entry(Background, "background"),
    Entry(Dalek, "dalek"),
    Entry(Repeat, "repeat"),
    Entry(DalekAll, "dalekall")
  ]

  /** The `enum` value of a kind. */
  function Ordinal(k: Kind): (i: nat)
    ensures i < |LOOKUP| && LOOKUP[i].kind == k
  {
    match k
    case MoveToDir => 0
    case WhereAmI => 1
    case History => 2
    case ByeBye => 3
    case Replay => 4
    case Start => 5
    case Background => 6
    case Dalek => 7
    case Repeat => 8
    case DalekAll => 9
  }

  /** The name of a kind. */
  function Name(k: Kind): string {
    match k
    case MoveToDir => "movetodir"
    case WhereAmI => "whereami"
    case History => "history"
    case ByeBye => "byebye"
    case Replay => "replay"
    case Start => "start"
    case Background => "background"
    case Dalek => "dalek"
    case Repeat => "repeat"
    case DalekAll => "dalekall"
  }

  /** `LOOKUP[k].val` is the name of kind `k`: the table and `Name` agree. */
  lemma LookupNames(k: Kind)
    ensures LOOKUP[Ordinal(k)] == Entry(k, Name(k))
  {
  }

  /** The kinds `run` compares against, in the order it compares them;
      `repeat` and `dalekall` are in the table but never dispatched. */
  const Dispatched: seq<Kind> := [ByeBye, History, WhereAmI, MoveToDir, Replay, Start, Background, Dalek]

  /** The `strcmp` chain of `run`: the first kind whose name equals the
      command word, or None when no dispatched kind matches. */
  function Resolve(cmd: string): (r: Option<Kind>)
    ensures r.Some? ==> r.value in Dispatched && Name(r.value) == cmd
  {
    if cmd == Name(ByeBye) then Some(ByeBye)
    else if cmd == Name(History) then Some(History)
    else if cmd == Name(WhereAmI) then Some(WhereAmI)
    else if cmd == Name(MoveToDir) then Some(MoveToDir)
    else if cmd == Name(Replay) then Some(Replay)
    else if cmd == Name(Start) then Some(Start)
    else if cmd == Name(Background) then Some(Background)
    else if cmd == Name(Dalek) then Some(Dalek)
    else None
  }

  /** A command word resolves to a kind exactly when that kind is dispatched
      and the word is its name: the names of the table are pairwise distinct,
      so the order of the comparisons does not matter. */
  lemma ResolveIffName(cmd: string, k: Kind)
    ensures Resolve(cmd) == Some(k) <==> k in Dispatched && Name(k) == cmd
  {
    if k in Dispatched && Name(k) == cmd {
      match k
      case ByeBye =>
      case History =>
      case WhereAmI =>
      case MoveToDir =>
      case Replay =>
      case Start =>
      case Background =>
      case Dalek =>
    }
  }

  /** `repeat` and `dalekall` are in the table but resolve to nothing. */
  lemma UndispatchedNames()
    ensures Resolve("repeat") == None && Resolve("dalekall") == None
  {
  }

  // ---------------------------------------------------------------------
  // The world outside the model and the shell's state

  /** What `opendir` (and `errno`) say about a path. */
  datatype DirStatus = Opened | NoSuchDirectory | OpenFailed

  /** What `fork` returns in the parent: failure, or the child's process id. */
  datatype ForkResult = ForkFailed | Forked(pid: nat)

  /** The answers of the operating system while one line is handled. */
  datatype Env = Env(openDir: string -> DirStatus, fork: ForkResult)

  /** Something the shell does that can be observed outside it: text written
      to standard output (a diagnostic is written as its `Wording`), a program handed to `execvp` in a child (waited for
      by `start`, left running by `background`), a `SIGKILL` sent by `dalek`. */
  datatype Effect = Print(text: string) | Report(msg: Message) | Exec(argv: seq<string>, wait: bool) | Kill(pid: int)

  /** The shell's globals: the history store (`hist[0..IDX]`, so `IDX` is
      `|hist| - 1`), the exit flag, `currentdir`, the background pids
      (`running[0..pidLAST]`) and everything done so far. */
  datatype State = State(hist: seq<Record>, exit: bool, cwd: string, pids: seq<int>, log: seq<Effect>)

  /** The diagnostics the shell prints, each with its exact wording below. */
  datatype Message =
    | MissingDirectory | DirectoryDoesNotExist(dir: string) | CannotOpenDirectory
    | BadHistoryFlag
    | MissingReplayNumber | BadReplayNumber | ReplayOutOfRange
    | MissingProgram | ForkFailure
    | MissingPid | BadPid
    | UnknownCommand(cmd: string)

  /** The text `printf` writes for a diagnostic (some have no newline). */
  function Wording(m: Message): string {
    match m
    case MissingDirectory => "Invalid arguments for movetodir. Make sure to include a directory.\n"
    case DirectoryDoesNotExist(dir) => "Directory '" + dir + "' does not exist.\n"
    case CannotOpenDirectory => "Failed to open directory, please try again.\n"
    case BadHistoryFlag => "Invalid arguments for history. Did you mean -c?\n"
    case MissingReplayNumber => "Please provide the number of the command to replay."
    case BadReplayNumber => "Please enter a valid number."
    case ReplayOutOfRange => "Number provided is out of range.\n"
    case MissingProgram => "Please provide a program to run.\n"
    case ForkFailure => "Failed to fork().\n"
    case MissingPid => "Please provide a PID to terminate.\n"
    case BadPid => "Please enter a valid PID."
    case UnknownCommand(cmd) => "Command '" + cmd + "' does not exist.\n"
  }

  function Say(s: State, m: Message): State {
    s.(log := s.log + [Report(m)])
  }

  function Prints(lines: seq<string>): (es: seq<Effect>)
    ensures |es| == |lines| && forall k :: 0 <= k < |lines| ==> es[k] == Print(lines[k])
  {
    seq(|lines|, k requires 0 <= k < |lines| => Print(lines[k]))
  }

  // ---------------------------------------------------------------------
  // Argument validation of the built-ins

  /** The outcome of `replayCommand`'s checks: the record to re-dispatch, or
      the message printed instead. */
  datatype ReplayTarget = Target(index: int) | Refused(msg: Message)

  /** `replayCommand`'s checks exactly as written: the number is read by
      `atoi` into an `int`, and the range check compares it against `IDX` only. */
  function CheckReplayAsWritten(r: Record, index: nat, idx: int): ReplayTarget {
    if |r.params| == 0 then Refused(MissingReplayNumber)
    else if !AllDigits(r.params[0]) then Refused(BadReplayNumber)
    else if Atoi(r.params[0]) > idx then Refused(ReplayOutOfRange)
    else Target(index - Atoi(r.params[0]) - 1)
  }

  /** `replay 0` in a shell with an empty history: the line itself becomes
      record 0 (IDX = 0), the check `0 > 0` fails, and the target is record
      -1, which does not exist. In general, `replay n` issued when IDX = n. */
  lemma ReplayAsWrittenReachesMinusOne(idx: nat)
    requires idx <= INT_MAX
    ensures CheckReplayAsWritten(Record("replay", [Itoa(idx)]), idx, idx) == Target(-1)
  {
    ItoaRoundTrip(idx);
  }

  /** A number just past the range of `int` wraps: `replay 4294967295` is
      read as -1, passes the range check and names the replaying record
      itself, so `run` recurses without end; `replay 4294967296` is read as 0
      and names the record before it. The completed check refuses both. */
  lemma ReplayAsWrittenWraps(n: string, index: nat, idx: int)
    requires AllDigits(n) && -1 <= idx < 4294967295
    ensures DigitsValue(n) == 4294967295 ==> CheckReplayAsWritten(Record("replay", [n]), index, idx) == Target(index)
    ensures DigitsValue(n) == 4294967296 && 0 <= idx ==> CheckReplayAsWritten(Record("replay", [n]), index, idx) == Target(index - 1)
    ensures DigitsValue(n) >= 4294967295 ==> CheckReplay(Record("replay", [n]), index, idx) == Refused(ReplayOutOfRange)
  {
    AtoiWraps(n);
  }

  /** `replayCommand`'s checks with the range check completed: `replay n`
      from record `index` names record `index - n - 1`, which must exist. */
  function CheckReplay(r: Record, index: nat, idx: int): (v: ReplayTarget)
    ensures v.Target? <==> |r.params| > 0 && AllDigits(r.params[0])
                           && DigitsValue(r.params[0]) <= idx && DigitsValue(r.params[0]) < index
    ensures v.Target? ==> 0 <= v.index < index && v.index + DigitsValue(r.params[0]) + 1 == index
    ensures |r.params| == 0 ==> v == Refused(MissingReplayNumber)
    ensures |r.params| > 0 && !AllDigits(r.params[0]) ==> v == Refused(BadReplayNumber)
  {
    if |r.params| == 0 then Refused(MissingReplayNumber)
    else if !AllDigits(r.params[0]) then Refused(BadReplayNumber)
    else if DigitsValue(r.params[0]) > idx || DigitsValue(r.params[0]) >= index then Refused(ReplayOutOfRange)
    else Target(index - DigitsValue(r.params[0]) - 1)
  }

  /** With `IDX` inside the range of `int`, the completed check differs from
      the written one exactly where the written one names a record before
      record 0 or reads a number too wide for `int`; there it reports out of
      range. */
  lemma ReplayFixOnlyRejectsMissingRecords(r: Record, index: nat, idx: int)
    requires idx <= INT_MAX
    ensures CheckReplay(r, index, idx) != CheckReplayAsWritten(r, index, idx)
            <==> CheckReplayAsWritten(r, index, idx).Target?
                 && (CheckReplayAsWritten(r, index, idx).index < 0 || DigitsValue(r.params[0]) > INT_MAX)
    ensures CheckReplay(r, index, idx) != CheckReplayAsWritten(r, index, idx)
            ==> CheckReplay(r, index, idx) == Refused(ReplayOutOfRange)
  {
  }

  /** The program `start` runs: a name that does not start with `/` is
      taken relative to the current directory by prefixing `./`. */
  function StartPath(p: string): (q: string)
    ensures |q| >= |p| && q[|q| - |p|..] == p
    ensures |p| > 0 && p[0] == '/' ==> q == p
    ensures (|p| == 0 || p[0] != '/') ==> |q| == |p| + 2 && q[..2] == "./"
  {
    if |p| == 0 || p[0] != '/' then "./" + p else p
  }

  /** The prefixed name is still a token when the name was one. */
  lemma StartPathIsToken(p: string)
    requires IsToken(p)
    ensures IsToken(StartPath(p))
  {
    var q := StartPath(p);
    if q != p {
      forall k | 0 <= k < |q| ensures IsWordChar(q[k]) {
        if k >= 2 { assert q[k] == p[k - 2]; }
      }
    }
  }

  // ---------------------------------------------------------------------
  // The built-ins

  /** `historyCommand`: `-c` empties the store (IDX = -1), another first
      parameter is refused, no parameter prints the listing. */
  function HistoryCommand(s: State, r: Record): State {
    if |r.params| > 0 then
      if r.params[0] == "-c" then s.(hist := []) else Say(s, BadHistoryFlag)
    else s.(log := s.log + Prints(Listing(s.hist)))
  }

  /** `movetodirCommand`: the argument, when `opendir` accepts it, becomes
      the current directory verbatim. */
  function MoveToDirCommand(s: State, r: Record, openDir: string -> DirStatus): State {
    if |r.params| == 0 then Say(s, MissingDirectory)
    else match openDir(r.params[0])
      case Opened => s.(cwd := r.params[0])
      case NoSuchDirectory => Say(s, DirectoryDoesNotExist(r.params[0]))
      case OpenFailed => Say(s, CannotOpenDirectory)
  }

  /** `startCommand` up to the fork: the record's first parameter is replaced
      by its `./`-prefixed form (in the store), then the child runs the
      parameters as its argument vector and the shell waits for it. */
  function StartCommand(s: State, index: nat, fork: ForkResult): State
    requires index < |s.hist|
  {
    var r := s.hist[index];
    if |r.params| == 0 then Say(s, MissingProgram)
    else
      var argv := r.params[0 := StartPath(r.params[0])];
      var s' := s.(hist := s.hist[index := r.(params := argv)]);
      match fork
      case ForkFailed => Say(s', ForkFailure)
      case Forked(_) => s'.(log := s'.log + [Exec(argv, true)])
  }

  /** `backgroundCommand` up to the fork: the child runs the parameters; the
      parent prints the child's pid and records it with `pushPID`. */
  function BackgroundCommand(s: State, r: Record, fork: ForkResult): State {
    if |r.params| == 0 then Say(s, MissingProgram)
    else match fork
      case ForkFailed => Say(s, ForkFailure)
      case Forked(pid) =>
        s.(log := s.log + [Exec(r.params, false), Print(Itoa(pid) + "\n")], pids := s.pids + [pid])
  }

  /** `dalekCommand` up to the `kill`: the argument must be all digits and
      name a process id that fits in `pid_t`. */
  function DalekCommand(s: State, r: Record): State {
    if |r.params| == 0 then Say(s, MissingPid)
    else if !AllDigits(r.params[0]) || DigitsValue(r.params[0]) > INT_MAX then Say(s, BadPid)
    else s.(log := s.log + [Kill(DigitsValue(r.params[0]))])
  }

  /** `dalekCommand` exactly as written: the digits are read by `atoi` into a
      `pid_t`, whatever their number. */
  function DalekCommandAsWritten(s: State, r: Record): State {
    if |r.params| == 0 then Say(s, MissingPid)
    else if !AllDigits(r.params[0]) then Say(s, BadPid)
    else s.(log := s.log + [Kill(Atoi(r.params[0]))])
  }

  /** `dalek 4294967295` as written sends `SIGKILL` to process -1, which
      `kill` takes as every process the user may signal. */
  lemma DalekAsWrittenKillsEveryProcess(s: State, n: string)
    requires AllDigits(n) && DigitsValue(n) == 4294967295
    ensures DalekCommandAsWritten(s, Record("dalek", [n])) == s.(log := s.log + [Kill(-1)])
  {
    AtoiWraps(n);
  }

  /** The completed check differs from the written one exactly on all-digit
      arguments too wide for `pid_t`, which it refuses as invalid. */
  lemma DalekFixOnlyRejectsWideNumbers(s: State, r: Record)
    ensures DalekCommand(s, r) != DalekCommandAsWritten(s, r)
            <==> |r.params| > 0 && AllDigits(r.params[0]) && DigitsValue(r.params[0]) > INT_MAX
    ensures DalekCommand(s, r) != DalekCommandAsWritten(s, r) ==> DalekCommand(s, r) == Say(s, BadPid)
  {
    if |r.params| > 0 && AllDigits(r.params[0]) && DigitsValue(r.params[0]) > INT_MAX {
      var k := Atoi(r.params[0]);
      assert DalekCommand(s, r).log[|s.log|] == Report(BadPid);
      assert DalekCommandAsWritten(s, r).log[|s.log|] == Kill(k);
    }
  }

  /** The branches of `run` other than `replay`: the built-in named by `k`
      (the result of `Resolve`), or the unknown-command report. */
  function Perform(s: State, index: nat, k: Option<Kind>, env: Env): State
    requires index < |s.hist| && k != Some(Replay)
  {
    var r := s.hist[index];
    match k
    case Some(ByeBye) => s.(exit := true)
    case Some(History) => HistoryCommand(s, r)
    case Some(WhereAmI) => s.(log := s.log + [Print(s.cwd + "\n")])
    case Some(MoveToDir) => MoveToDirCommand(s, r, env.openDir)
    case Some(Start) => StartCommand(s, index, env.fork)
    case Some(Background) => BackgroundCommand(s, r, env.fork)
    case Some(Dalek) => DalekCommand(s, r)
    case _ => Say(s, UnknownCommand(r.cmd))
  }

  /** The record a `run(index)` ends up performing once replays are
      followed, or the complaint of the replay that refused. A replay does
      nothing before it runs its target, so following the chain first loses
      nothing; every replay points strictly backwards, so the chain ends. */
  function Follow(hist: seq<Record>, index: nat): (v: ReplayTarget)
    requires index < |hist|
    ensures v.Target? ==> 0 <= v.index <= index && Resolve(hist[v.index].cmd) != Some(Replay)
    ensures v.Target? && v.index < index ==> Resolve(hist[index].cmd) == Some(Replay)
    ensures v.Refused? ==> Resolve(hist[index].cmd) == Some(Replay)
    decreases index
  {
    var r := hist[index];
    if Resolve(r.cmd) != Some(Replay) then Target(index)
    else match CheckReplay(r, index, |hist| - 1)
      case Target(t) => Follow(hist, t)
      case Refused(msg) => Refused(msg)
  }

  /** `run(index)`: dispatch history record `index`. (The source tests
      `replay` fifth in its `strcmp` chain; the names are distinct, so the
      order of the tests does not matter.) */
  function Dispatch(s: State, index: nat, env: Env): State
    requires index < |s.hist|
  {
    match Follow(s.hist, index)
    case Target(t) => Perform(s, t, Resolve(s.hist[t].cmd), env)
    case Refused(msg) => Say(s, msg)
  }

  /** One turn of the main loop: split the line, record it, dispatch it. A
      line without words is ignored. */
  function Step(s: State, line: string, env: Env): State {
    var words := Split(line);
    if words == [] then s
    else Dispatch(s.(hist := s.hist + [FromWords(words)]), |s.hist|, env)
  }

  // ---------------------------------------------------------------------
  // What one dispatch can and cannot do

  /** `byebye` only sets the exit flag. */
  lemma ByeByeOnlySetsExit(s: State, index: nat, env: Env)
    requires index < |s.hist| && s.hist[index].cmd == "byebye"
    ensures Dispatch(s, index, env) == s.(exit := true)
  {
    ResolveIffName("byebye", ByeBye);
    DispatchPerforms(s, index, env);
  }

  /** A command word that names no dispatched kind (`repeat` and `dalekall`
      among them) is reported as unknown, and nothing else changes. */
  lemma UnknownCommandOnlyReports(s: State, index: nat, env: Env)
    requires index < |s.hist| && (Resolve(s.hist[index].cmd) == None || s.hist[index].cmd in ["repeat", "dalekall"])
    ensures Dispatch(s, index, env) == Say(s, UnknownCommand(s.hist[index].cmd))
  {
    UndispatchedNames();
    DispatchPerforms(s, index, env);
  }

  /** A replay either re-dispatches its target in the same state or only
      prints why it refused. */
  lemma ReplayRedispatches(s: State, index: nat, env: Env)
    requires index < |s.hist| && s.hist[index].cmd == "replay"
    ensures CheckReplay(s.hist[index], index, |s.hist| - 1).Target? ==>
              Dispatch(s, index, env) == Dispatch(s, CheckReplay(s.hist[index], index, |s.hist| - 1).index, env)
    ensures CheckReplay(s.hist[index], index, |s.hist| - 1).Refused? ==>
              Dispatch(s, index, env) == Say(s, CheckReplay(s.hist[index], index, |s.hist| - 1).msg)
  {
    ResolveIffName("replay", Replay);
  }

  /** A record that is not a replay is performed directly. */
  lemma DispatchPerforms(s: State, index: nat, env: Env)
    requires index < |s.hist| && Resolve(s.hist[index].cmd) != Some(Replay)
    ensures Dispatch(s, index, env) == Perform(s, index, Resolve(s.hist[index].cmd), env)
  {
    assert Follow(s.hist, index) == Target(index);
  }

  /** A line whose first word is not `replay` is recorded, then performed. */
  lemma StepPerforms(s: State, line: string, env: Env)
    requires Split(line) != [] && Resolve(Split(line)[0]) != Some(Replay)
    ensures Step(s, line, env)
            == Perform(s.(hist := s.hist + [FromWords(Split(line))]), |s.hist|, Resolve(Split(line)[0]), env)
  {
    var s' := s.(hist := s.hist + [FromWords(Split(line))]);
    assert s'.hist[|s.hist|].cmd == Split(line)[0];
    DispatchPerforms(s', |s.hist|, env);
  }

  /** Dispatch only adds to the log, never clears the exit flag, and adds at
      most the one pid `fork` returned. */
  lemma DispatchOnlyExtends(s: State, index: nat, env: Env)
    requires index < |s.hist|
    ensures s.log <= Dispatch(s, index, env).log
    ensures s.exit ==> Dispatch(s, index, env).exit
    ensures Dispatch(s, index, env).pids == s.pids
            || (env.fork.Forked? && Dispatch(s, index, env).pids == s.pids + [env.fork.pid])
  {
    var v := Follow(s.hist, index);
    if v.Target? {
      PerformOnlyExtends(s, v.index, Resolve(s.hist[v.index].cmd), env);
    }
  }

  lemma PerformOnlyExtends(s: State, index: nat, k: Option<Kind>, env: Env)
    requires index < |s.hist| && k != Some(Replay)
    ensures s.log <= Perform(s, index, k, env).log
    ensures s.exit ==> Perform(s, index, k, env).exit
    ensures Perform(s, index, k, env).pids == s.pids
            || (env.fork.Forked? && Perform(s, index, k, env).pids == s.pids + [env.fork.pid])
  {
    var r := s.hist[index];
    match k
    case Some(History) =>
      assert Perform(s, index, k, env) == HistoryCommand(s, r);
    case Some(MoveToDir) =>
      assert Perform(s, index, k, env) == MoveToDirCommand(s, r, env.openDir);
    case Some(Start) =>
      assert Perform(s, index, k, env) == StartCommand(s, index, env.fork);
    case Some(Background) =>
      assert Perform(s, index, k, env) == BackgroundCommand(s, r, env.fork);
    case Some(Dalek) =>
      assert Perform(s, index, k, env) == DalekCommand(s, r);
    case _ =>
  }

  /** The store is either emptied (`history -c`) or keeps its records: same
      number, same commands, same parameter counts; records built from tokens
      stay built from tokens. */
  lemma DispatchHistoryShape(s: State, index: nat, env: Env)
    requires index < |s.hist|
    ensures var t := Dispatch(s, index, env);
            t.hist == [] || (|t.hist| == |s.hist| && forall k :: 0 <= k < |s.hist| ==>
                               t.hist[k].cmd == s.hist[k].cmd && |t.hist[k].params| == |s.hist[k].params|)
    ensures AllWellFormed(s.hist) ==> AllWellFormed(Dispatch(s, index, env).hist)
  {
    var v := Follow(s.hist, index);
    if v.Target? {
      PerformHistoryShape(s, v.index, Resolve(s.hist[v.index].cmd), env);
    }
  }

  lemma PerformHistoryShape(s: State, index: nat, k: Option<Kind>, env: Env)
    requires index < |s.hist| && k != Some(Replay)
    ensures var t := Perform(s, index, k, env);
            t.hist == [] || (|t.hist| == |s.hist| && forall j :: 0 <= j < |s.hist| ==>
                               t.hist[j].cmd == s.hist[j].cmd && |t.hist[j].params| == |s.hist[j].params|)
    ensures AllWellFormed(s.hist) ==> AllWellFormed(Perform(s, index, k, env).hist)
  {
    if k == Some(Start) {
      StartHistoryShape(s, index, env.fork);
    }
  }

  /** `start` keeps every record's command and parameter count, and the
      rewritten path is still a token. */
  lemma StartHistoryShape(s: State, index: nat, fork: ForkResult)
    requires index < |s.hist|
    ensures var t := StartCommand(s, index, fork);
            |t.hist| == |s.hist| && forall j :: 0 <= j < |s.hist| ==>
              t.hist[j].cmd == s.hist[j].cmd && |t.hist[j].params| == |s.hist[j].params|
    ensures AllWellFormed(s.hist) ==> AllWellFormed(StartCommand(s, index, fork).hist)
  {
    var r := s.hist[index];
    if |r.params| > 0 {
      var argv := r.params[0 := StartPath(r.params[0])];
      var hist := s.hist[index := r.(params := argv)];
      assert StartCommand(s, index, fork).hist == hist;
      if AllWellFormed(s.hist) {
        StartKeepsRecordWellFormed(r);
      }
    }
  }

  /** `start` rewrites only the first parameter of its own record, into its
      `./`-prefixed form; every other record and parameter is kept. */
  lemma StartRewritesOwnRecord(s: State, index: nat, fork: ForkResult)
    requires index < |s.hist|
    ensures var t := StartCommand(s, index, fork);
            |t.hist| == |s.hist| && forall j :: 0 <= j < |s.hist| && j != index ==> t.hist[j] == s.hist[j]
    ensures var t := StartCommand(s, index, fork); var r := s.hist[index];
            |r.params| > 0 ==> t.hist[index].cmd == r.cmd && |t.hist[index].params| == |r.params|
                               && t.hist[index].params[0] == StartPath(r.params[0])
                               && t.hist[index].params[1..] == r.params[1..]
    ensures s.hist[index].params == [] ==> StartCommand(s, index, fork).hist == s.hist
  {
    var r := s.hist[index];
    if |r.params| > 0 {
      var argv := r.params[0 := StartPath(r.params[0])];
      assert StartCommand(s, index, fork).hist == s.hist[index := r.(params := argv)];
      assert argv[1..] == r.params[1..];
    }
  }

  lemma StartKeepsRecordWellFormed(r: Record)
    requires WellFormed(r) && |r.params| > 0
    ensures WellFormed(r.(params := r.params[0 := StartPath(r.params[0])]))
  {
    assert r.params[0] in r.params;
    StartPathIsToken(r.params[0]);
    var argv := r.params[0 := StartPath(r.params[0])];
    forall p | p in argv ensures IsToken(p) {
      var i :| 0 <= i < |argv| && argv[i] == p;
      if i > 0 {
        assert r.params[i] in r.params;
      }
    }
  }

  /** The exit flag is only ever set by a `byebye` record. */
  lemma ExitOnlyFromByeBye(s: State, index: nat, env: Env)
    requires index < |s.hist| && !s.exit && Dispatch(s, index, env).exit
    ensures exists k :: 0 <= k <= index && s.hist[k].cmd == "byebye"
  {
    var v := Follow(s.hist, index);
    assert v.Target? && Resolve(s.hist[v.index].cmd) == Some(ByeBye);
  }

  /** The current directory only ever becomes, verbatim, the first parameter
      of a `movetodir` record that `opendir` accepted. */
  lemma DirectoryOnlyFromMoveToDir(s: State, index: nat, env: Env)
    requires index < |s.hist| && Dispatch(s, index, env).cwd != s.cwd
    ensures var dir := Dispatch(s, index, env).cwd;
            env.openDir(dir) == Opened &&
            exists k :: 0 <= k <= index && s.hist[k].cmd == "movetodir" && |s.hist[k].params| > 0 && s.hist[k].params[0] == dir
  {
    var v := Follow(s.hist, index);
    assert v.Target?;
    PerformDirectory(s, v.index, Resolve(s.hist[v.index].cmd), env);
  }

  lemma PerformDirectory(s: State, index: nat, k: Option<Kind>, env: Env)
    requires index < |s.hist| && k != Some(Replay) && Perform(s, index, k, env).cwd != s.cwd
    ensures k == Some(MoveToDir) && |s.hist[index].params| > 0
    ensures Perform(s, index, k, env).cwd == s.hist[index].params[0]
    ensures env.openDir(s.hist[index].params[0]) == Opened
  {
  }

  // ---------------------------------------------------------------------
  // Whole lines

  /** A line that is just `history` is recorded before it runs, so the
      listing it prints starts with itself as offset 0. */
  lemma HistoryListsItselfFirst(s: State, line: string, env: Env)
    requires Split(line) == ["history"]
    ensures Step(s, line, env).log == s.log + Prints(Listing(s.hist + [Record("history", [])]))
    ensures Step(s, line, env).log[|s.log|] == Print("0: history\n")
  {
    var rs := s.hist + [Record("history", [])];
    HistoryWords(s, env);
    assert Listing(rs)[0] == HistoryLine(0, Record("history", []));
  }

  /** The recorded plain `history`. */
  lemma HistoryWords(s: State, env: Env)
    ensures var s' := s.(hist := s.hist + [Record("history", [])]);
            Dispatch(s', |s.hist|, env) == s'.(log := s.log + Prints(Listing(s'.hist)))
  {
    var s' := s.(hist := s.hist + [Record("history", [])]);
    ResolveIffName("history", History);
    DispatchPerforms(s', |s.hist|, env);
  }

  /** `history -c` empties the store and changes nothing else. */
  lemma HistoryClearEmpties(s: State, line: string, env: Env)
    requires Split(line) == ["history", "-c"]
    ensures Step(s, line, env) == s.(hist := [])
  {
    var s' := s.(hist := s.hist + [Record("history", ["-c"])]);
    assert Dispatch(s', |s.hist|, env) == Perform(s', |s.hist|, Some(History), env);
  }

  /** After `history -c`, the next line is recorded as record 0. */
  lemma HistoryClearRestartsAtZero(s: State, line: string, next: string, env: Env, env': Env)
    requires Split(line) == ["history", "-c"] && Split(next) != []
    ensures Step(Step(s, line, env), next, env') == Dispatch(s.(hist := [FromWords(Split(next))]), 0, env')
  {
    HistoryClearEmpties(s, line, env);
    var t := Step(s, line, env);
    var rec := FromWords(Split(next));
    assert t.hist + [rec] == [rec];
    assert t.(hist := t.hist + [rec]) == s.(hist := [rec]);
  }

  /** `replay n` with n at least the number of earlier records prints that the
      number is out of range; apart from the line being recorded, nothing
      else changes. */
  lemma ReplayBeyondHistoryOnlyReports(s: State, line: string, n: string, env: Env)
    requires Split(line) == ["replay", n] && AllDigits(n) && DigitsValue(n) >= |s.hist|
    ensures Step(s, line, env) == Say(s.(hist := s.hist + [Record("replay", [n])]), ReplayOutOfRange)
  {
  }

  /** `movetodir <dir>` to a directory that opens, then `whereami`, prints
      the directory. */
  lemma MoveThenWhereAmI(s: State, dir: string, env: Env)
    requires IsToken(dir) && env.openDir(dir) == Opened
    ensures var t := Step(Step(s, "movetodir " + dir, env), "whereami", env);
            t.cwd == dir && t.log == s.log + [Print(dir + "\n")]
  {
    assert IsToken("movetodir") && IsToken("whereami");
    assert "movetodir " + dir == "movetodir" + [' '] + dir;
    SplitCons("movetodir", ' ', dir);
    SplitToken(dir);
    SplitToken("whereami");
    MoveWords(s, dir, env);
    var t := Step(s, "movetodir " + dir, env);
    WhereWords(t, env);
  }

  /** The recorded `movetodir <dir>` to a directory that opens. */
  lemma MoveWords(s: State, dir: string, env: Env)
    requires env.openDir(dir) == Opened
    ensures var s' := s.(hist := s.hist + [Record("movetodir", [dir])]);
            Dispatch(s', |s.hist|, env) == s'.(cwd := dir)
  {
    var s' := s.(hist := s.hist + [Record("movetodir", [dir])]);
    ResolveIffName("movetodir", MoveToDir);
    DispatchPerforms(s', |s.hist|, env);
  }

  /** The recorded `whereami`. */
  lemma WhereWords(s: State, env: Env)
    ensures var s' := s.(hist := s.hist + [Record("whereami", [])]);
            Dispatch(s', |s.hist|, env) == s'.(log := s.log + [Print(s.cwd + "\n")])
  {
    var s' := s.(hist := s.hist + [Record("whereami", [])]);
    ResolveIffName("whereami", WhereAmI);
    DispatchPerforms(s', |s.hist|, env);
  }

  /** `history` with a first parameter other than `-c` only complains; the
      store keeps every record, the line itself included. */
  lemma HistoryBadFlagOnlyReports(s: State, line: string, env: Env)
    requires |Split(line)| > 1 && Split(line)[0] == "history" && Split(line)[1] != "-c"
    ensures Step(s, line, env) == Say(s.(hist := s.hist + [FromWords(Split(line))]), BadHistoryFlag)
  {
    ResolveIffName("history", History);
    StepPerforms(s, line, env);
    var s' := s.(hist := s.hist + [FromWords(Split(line))]);
    assert s'.hist[|s.hist|] == FromWords(Split(line));
  }

  /** `start prog args...` runs `prog` with a `./` prefix unless it is an
      absolute path, waits for it, and keeps the prefixed name in the
      recorded line. */
  lemma StartRunsPrefixedProgram(s: State, line: string, env: Env)
    requires |Split(line)| > 1 && Split(line)[0] == "start" && env.fork.Forked?
    ensures var argv := [StartPath(Split(line)[1])] + Split(line)[2..];
            Step(s, line, env) == s.(hist := s.hist + [Record("start", argv)], log := s.log + [Exec(argv, true)])
  {
    StartWords(s, Split(line), env);
  }

  /** The same, for the words of the line once they are split. */
  lemma StartWords(s: State, words: seq<string>, env: Env)
    requires |words| > 1 && words[0] == "start" && env.fork.Forked?
    ensures var argv := [StartPath(words[1])] + words[2..];
            Dispatch(s.(hist := s.hist + [FromWords(words)]), |s.hist|, env)
            == s.(hist := s.hist + [Record("start", argv)], log := s.log + [Exec(argv, true)])
  {
    var s' := s.(hist := s.hist + [FromWords(words)]);
    var i := |s.hist|;
    var r := s'.hist[i];
    assert r == Record("start", words[1..]);
    ResolveIffName("start", Start);
    DispatchPerforms(s', i, env);
    var argv := r.params[0 := StartPath(r.params[0])];
    assert argv == [StartPath(words[1])] + words[2..];
    assert s'.hist[i := r.(params := argv)] == s.hist + [Record("start", argv)];
  }

  /** `dalek pid` sends the kill only when the argument is all digits and
      fits in `pid_t`; otherwise it only complains. */
  lemma DalekNeedsDigits(s: State, line: string, pid: string, env: Env)
    requires Split(line) == ["dalek", pid]
    ensures var s' := s.(hist := s.hist + [Record("dalek", [pid])]);
            Step(s, line, env) == if AllDigits(pid) && DigitsValue(pid) <= INT_MAX then s'.(log := s.log + [Kill(DigitsValue(pid))])
                                  else Say(s', BadPid)
  {
    ResolveIffName("dalek", Dalek);
    StepPerforms(s, line, env);
    var s' := s.(hist := s.hist + [FromWords(Split(line))]);
    assert s'.hist[|s.hist|] == Record("dalek", [pid]);
  }

  /** `movetodir` to a path that does not exist reports it and leaves the
      current directory as it was. */
  lemma MoveToMissingDirectoryKeepsCwd(s: State, line: string, dir: string, env: Env)
    requires Split(line) == ["movetodir", dir] && env.openDir(dir) == NoSuchDirectory
    ensures Step(s, line, env).cwd == s.cwd
    ensures Step(s, line, env).log == s.log + [Report(DirectoryDoesNotExist(dir))]
  {
    ResolveIffName("movetodir", MoveToDir);
    StepPerforms(s, line, env);
    var s' := s.(hist := s.hist + [FromWords(Split(line))]);
    assert s'.hist[|s.hist|] == Record("movetodir", [dir]);
  }

  /** `background prog ...` with a successful fork runs the program, prints
      the child's pid and records it. */
  lemma BackgroundRegistersPid(s: State, line: string, env: Env)
    requires |Split(line)| > 1 && Split(line)[0] == "background" && env.fork.Forked?
    ensures Step(s, line, env).pids == s.pids + [env.fork.pid]
    ensures Step(s, line, env).log == s.log + [Exec(Split(line)[1..], false), Print(Itoa(env.fork.pid) + "\n")]
  {
    ResolveIffName("background", Background);
    StepPerforms(s, line, env);
    var s' := s.(hist := s.hist + [FromWords(Split(line))]);
    assert s'.hist[|s.hist|] == Record("background", Split(line)[1..]);
  }

  /** Every record the store holds was built from tokens, line after line. */
  lemma StepKeepsRecordsWellFormed(s: State, line: string, env: Env)
    requires AllWellFormed(s.hist)
    ensures AllWellFormed(Step(s, line, env).hist)
  {
    var words := Split(line);
    if words != [] {
      TokensAreTokens(line, 0);
      assert words[0] in words;
      var hist := s.hist + [FromWords(words)];
      assert WellFormed(FromWords(words)) by {
        forall p | p in words[1..] ensures IsToken(p) {
          assert p in words;
        }
      }
      assert AllWellFormed(hist) by {
        forall k | 0 <= k < |hist| ensures WellFormed(hist[k]) {
          if k < |s.hist| { assert hist[k] == s.hist[k]; }
        }
      }
      DispatchHistoryShape(s.(hist := hist), |s.hist|, env);
    }
  }
}

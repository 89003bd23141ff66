# mysh — a verified model of a minimal C shell

`mysh.c` is an interactive shell in one C file. It reads a line, splits it into
words (`string_parser`), appends the words to an in-memory history
(`pushHistory`) and dispatches the newest record (`run`) on a short-lived thread.
The built-ins are:

- `byebye` ends the loop and saves the history to `history.txt`;
- `history` lists the store, and `history -c` clears it;
- `whereami` and `movetodir` read and set the shell's own current directory;
- `replay n` re-runs the record `n` places back;
- `start` and `background` run a program, in the foreground and in the background;
- `dalek` kills a process.

At start-up the history is read back from `history.txt` (`getHistory`).

The model has six modules, one file each:

| file | module | models |
|---|---|---|
| `text.dfy` | `Text` | `isspace`, C strings (the NUL terminator), the whitespace split as a pure function (`Split`), `%d` rendering (`Itoa`) digit-string reading (`DigitsValue`, `ParseNat`), and `atoi` at the width of `int` (`Atoi`) |
| `tokenizer.dfy` | `Tokenizer` | `string_parser` as methods with loops: the counting pass and the copying pass, proved equal to `Split` |
| `records.dfy` | `Records` | `struct HISTORY` as the value `Record(cmd, params)` and the text `printHistory` prints (`Listing`) |
| `history_file.dfy` | `HistoryFile` | the text format of `writeHistory`/`getHistory` as encode/decode functions, with the round trip proved |
| `commands.dfy` | `Commands` | the specification of one input line. `State` holds the globals as values, `Env` the answers of the operating system, and `Step`/`Dispatch`/`Perform` the behaviour of `run` and the built-ins. Lemmas cover what one line can and cannot do, and the findings about `replay` and `dalek` |
| `shell.dfy` | `Mysh` | the globals as the class `Shell`: the `hist` array with `IDX`, `EXIT`, `currentdir`, and `running` with `pidSIZE`/`pidLAST`. Its methods mirror the C functions that update them in place, and each is proved against `Commands` through `Abs()` |

The model makes these choices:

- **Output and requests to the operating system.** What the shell prints, and the requests it makes to the operating system, are one log of `Effect`s:
  - `Print` for listing and `whereami` text and the pid that `background` prints;
  - `Report` for a diagnostic (`Wording` gives its exact text);
  - `Exec` for a program handed to `execvp`;
  - `Kill` for the `SIGKILL` of `dalek`.
- **Operating-system answers.** What `opendir`/`errno` and `fork` answer is a parameter (`Env`).
- **The history file.** The file's contents are a parameter of the constructor, and `WriteHistory` returns the text it would write.

## Model

| member | source | states |
|---|---|---|
| Text.TokensFrom | mysh.c:414-419 | the maximal runs of word characters from a position on, in input order; no ensures of its own, its properties are the lemmas below |
| Text.Split | mysh.c:409-450 | the words `string_parser` stores; specified by `TokensAreTokens`, `SplitKeepsOrder`, `SplitEmptyIffBlank` and `SplitJoin` |
| Text.DigitsValue | mysh.c:181 | the value of a digit string, read left to right, without a width; `ItoaRoundTrip` fixes it as the inverse of `Itoa` |
| Text.Wrap32 | mysh.c:181 | the low 32 bits of a number in two's complement: within the range of `int`, congruent to the number modulo 2^32, and the number itself when it fits |
| Text.Atoi | mysh.c:181 | `atoi` into an `int`: always within the range of `int`, and the digits' value when that fits |
| Text.AtoiWraps | mysh.c:181 | 4294967295 is read as -1 and 4294967296 as 0 |
| Text.Terminator | mysh.c:414 | the end of the C string: the first NUL at or after a position, with no NUL before it |
| Text.WordEnd | mysh.c:418 | the end of a word is the first whitespace or terminator after its start, and every character before it is a word character |
| Text.TokensAreTokens | mysh.c:409-450 | every word the split yields is non-empty and free of whitespace and NUL |
| Text.SplitKeepsOrder | mysh.c:409-450 | concatenating the words gives exactly the non-whitespace characters of the input, in input order (checked against the independent definition `Squeeze`) |
| Text.SplitEmptyIffBlank | mysh.c:414-421 | there are no words exactly when the C string holds only whitespace |
| Text.SplitJoin | mysh.c:409-450 | splitting words that were joined with single spaces gives the words back |
| Text.SplitSnocSpace | mysh.c:90-93 | a trailing newline (as `getline` leaves it) does not change the words |
| Text.Itoa | mysh.c:338 | `%d` of a number is a non-empty digit string without leading zeros |
| Text.ItoaRoundTrip | mysh.c:181 | `atoi` of a rendered number is the number itself |
| Text.ItoaIsToken | mysh.c:338 | a rendered number is a single word |
| Text.ParseNat | mysh.c:300 | the model's reading of a `%d` field: a value exactly when the field is a non-empty string of unsigned digits (narrower than `%d`; see Left out) |
| Text.ParseItoa | mysh.c:300-308 | reading a written number gives that number |
| Tokenizer.SkipSpaces | mysh.c:416 | skipping whitespace stops on a non-space and loses no word |
| Tokenizer.SkipWord | mysh.c:418 | the word loop stops at the end of the word |
| Tokenizer.CountWords | mysh.c:411-419 | the first pass counts exactly the words of the input, and the count is 0 exactly when the input is blank |
| Tokenizer.CopyWords | mysh.c:421-447 | the second pass fills a fresh array with exactly the words, in order |
| Tokenizer.StringParser | mysh.c:409-450 | returns the number of words, and an array only when there is at least one word, holding exactly the words |
| Records.FromWords | mysh.c:363-374 | the record's command followed by its parameters is the word array |
| Records.Listing | mysh.c:389-406 | "No history to print." when the store is empty. Otherwise one line per record, newest first, where line k shows offset k and the record k places before the newest |
| Records.ParamsTextJoin | mysh.c:398-401 | a command followed by its printed parameters is the words joined by single spaces |
| Records.HistoryLineReparses | mysh.c:398-402 | a printed history line, split again, is its offset tag followed by exactly the record's command and parameters |
| HistoryFile.DecodeParams | mysh.c:318-323 | decoding k parameters yields k of them, taken from the fields, and consumes at least 2k fields |
| HistoryFile.DecodeRecord | mysh.c:306-324 | a decoded record's words come from the fields, and at least three fields are consumed |
| HistoryFile.DecodeRecords | mysh.c:306-324 | decoding `count` records yields exactly `count` records |
| HistoryFile.RecordLine | mysh.c:338-344 | one line of the file; stated by `SplitRecordLine` and `Mysh.WriteRecord` |
| HistoryFile.Save | mysh.c:331-349 | the whole file `writeHistory` writes; stated by `LoadSave` and `Mysh.Shell.WriteHistory` |
| HistoryFile.DecodeTokens | mysh.c:298-326 | the count field, then that many records; stated by `DecodeEncode` and `LoadedRecordsWellFormed` |
| HistoryFile.Load | mysh.c:289-329 | what `getHistory` recovers from the file's text; stated by `LoadSave` |
| HistoryFile.ParamsLineSnoc | mysh.c:340-342 | appending a parameter appends its ` len text` piece to the line |
| HistoryFile.RecordLinesSnoc | mysh.c:337-345 | appending a record appends its line to the file body |
| HistoryFile.DecodeParamTokens | mysh.c:318-323 | the parameter fields decode back to the parameters, leaving the rest untouched |
| HistoryFile.DecodeRecordTokens | mysh.c:306-324 | one record's fields decode back to the record |
| HistoryFile.DecodeRecordsTokens | mysh.c:306-324 | the fields of any records decode back to those records |
| HistoryFile.DecodeEncode | mysh.c:300-326 | the count and record fields decode back to the same records, for any records |
| HistoryFile.SplitParamsLine | mysh.c:340-344 | a line's parameter part splits into its length/text fields |
| HistoryFile.SplitParamText | mysh.c:341 | one parameter piece splits into its length field and its text |
| HistoryFile.SplitRecordLine | mysh.c:338-344 | one written line splits into exactly that record's fields |
| HistoryFile.SplitRecordLines | mysh.c:337-345 | the file body splits into the fields of all records, in order |
| HistoryFile.LoadSave | mysh.c:289-349 | reading back what `writeHistory` wrote gives the same records, and so the same `IDX`, when every word is a token |
| HistoryFile.LoadedRecordsWellFormed | mysh.c:306-324 | whatever is loaded consists of tokens only |
| HistoryFile.DecodedFromTokens | mysh.c:306-324 | records decoded from tokens have token words |
| Commands.Ordinal | mysh.c:25-42 | the `enum` value of each kind indexes its own `LOOKUP` entry |
| Commands.LookupNames | mysh.c:31-42 | the `LOOKUP` entry of each kind carries that kind's name |
| Commands.Resolve | mysh.c:116-131 | a command word resolves only to a dispatched kind whose name it is |
| Commands.ResolveIffName | mysh.c:116-134 | a word resolves to a kind if and only if that kind is dispatched and the word is its name |
| Commands.UndispatchedNames | mysh.c:40-41 | `repeat` and `dalekall` are in the table but resolve to nothing |
| Commands.CheckReplayAsWritten | mysh.c:168-188 | the checks of `replayCommand` as written, with `atoi` at the width of `int`; its behaviour is stated by the lemmas that follow |
| Commands.ReplayAsWrittenWraps | mysh.c:181-188 | as written, `replay 4294967295` names the replaying record itself and `replay 4294967296` the one before it, while the completed check refuses both as out of range |
| Commands.ReplayAsWrittenReachesMinusOne | mysh.c:181-188 | with the range check as written, `replay n` issued when `IDX` is n targets record -1 |
| Commands.CheckReplay | mysh.c:168-188 | a replay is accepted if and only if its argument is present, all digits, at most `IDX` and below the replaying index. An accepted target is `index - n - 1`, in range and below `index`. The missing and non-digit cases give their own messages |
| Commands.ReplayFixOnlyRejectsMissingRecords | mysh.c:181-188 | with `IDX` in the range of `int`, the completed check differs from the written one exactly where the written one names a record before record 0 or reads a number wider than `int`, and there it reports out of range |
| Commands.StartPath | mysh.c:198-199 | a name starting with `/` is kept. Any other name gets `./` in front and is otherwise unchanged |
| Commands.StartPathIsToken | mysh.c:198-199 | the prefixed name is still a single word |
| Commands.HistoryCommand | mysh.c:137-148 | the new state after `history`: `-c` empties the store, another first parameter only complains, none appends the listing; stated by `HistoryClearEmpties`, `HistoryBadFlagOnlyReports`, `HistoryListsItselfFirst` and `Mysh.Shell.HistoryCommand` |
| Commands.MoveToDirCommand | mysh.c:150-166 | the new state after `movetodir`; stated by `DirectoryOnlyFromMoveToDir`, `MoveToMissingDirectoryKeepsCwd` and `MoveThenWhereAmI` |
| Commands.StartCommand | mysh.c:191-205 | the new state after `start`; stated by `StartHistoryShape`, `StartRewritesOwnRecord` and `StartRunsPrefixedProgram` |
| Commands.BackgroundCommand | mysh.c:217-235 | the new state after `background`; stated by `BackgroundRegistersPid` and `DispatchOnlyExtends` |
| Commands.DalekCommand | mysh.c:237-250 | the new state after `dalek`, refusing a number wider than `pid_t` (see Findings); stated by `DalekNeedsDigits` and `DalekFixOnlyRejectsWideNumbers` |
| Commands.DalekCommandAsWritten | mysh.c:237-250 | `dalekCommand` as written, with `atoi` at the width of `pid_t`; stated by the two lemmas that follow |
| Commands.DalekAsWrittenKillsEveryProcess | mysh.c:242-252 | as written, `dalek 4294967295` sends `SIGKILL` to process -1, that is to every process the user may signal |
| Commands.DalekFixOnlyRejectsWideNumbers | mysh.c:242-252 | the completed check differs from the written one exactly on all-digit arguments wider than `pid_t`, and there it only prints "Please enter a valid PID." |
| Commands.Perform | mysh.c:116-134 | the branches of `run` other than `replay`; stated by `PerformOnlyExtends`, `PerformHistoryShape`, `PerformDirectory` and `Mysh.Shell.RunBuiltin` |
| Commands.Dispatch | mysh.c:113-135 | `run(index)` on a state value; stated by `ByeByeOnlySetsExit`, `UnknownCommandOnlyReports`, `ReplayRedispatches`, `DispatchOnlyExtends`, `ExitOnlyFromByeBye` and `Mysh.Shell.Run` |
| Commands.Step | mysh.c:90-96 | one turn of the main loop: split, record, dispatch; stated by `StepPerforms`, the whole-line lemmas and `Mysh.Shell.HandleLine` |
| Commands.Follow | mysh.c:124-125 | following replays ends on an existing record that is not a replay, at or before the start; a refusal comes only from a replay |
| Commands.ByeByeOnlySetsExit | mysh.c:116-117 | `byebye` sets the exit flag and changes nothing else |
| Commands.UnknownCommandOnlyReports | mysh.c:132-134 | an unmatched word, `repeat` and `dalekall` included, only prints "does not exist" |
| Commands.ReplayRedispatches | mysh.c:168-189 | a replay either runs its target in the same state or only prints its refusal |
| Commands.DispatchPerforms | mysh.c:113-134 | a record that is not a replay is performed directly |
| Commands.StepPerforms | mysh.c:93-96 | a line is recorded first and then performed |
| Commands.DispatchOnlyExtends | mysh.c:113-134 | dispatch only appends to the output, never clears the exit flag, and adds at most the pid `fork` returned |
| Commands.PerformOnlyExtends | mysh.c:116-134 | the same for each built-in |
| Commands.DispatchHistoryShape | mysh.c:113-134 | the store is either emptied or keeps every record's command and parameter count, and records built from tokens stay so |
| Commands.PerformHistoryShape | mysh.c:116-134 | the same for each built-in |
| Commands.StartHistoryShape | mysh.c:198-199 | `start` keeps every record's command and parameter count, and records made of tokens stay so |
| Commands.StartRewritesOwnRecord | mysh.c:198-199 | `start` changes no other record. Its own record keeps its command and later parameters, and the first parameter becomes its `./`-prefixed form. A record without parameters leaves the store as it was |
| Commands.StartKeepsRecordWellFormed | mysh.c:198-199 | the rewritten record still consists of tokens |
| Commands.ExitOnlyFromByeBye | mysh.c:116-117 | the exit flag is only ever set by a `byebye` record |
| Commands.DirectoryOnlyFromMoveToDir | mysh.c:156-160 | the current directory only changes to the verbatim argument of a `movetodir` record that `opendir` accepted |
| Commands.PerformDirectory | mysh.c:156-160 | the same for a single built-in |
| Commands.HistoryListsItselfFirst | mysh.c:93-96 | a plain `history` line lists the store including itself, and its first line is `0: history` |
| Commands.HistoryWords | mysh.c:145-146 | a recorded plain `history` appends the listing of the store and does nothing else |
| Commands.HistoryClearEmpties | mysh.c:137-141 | `history -c` empties the store and changes nothing else |
| Commands.HistoryClearRestartsAtZero | mysh.c:141 | after `history -c` the next line becomes record 0 |
| Commands.HistoryBadFlagOnlyReports | mysh.c:142-144 | `history` with another first parameter only complains, and the store keeps every record |
| Commands.ReplayBeyondHistoryOnlyReports | mysh.c:183-186 | `replay n` with n at least the number of earlier records only reports out of range |
| Commands.MoveThenWhereAmI | mysh.c:120-123 | `movetodir d` to an openable directory followed by `whereami` prints `d` |
| Commands.MoveWords | mysh.c:156-160 | a recorded `movetodir d` to an openable directory sets the current directory to `d` and does nothing else |
| Commands.WhereWords | mysh.c:120-121 | a recorded `whereami` prints the current directory and does nothing else |
| Commands.MoveToMissingDirectoryKeepsCwd | mysh.c:161-162 | `movetodir` to a missing directory reports it and keeps the current directory |
| Commands.StartRunsPrefixedProgram | mysh.c:191-205 | `start prog args` runs the prefixed program with its arguments, waits for it, and keeps the prefixed name in the recorded line |
| Commands.StartWords | mysh.c:191-205 | the same, for the line's words |
| Commands.DalekNeedsDigits | mysh.c:237-252 | `dalek pid` sends the kill exactly when the argument is all digits and fits in `pid_t`, and otherwise only complains |
| Commands.BackgroundRegistersPid | mysh.c:217-234 | `background prog` with a successful fork runs the program, prints the child's pid and records it |
| Commands.StepKeepsRecordsWellFormed | mysh.c:93-96 | every record in the store consists of tokens, line after line |
| Mysh.IsNumber | mysh.c:173-178 | the digit loop accepts exactly the all-digit strings |
| Mysh.Realloc | mysh.c:283 | the grown array starts with the old contents |
| Mysh.WriteRecord | mysh.c:338-344 | the loop writes exactly the record's line of the file format |
| Mysh.Shell.constructor | mysh.c:75-79 | start-up state: the loaded records, or an empty store of capacity `SIZE`. A loaded store has capacity `(count + 1) * 2` and `IDX = count - 1`, and its records are made of tokens. No pids, exit flag clear, current directory from `getcwd` |
| Mysh.Shell.PushHistory | mysh.c:351-377 | for the words of a line (tokens, as `string_parser` returns them), `IDX` grows by one, the new last record is built from the words, earlier records are unchanged, the array grows to `(capacity + 1) * 2` when full, and `-1 <= IDX < capacity` is kept along with a store made of tokens |
| Mysh.Shell.PrintHistory | mysh.c:389-406 | the nested loops print exactly `Listing` of the store |
| Mysh.Shell.HistoryCommand | mysh.c:137-148 | the new state is `Commands.HistoryCommand` of the old one |
| Mysh.Shell.MovetodirCommand | mysh.c:150-166 | the new state is `Commands.MoveToDirCommand` of the old one |
| Mysh.Shell.ReplayCommand | mysh.c:168-189 | with the completed range check of the Findings, an accepted replay leaves the state that dispatching the target gives, and a refused one only prints its message |
| Mysh.Shell.StartCommand | mysh.c:191-205 | the new state is `Commands.StartCommand` of the old one |
| Mysh.Shell.SetRecord | mysh.c:199 | writing one cell replaces exactly that record and keeps the rest of the state |
| Mysh.Shell.BackgroundCommand | mysh.c:217-235 | the new state is `Commands.BackgroundCommand` of the old one |
| Mysh.Shell.DalekCommand | mysh.c:237-250 | the new state is `Commands.DalekCommand` of the old one, which refuses a number too wide for `pid_t` |
| Mysh.Shell.Emit | mysh.c:121 | a write to standard output appends one effect and changes nothing else |
| Mysh.Shell.MakeRoom | mysh.c:278-284 | after the allocation step there is a free slot after `pidLAST`. Capacity becomes 10 on first use, doubles when full and otherwise stays, and the pids in use are the same |
| Mysh.Shell.PushPID | mysh.c:277-287 | the pid is appended after the earlier ones and `pidLAST` grows by one. Capacity becomes 10 on first use, doubles when full and otherwise stays, and `pidLAST < pidSIZE` is kept |
| Mysh.Shell.Run | mysh.c:113-135 | the new state is `Commands.Dispatch` of the old one |
| Mysh.Shell.RunBuiltin | mysh.c:116-134 | the new state is `Commands.Perform` of the old one, for each non-replay branch |
| Mysh.Shell.HandleLine | mysh.c:90-96 | one turn of the main loop leaves the state `Commands.Step` gives |
| Mysh.Shell.WriteHistory | mysh.c:331-349 | the text written is `Save` of the store, and loading it gives back exactly the store's records |

## Left out

- Process management is not modelled: `fork`, `execvp`, the `waitpid`/`sleep` polling loops, and the `kill` call and its result. Starting a program is one `Exec` effect, sending a signal one `Kill` effect, and `fork`'s answer is a parameter.
- `Commands.DalekCommand` stops at the `Kill` request. It does not print "Process %d not found." when `kill` fails with `ESRCH`, and it does not model the wait loop or its messages.
- `Commands.StartCommand` stops at the `Exec` request. It does not model the "Failed to wait()." message.
- `runChild` runs `run` on a thread that is joined at once. It is modelled as a direct call.
- Terminal and file I/O are parameters: `getline`, the `# ` prompt, `fopen`/`fscanf`/`fprintf`. The history file's text is given to the constructor, and `WriteHistory` returns the text it writes.
- `main`'s loop `while(!EXIT)` and the final `writeHistory`/`freeHistory` are not modelled as a loop; one turn is `Mysh.Shell.HandleLine`.
- `opendir`/`errno` become `Env.openDir`, an arbitrary function.
- `Mysh.Shell.HandleLine` ignores a line with no words. In the source, `pushHistory` is called with zero words: the unsigned `n--` wraps around and `word_array[0]` is read from a NULL array.
- `Mysh.Shell.constructor` falls back to an empty store when `HistoryFile.Load` rejects the file's fields. For some of those files `getHistory` reads numbers the model refuses (see `Text.ParseNat`); for others (a missing field, a word where a number belongs) it leaves variables unset and reads indeterminate values. `HistoryFile.Load` ignores the length fields, which the source uses only to size buffers.
- `Text.ParseNat` accepts only a non-empty string of unsigned digits. `fscanf("%d")` also accepts a leading sign (`+3`, `-3`) and reads the leading digits of a field such as `3x`; on such fields the model's `Load` gives None where the source reads a number. Files written by `writeHistory` contain only unsigned digit fields, so the round trip is unaffected.
- A Dafny `char` stands for one byte of a C string. `strlen` counts bytes, and the model's `|p|` counts `char`s, so the two agree only under that reading; multi-byte encodings are not modelled.
- `Text.DigitsValue` is the unbounded value of a digit string. The width of `atoi` is modelled separately, by `Text.Atoi` at the glibc behaviour on a 64-bit platform (ISO C leaves an out-of-range `atoi` undefined). `Commands.CheckReplay` and `Commands.DalekCommand`, the completed checks that the rest of the model uses, work with the unbounded value and refuse numbers too wide for `int` (see Findings).
- `Mysh.Shell.PushHistory` grows the array whenever `IDX` reaches its capacity. The source grows it only when `IDX == SIZE` and never updates `SIZE`, so after the first growth it writes past the array. The model follows the evident intent, as for the other memory faults below.
- The `strlen`-sized `malloc`s that lack room for the terminator are memory faults. The model keeps the intended contents. This covers the command and parameters in `pushHistory` and `getHistory`, and `currentdir` in `movetodirCommand`.
- `Commands.StartPath`: the source writes the `./` prefix with `strcat` onto a string literal, which is undefined behaviour. The model stores the intended prefixed name in the record.
- The parameter array passed to `execvp` is not NULL-terminated in the source. The model passes the parameters as a sequence.
- `EXIT` is a pointer that `main` overwrites with 0, so `run` stores 1 into a pointer variable. The model uses a boolean flag.
- `freeHistory` (it loops to `SIZE`, not `IDX`) and every `free` are not modelled.
- `history -c` sets `IDX` to -1 without freeing the old records. The model drops them from the store. Their array cells are not observable afterwards.

## Findings

| source | as written | input that shows it | evidently intended | confidence | as-written member | corrected member |
|---|---|---|---|---|---|---|
| mysh.c:183-188 | `replay n` is refused only when `n > IDX`, then `run(index - n - 1)` | a fresh shell without a history file and the line `replay 0`: the line becomes record 0 (`IDX` = 0), `0 > 0` fails, and record -1 is dispatched | also refuse when `n >= index`, so that the target is an existing earlier record | high, not executed | Commands.ReplayAsWrittenReachesMinusOne | Commands.CheckReplay |
| mysh.c:173-188 | the digit loop accepts any number of digits, and `atoi` reads them into an `int` | `replay 4294967295`: `atoi` gives -1 (glibc, 64-bit), `-1 > IDX` fails, and `run(index)` runs the same replay again until the stack overflows | refuse a number beyond the history, however wide, as out of range | medium (depends on the C library's out-of-range `atoi`), not executed | Commands.ReplayAsWrittenWraps | Commands.CheckReplay |
| mysh.c:242-252 | the digit loop accepts any number of digits, and `atoi` reads them into a `pid_t` | `dalek 4294967295`: `atoi` gives -1 (glibc, 64-bit), and `kill(-1, SIGKILL)` kills every process the user may signal | refuse a number too wide for `pid_t` as an invalid PID | medium (depends on the C library's out-of-range `atoi`), not executed | Commands.DalekAsWrittenKillsEveryProcess | Commands.DalekCommand |

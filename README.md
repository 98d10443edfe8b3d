# tsh job control, modelled in Dafny

`tsh.c` is a small Unix shell with job control. It reads a command line,
splits it into arguments, runs the built-in commands `quit`, `jobs`, `bg`
and `fg` itself, and forks every other command as a foreground or a
background job. The shell keeps a job list: sixteen slots, each holding a
pid, a job id, a state (foreground, background, stopped) and the command
line, plus a counter that hands out job ids. Signal handlers keep the list
up to date. The SIGCHLD handler deletes jobs that ended and marks stopped
ones. The SIGINT and SIGTSTP handlers forward ctrl-c and ctrl-z to the
foreground job's process group. Inside handlers the shell prints through
`sio_putl`, which turns a `long` into text in a local buffer.

The model is five modules:

- `Options` (options.dfy): the `Option` type.
- `Sio` (sio.dfy): `sio_strlen`, `sio_reverse`, `sio_ltoa` and `sio_putl`.
  - They are array methods over a `char` buffer.
  - `Digits`, `LsDigits` and `Text` specify the text, and `ParseText` reads it back.
- `JobTable` (jobtable.dfy): the job list.
  - The pure part is the `Table` value and the functions `Add`, `Delete`, `WithState`, `JobWithPid`, `JobWithJid`, `Pid2Jid`, `FgPid`, `MaxJid` and `Listing`.
  - The class `Jobs` holds the `array<Job>` and `nextjid` that the helpers update in place.
- `CommandLine` (cmdline.dfy): `parseline`.
  - As an array method, it walks a NUL-terminated copy of the line and writes `'\0'` over each delimiter.
  - `Parse` and `TokensFrom` specify it.
- `Control` (control.dfy): the job-control decisions, taken out of their process context:
  - `sigchld_handler` as events applied to the job list;
  - `do_bgfg` and `builtin_cmd`;
  - `std_sig_handler`;
  - the parent side of `eval`.

Process-level actions are returned as `Effect` values: `kill` becomes `SendSignal`, `waitfg` becomes `AwaitForeground`, and `exit` becomes `Exit`. Printed text is returned as a string.

Each imperative routine of the source is a method proved against a
specification function. The properties the shell relies on are lemmas
about those functions. They include:

- first-free-slot placement;
- counter wrap and compaction;
- "nothing else changes";
- the digit round trip;
- the tokenizer's result on ordinary input;
- the table invariants every event and command keeps.

In a few places the code does less than a reader of the shell would expect; the model follows the code:

- Job ids are expected to be unique among live jobs, but they are not. The counter wraps to 1 while job 1 may still be alive. `JobTable.JobIdsMayRepeat` shows this: from the initial table, fifteen adds, one delete and two more adds leave two live jobs with job id 1. `getjobjid` then finds the lower slot, and so does `JobTable.JobWithJid`.
- A successful `fg` might be expected to print the job, but the code prints nothing; only `bg` prints the `[jid] (pid) cmdline` line. `Control.Move` does the same.
- `do_bgfg` sets the state before it sends SIGCONT. The model records the new state and the `SendSignal` effect together.
- A job id below 1 is not a special case: `getjobjid` returns NULL for it, so "No such job" is printed.

## Model

| member | source | states |
|---|---|---|
| Sio.StrLen | tsh.c:194-202 | returns the index of the first `'\0'`: that cell holds `'\0'` and no cell before it does |
| Sio.Reverse | tsh.c:210-220 | the C string is reversed in place; the terminator and everything after it stay put |
| Sio.EmitDigits | tsh.c:240-242 | the do-while loop writes the digits of `n` least significant first, as many as `Digits` has, and leaves the rest of the buffer alone |
| Sio.Ltoa | tsh.c:232-249 | the buffer holds `Text(v, b)` (a `'-'` exactly when `v < 0`, then the digits of `|v|`) followed by `'\0'`, and the rest of the buffer is unchanged; `LONG_MIN` is excluded |
| Sio.PutLong | tsh.c:223-229 | the text written is `Decimal(v)`, and it parses back to `v` |
| Sio.Digits | tsh.c:240-242 | at least one digit, every digit below the base, no leading zero except for 0 itself |
| Sio.Text | tsh.c:235-248 | its length is the digit count plus one for a sign; it starts with `'-'` exactly when `v < 0` |
| Sio.CLen | tsh.c:194-202 | the index of the first `'\0'` of a sequence that contains one |
| Sio.ReversedLsDigits | tsh.c:240-248 | reversing what the loop emits gives the digits in reading order |
| Sio.DigitsRoundTrip | tsh.c:240-242 | reading the emitted digits back (Horner) gives the number |
| Sio.TextRoundTrip | tsh.c:232-249 | `ParseText(Text(v, b), b) == v` for every `v` |
| Sio.TextInjective | tsh.c:232-249 | two different values never get the same text |
| Sio.DigitsBound | tsh.c:240-242 | a number below `b^k` has at most `k` digits |
| Sio.DecimalFitsLong | tsh.c:225-227 | every `long` except `LONG_MIN` takes at most 20 characters, so `sio_putl`'s 128-byte buffer suffices |
| Sio.SignedReversal | tsh.c:244-248 | the digits and the sign, reversed, are exactly `Text(v, b)`, and contain no `'\0'` |
| Sio.ReversedLayout | tsh.c:247-248 | terminating and then reversing the emitted characters leaves the text, `'\0'`, and the untouched rest of the buffer |
| Sio.MirroredIsReversed | tsh.c:215-219 | the swap loop's final state is the reversal of the string followed by the unchanged rest |
| JobTable.Initial | tsh.c:54 | the starting table has every slot free with the counter at 1; it is well formed with distinct pids |
| JobTable.FindFrom | tsh.c:710-711 | the scan returns the lowest matching index at or after `i`, or none when no slot matches |
| JobTable.JobWithPid | tsh.c:759-772 | none for `pid < 1` or when no slot holds `pid`; otherwise the lowest slot holding it |
| JobTable.JobWithJid | tsh.c:774-788 | none for `jid < 1` or when no slot holds `jid`; otherwise the lowest slot holding it |
| JobTable.Pid2Jid | tsh.c:790-804 | 0 when no job holds `pid`; otherwise that job's id, which is at least 1 in a well-formed table |
| JobTable.FgPid | tsh.c:747-757 | 0 exactly when no slot is in the foreground; otherwise the pid of a foreground slot |
| JobTable.MaxJidBelow | tsh.c:690-701 | the largest job id among the first `n` slots, or 0 when they hold none: an upper bound that some slot attains |
| JobTable.Add | tsh.c:703-726 | succeeds exactly when `pid >= 1` and some slot is free; on failure the table is unchanged |
| JobTable.AddMessage | tsh.c:724 | addjob prints its complaint exactly when a valid pid finds no free slot |
| JobTable.Delete | tsh.c:728-745 | succeeds exactly when some job holds `pid` (with `pid >= 1`); on failure the table and counter are unchanged |
| JobTable.WithState | tsh.c:536-545 | `job->state = st`: slot `i` gets the state; pids, job ids, the counter and every other slot are unchanged |
| JobTable.JobLine | tsh.c:811-829 | a free slot prints nothing, and an occupied one prints a line |
| JobTable.ListingEmpty | tsh.c:806-831 | listjobs prints nothing exactly when every slot is free |
| JobTable.AddFillsLowestFree | tsh.c:710-721 | with `pid >= 1`, the lowest free slot gets exactly `(pid, old nextjid, state, cmdline)`, the counter advances and wraps above 16, and no other slot changes |
| JobTable.AddKeepsWellFormed | tsh.c:703-726 | adding keeps every slot either fully cleared or holding a positive pid and job id |
| JobTable.AddKeepsDistinct | tsh.c:703-726 | adding a pid no job holds keeps pids distinct |
| JobTable.AddThenFind | tsh.c:703-804 | after adding a new pid, getjobpid finds it in the slot that was lowest free, and pid2jid gives the old counter |
| JobTable.AddThenDelete | tsh.c:703-745 | deleting a job just added restores every slot; the counter becomes the largest remaining job id plus one |
| JobTable.DeleteClearsLowest | tsh.c:737-741 | the lowest slot holding `pid` is cleared to `(0, 0, UNDEF, "")`, and no other slot changes |
| JobTable.DeleteCounter | tsh.c:740 | after a deletion the counter is one above the largest job id left |
| JobTable.DeleteLastResetsCounter | tsh.c:740 | deleting the only job resets the counter to 1 |
| JobTable.DeleteKeepsWellFormed | tsh.c:728-745 | deleting keeps the table well formed |
| JobTable.DeleteKeepsDistinct | tsh.c:728-745 | deleting keeps pids distinct |
| JobTable.DeleteThenFindNone | tsh.c:728-772 | with distinct pids, no job holds the pid after its deletion |
| JobTable.WithStateKeepsWellFormed | tsh.c:538-542 | changing an occupied slot's state keeps the table well formed |
| JobTable.WithStateKeepsDistinct | tsh.c:538-542 | changing a state keeps pids distinct |
| JobTable.LaunchedIsFilled | tsh.c:703-726 | up to fifteen adds to the initial table fill slots 0 upward with job ids 1 upward, the counter one above the last |
| JobTable.DeleteFromFilled | tsh.c:728-745 | deleting job 2 from fifteen jobs clears its slot and leaves the counter at 16, one above the largest id left |
| JobTable.TwoAddsWrap | tsh.c:714-716 | two more adds then fill slot 1 with job id 16, which wraps the counter, and slot 15 with job id 1 |
| JobTable.JobIdsMayRepeat | tsh.c:703-745 | from the initial table, fifteen adds, the delete of job 2 and two more adds give a well-formed table with distinct pids in which two live jobs have job id 1 |
| JobTable.AddKeepsOneFg | tsh.c:703-726 | adding keeps at most one job in the foreground, unless it adds a second foreground job |
| JobTable.DeleteKeepsOneFg | tsh.c:728-745 | deleting keeps at most one job in the foreground |
| JobTable.WithStateKeepsOneFg | tsh.c:536-545 | setting a state keeps at most one job in the foreground, unless it sets FG while another job is in the foreground |
| JobTable.Listing | tsh.c:806-831 | the listing is empty exactly when every slot is free; `Jobs.ListJobs` is proved to print it |
| JobTable.Jobs.constructor | tsh.c:54-65 | the global list starts all zero with `nextjid` 1 |
| JobTable.Jobs.ClearJob | tsh.c:671-678 | slot `i` becomes `(0, 0, UNDEF, "")`, and no other slot changes |
| JobTable.Jobs.InitJobs | tsh.c:680-688 | every slot is cleared; the counter is left as it was |
| JobTable.Jobs.Scan | tsh.c:710-711 | the index loop returns `Find`: the lowest slot matching the key, or none |
| JobTable.Jobs.MaxJidOf | tsh.c:690-701 | returns `MaxJid` of the slots |
| JobTable.Jobs.FgPidOf | tsh.c:747-757 | returns `FgPid` of the table |
| JobTable.Jobs.GetJobPid | tsh.c:759-772 | returns `JobWithPid`: the slot a non-NULL pointer would point to |
| JobTable.Jobs.GetJobJid | tsh.c:774-788 | returns `JobWithJid` |
| JobTable.Jobs.Pid2JidOf | tsh.c:790-804 | returns `Pid2Jid` |
| JobTable.Jobs.AddJob | tsh.c:703-726 | the result and the new table are `Add` of the old one, and what it prints is `AddMessage` |
| JobTable.Jobs.DeleteJob | tsh.c:728-745 | the result and the new table are `Delete` of the old one |
| JobTable.Jobs.SetState | tsh.c:592 | the new table is `WithState` of the old one, and stays well formed |
| JobTable.Jobs.ListJobs | tsh.c:806-831 | prints `Listing`: in slot order, `[jid] (pid) ` then the state word then the command line, for each occupied slot |
| CommandLine.Line | tsh.c:420-421 | the copy the tokenizer sees: same length, with the last character (the newline) turned into a space |
| CommandLine.SkipFrom | tsh.c:422-424 | the result is at or after `i` and is the end or a non-space; `SkipFromSpaces` adds that everything before it is a space |
| CommandLine.SkipFromSpaces | tsh.c:422-424 | every character the skip passes over is a space; with `SkipFrom`'s contract, the result is the first non-space at or after `i` |
| CommandLine.IndexFrom | tsh.c:428-434 | `strchr`: an index holding `c`, or none |
| CommandLine.IndexFromFirst | tsh.c:428-434 | `strchr` finds the first occurrence: no `c` lies before it, and none lies anywhere when it finds nothing |
| CommandLine.IndexAt | tsh.c:428-434 | the first `c` at or after `i` is found where it is |
| CommandLine.SpanAt | tsh.c:422-434 | where the next argument starts and its delimiter, which lies at or after the start |
| CommandLine.TokensFrom | tsh.c:436-451 | the arguments from position `i` on: at most one per remaining character; `TokenShape` and `TokensOfJoined` state their shape and content |
| CommandLine.Parse | tsh.c:412-463 | parseline's result: no arguments means the flag is set (a blank line returns 1), and there are no more arguments than characters; `BlankLine` and `ParseJoined` give the result on blank and ordinary lines |
| CommandLine.TokenShape | tsh.c:428-451 | every plain argument is non-empty and holds no space; every quoted one holds no quote |
| CommandLine.BlankLine | tsh.c:454-456 | a line of spaces gives no arguments and returns 1 |
| CommandLine.TokensOfJoined | tsh.c:436-451 | plain words joined by single spaces tokenize back to the same words |
| CommandLine.ParseJoined | tsh.c:412-463 | such a line, ended by a newline, parses back to its words; exactly when the last word starts with `'&'`, the flag is set and that word is dropped |
| CommandLine.StrChr | tsh.c:428-434 | the scan over the buffer returns `IndexFrom` of the line |
| CommandLine.NextSpan | tsh.c:422-450 | skipping spaces and then looking for the delimiter gives `SpanAt` of the line |
| CommandLine.CopyLine | tsh.c:420-421 | the fresh buffer holds `Line(cmdline)`, NUL-terminated |
| CommandLine.CutArg | tsh.c:437-439 | the argument is the line between start and delimiter; after the `'\0'` is written over the delimiter, the buffer still holds the line from just past it on |
| CommandLine.SplitArgs | tsh.c:436-452 | the arguments collected are `Texts(TokensFrom(line, 0))` |
| CommandLine.ParseLine | tsh.c:412-463 | the flag and the arguments are `Parse(cmdline)` |
| Control.ApplyEvent | tsh.c:587-619 | one report, corrected at line 592: a line is printed for every report except a normal exit; `StoppedSetsState`, `EndRemovesJob`, `UntrackedLeavesTable` and the invariant lemmas state what it does to the table |
| Control.StoppedSetsState | tsh.c:591-604 | a stop of a tracked job changes only that slot's state, to stopped; the report gives its job id, its pid and the signal |
| Control.EndRemovesJob | tsh.c:588-616 | an exit or a death by signal deletes the job as deletejob does; afterwards no job holds the pid |
| Control.UntrackedLeavesTable | tsh.c:587-619 | a report about a pid with no job leaves the table unchanged |
| Control.ApplyEventPreserves | tsh.c:587-619 | handling one report keeps the table well formed with distinct pids |
| Control.ApplyAllPreserves | tsh.c:587-620 | so does any sequence of reports the loop reaps |
| Control.ApplyEventKeepsOneFg | tsh.c:587-619 | no report puts a job in the foreground, so at most one job stays there |
| Control.ApplyAllKeepsOneFg | tsh.c:587-620 | so does any sequence of reports the loop reaps |
| Control.ForegroundEndReleasesShell | tsh.c:552-619 | when the one foreground job stops, exits or dies, no job is left in the foreground and fgpid gives 0, which is what waitfg waits for |
| Control.AsWrittenAgrees | tsh.c:591-592 | the handler as written fails exactly on a stop of an untracked pid, and agrees with the corrected one everywhere else |
| Control.FullTableRefusesJob | tsh.c:391-397 | with all sixteen slots taken, a background launch leaves the table unchanged, prints the complaint and announces job 0 |
| Control.UntrackedStopCrashes | tsh.c:592 | on that table, a stop of the untracked child makes the handler as written write through NULL; the corrected handler leaves the table as it was |
| Control.HandleChild | tsh.c:588-619 | one report: the new table and what is printed are `ApplyEvent` of the old table |
| Control.SigchldHandler | tsh.c:587-620 | the reports are applied one by one, in the order they are reaped |
| Control.Forward | tsh.c:653-662 | the only effect is the received signal sent to a process group (a negative target); `ForwardReachesForeground` says when and to which group |
| Control.ForwardReachesForeground | tsh.c:653-662 | in a well-formed table, the signal is sent exactly when some slot is in the foreground, to the group `-pid` of the lowest such slot |
| Control.StdSigHandler | tsh.c:653-662 | the effect is `Forward` of the table |
| Control.Atoi | tsh.c:514-524 | atoi as do_bgfg uses it; `AtoiDecimal` proves that it reads back every printed number |
| Control.Classify | tsh.c:508-534 | how the argument is read: `%` then a job id, a leading digit 1 to 9 then a pid, otherwise neither; `ClassifyPidPositive`, `ClassifyPrintedJobId` and `ClassifyPrintedPid` state what it gives |
| Control.ClassifyPidPositive | tsh.c:522-524 | the pid branch only ever looks up a positive pid |
| Control.Resolve | tsh.c:508-534 | in a well-formed table, the slot found holds a live job |
| Control.Move | tsh.c:536-545 | the slot gets BG for `bg` and FG for `fg`, and the first effect is SIGCONT to its process group |
| Control.BgFg | tsh.c:491-547 | only an argument that names a job changes the table; `BgFgErrors`, `BgFgMoves`, `BgFgPreserves` and `BgFgKeepsOneFg` state the rest |
| Control.BgFgErrors | tsh.c:498-534 | no effect exactly when the argument is missing or resolves to no job; the table is then unchanged and a complaint is printed |
| Control.BgFgMoves | tsh.c:536-545 | a resolved job gets state BG for `bg` and FG for `fg`, and its group is sent SIGCONT; `fg` then waits for it |
| Control.BgFgPreserves | tsh.c:491-547 | bg and fg keep the table well formed with distinct pids |
| Control.BgFgKeepsOneFg | tsh.c:491-547 | run with no job in the foreground, bg and fg leave at most one there |
| Control.AtoiDecimal | tsh.c:514-524 | `atoi` reads back every number the shell prints |
| Control.ClassifyPrintedJobId | tsh.c:508-514 | `%` followed by a printed number is read as that job id |
| Control.ClassifyPrintedPid | tsh.c:522-534 | a printed number is read as a pid exactly when it is positive; 0 and negative numbers are neither |
| Control.BgByPrintedJobId | tsh.c:508-540 | `bg %N`, with `N` as listjobs prints it, puts the lowest job with that id in the background |
| Control.LookupJob | tsh.c:508-534 | the slot found is `Resolve` of the argument; when there is none, the complaint is `LookupError` |
| Control.MoveJob | tsh.c:536-545 | the new table, the output and the effects are `Move` of the old table |
| Control.DoBgFg | tsh.c:491-547 | the new table, the output and the effects are `BgFg` of the old table |
| Control.Launch | tsh.c:390-399 | the parent side of running a program: it waits exactly when the job is in the foreground; `LaunchAnnouncesJobId`, `LaunchMakesForeground` and `LaunchPreserves` state the rest |
| Control.LaunchAnnouncesJobId | tsh.c:391-397 | a background launch that finds room announces the job id the counter held |
| Control.LaunchMakesForeground | tsh.c:391-394 | with no foreground job before, a foreground launch makes the child the foreground job, and the shell waits for it |
| Control.LaunchPreserves | tsh.c:391 | launching a pid no job holds keeps the table well formed with distinct pids |
| Control.LaunchKeepsOneFg | tsh.c:390-399 | launched with no job in the foreground, a job leaves at most one there |
| Control.LaunchJob | tsh.c:390-399 | the new table, the output and the effects are `Launch` of the old table |
| Control.BuiltinCmd | tsh.c:469-486 | handles the line exactly when its first word is `quit`, `jobs`, `fg`, `bg` or `&`, with `RunBuiltin`'s result; otherwise the table is unchanged |
| Control.Eval | tsh.c:362-402 | only `bg`, `fg` and programs change the job list; `quit`, `jobs`, `&` and blank lines do not |
| Control.EvalBlank | tsh.c:373-375 | a line of spaces does nothing |
| Control.EvalJobs | tsh.c:474-477 | `jobs` prints the listing and changes nothing |
| Control.EvalPreserves | tsh.c:362-402 | every command line keeps the table well formed with distinct pids, given that fork returns a pid no job holds |
| Control.EvalKeepsOneFg | tsh.c:362-402 | every command line, run with no job in the foreground, leaves at most one job in the foreground |
| Control.EvalLine | tsh.c:362-402 | the new table, the output and the effects are `Eval` of the old table |

## Findings

| source | as written | input that shows it | evidently intended | confidence | as-written member | corrected member |
|---|---|---|---|---|---|---|
| tsh.c:592 | the stopped branch writes `getjobpid(jobs, pid)->state` without checking for NULL | sixteen jobs running; a seventeenth background command is forked, but addjob refuses it; that child then stops (for example on a background read from the terminal), so waitpid reports it stopped and its pid has no job | skip the state update when no job holds the pid, and report as usual | not executed; reading of the code | Control.ApplyEventAsWritten, Control.UntrackedStopCrashes | Control.ApplyEvent, Control.UntrackedLeavesTable |

## Left out

- `main` is left out: the read-eval loop, option parsing, the prompt and `fgets` are I/O.
- `fork`, `execve`, `setpgid`, the "Command not found" message in the child, and the wrappers `Fork`, `Kill`, `Execve`, `Setpgid`, `Sigemptyset`, `Sigaddset`, `Sigprocmask` and `Signal` are system calls and are left out. The pid that fork returns is a parameter of `Control.Eval`, and `kill` is the `SendSignal` effect.
- Masking SIGCHLD around `addjob` and the preemption of the shell by its handlers are left out: they are about concurrency. Handlers are modelled as sequential steps on the table.
- `waitpid` itself is left out: the reports it returns are the `events` parameter of `Control.SigchldHandler`. The final check of `errno`, `unix_error`, and the save and restore of `errno` in both handlers are also left out.
- The shell blocks in `waitfg` until no job is in the foreground, and only then reads the next line. The model has no blocking. Instead, `Control.EvalKeepsOneFg`, `BgFgKeepsOneFg` and `LaunchKeepsOneFg` require that no job is in the foreground. `Control.ForegroundEndReleasesShell` shows that the foreground job's stop or end brings the table back to that state.
- `waitfg` is only the `AwaitForeground` effect. Its `sleep(1)` polling loop is a timing loop whose only outcome is returning once the pid is no longer the foreground job.
- The `write` calls of `sio_puts`, the error exits of `Sio_puts`, `Sio_putl` and `sio_error`, `usage`, `app_error` and `sigquit_handler` are left out: they are output and process exit. Printed text is returned as a string.
- Control.HandleChild writes each number as `Decimal(v)` rather than calling `Sio.PutLong`. PutLong is proved to write exactly `Decimal(v)`, but only for values that fit in a `long`, and the model's job ids are unbounded integers.
- Sio.Ltoa excludes `v == LONG_MIN`, because negating it overflows in the source. It also requires the buffer to hold the text and its terminator, which the source leaves to the caller.
- The width of `int` and `pid_t` is left out. The model's job ids, pids and counter are unbounded, so an overflow of the counter after very many deletions is not modelled.
- Control.Atoi does not model overflow: it gives the exact value of an arbitrarily long digit string, where C's `atoi` is undefined on overflow.
- The verbose `printf` in `addjob` is left out.
- A command line longer than its buffer is left out: `CommandLine.ParseLine` and `Control.EvalLine` require a line shorter than `MAXLINE` with no `'\0'` in it, as `fgets` delivers.
- More arguments than `MAXARGS` is left out: the model's argument list is unbounded.
- `argv` pointing into parseline's static buffer is left out: arguments are copied out as strings, so later reuse of that buffer is not modelled.
- `addjob` called with a state outside 0–3 is left out: the state is a four-valued datatype, so listjobs' internal-error line is kept only for UNDEF.
- JobTable.Jobs.InitJobs requires a counter of at least 1, as the global's initial value gives. The source does not touch the counter there.

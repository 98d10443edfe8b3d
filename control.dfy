/**
 * The shell's job-control decisions, taken out of their process context:
 * what one child-status report does to the job list (sigchld_handler), what
 * the bg and fg built-ins do (do_bgfg), where ctrl-c and ctrl-z are
 * forwarded (std_sig_handler), and what eval does with a command line once
 * fork has handed it the child's pid. Signals sent, waits begun and exits
 * are returned as Effect values; the text the shell prints is returned as
 * a string.
 */
module Control {
  import opened Options
  import opened Sio
  import opened JobTable
  import opened CommandLine

  /** Linux signal numbers the shell sends or is sent. */
  const SIGCONT: int := 18
  const SIGTSTP: int := 20

  /** What waitpid reported about one child. */
  datatype ChildEvent =
    | Exited(pid: int)
    | Stopped(pid: int, sig: int)
    | Signaled(pid: int, sig: int)
    | Unusual(pid: int)

  /** What the shell asks of the system: kill(target, sig) (a negative target is a process group), waitfg(pid), exit(status). */
  datatype Effect =
    | SendSignal(target: int, sig: int)
    | AwaitForeground(pid: int)
    | Exit(status: int)

  /** The job list after a step, what the step printed and what it asked of the system. */
  datatype Outcome = Outcome(table: Table, out: string, effects: seq<Effect>)

  predicate Preserved(t: Table)
  {
    WellFormed(t) && DistinctPids(t)
  }

  // ----- child-status events (sigchld_handler) -----

  function StopReport(jid: int, pid: int, sig: int): string
  {
    "Job [" + Decimal(jid) + "] (" + Decimal(pid) + ") stopped by signal " + Decimal(sig) + "\n"
  }

  function KillReport(jid: int, pid: int, sig: int): string
  {
    "Job [" + Decimal(jid) + "] (" + Decimal(pid) + ") terminated by signal " + Decimal(sig) + "\n"
  }

  const UNUSUAL_REPORT: string := "child terminated abnormallly\n"

  /**
   * One report handled: an exit deletes the job silently; a stop marks the
   * job stopped and reports it; a death by signal reports it and deletes
   * the job. A stop of a process with no job changes nothing.
   */
  function ApplyEvent(t: Table, e: ChildEvent): (r: (Table, string))
    ensures r.1 == "" <==> e.Exited?
  {
    match e
    case Exited(pid) => (Delete(t, pid).1, "")
    case Stopped(pid, sig) =>
      var u := match JobWithPid(t, pid)
        case None => t
        case Some(i) => WithState(t, i, St);
      (u, StopReport(Pid2Jid(u, pid), pid, sig))
    case Signaled(pid, sig) => (Delete(t, pid).1, KillReport(Pid2Jid(t, pid), pid, sig))
    case Unusual(_) => (t, UNUSUAL_REPORT)
  }

  /**
   * The stop branch as the handler is written: it writes through the
   * pointer getjobpid returns without checking it, so a stop of a process
   * with no job dereferences NULL (None here). The other branches are those
   * of ApplyEvent.
   */
  function ApplyEventAsWritten(t: Table, e: ChildEvent): Option<(Table, string)>
  {
    match e
    case Stopped(pid, sig) =>
      (match JobWithPid(t, pid)
       case None => None
       case Some(i) =>
         var u := WithState(t, i, St);
         Some((u, StopReport(Pid2Jid(u, pid), pid, sig))))
    case _ => Some(ApplyEvent(t, e))
  }

  /** The reports one run of the handler reaps, applied in order. */
  function ApplyAll(t: Table, es: seq<ChildEvent>): (Table, string)
    decreases |es|
  {
    if es == [] then (t, "")
    else
      var (u, out) := ApplyAll(t, es[..|es| - 1]);
      var (v, more) := ApplyEvent(u, es[|es| - 1]);
      (v, out + more)
  }

  /** The job pid names, if any, is the one slot a stop changes; the report names its job id. */
  lemma StoppedSetsState(t: Table, pid: int, sig: int, i: nat)
    requires JobWithPid(t, pid) == Some(i)
    ensures ApplyEvent(t, Stopped(pid, sig)) == (WithState(t, i, St), StopReport(t.slots[i].jid, pid, sig))
  {
    var u := WithState(t, i, St);
    var r := JobWithPid(u, pid);
    assert u.slots[i].pid == pid;
    assert r.Some? && r.value <= i;
    assert t.slots[r.value].pid == u.slots[r.value].pid == pid;
  }

  /** An exit or a death by signal deletes the job as deletejob does, and no job holds the pid afterwards. */
  lemma EndRemovesJob(t: Table, e: ChildEvent)
    requires e.Exited? || e.Signaled?
    requires DistinctPids(t)
    ensures ApplyEvent(t, e).0 == Delete(t, e.pid).1
    ensures JobWithPid(ApplyEvent(t, e).0, e.pid).None?
  {
    if Delete(t, e.pid).0 {
      DeleteThenFindNone(t, e.pid);
    }
  }

  /** A report about a process with no job leaves the job list as it was. */
  lemma UntrackedLeavesTable(t: Table, e: ChildEvent)
    requires JobWithPid(t, e.pid).None?
    ensures ApplyEvent(t, e).0 == t
  {
  }

  /** Handling a report keeps the job list well formed with distinct pids. */
  lemma ApplyEventPreserves(t: Table, e: ChildEvent)
    requires Preserved(t)
    ensures Preserved(ApplyEvent(t, e).0)
  {
    match e
    case Exited(pid) =>
      DeleteKeepsWellFormed(t, pid);
      DeleteKeepsDistinct(t, pid);
    case Signaled(pid, _) =>
      DeleteKeepsWellFormed(t, pid);
      DeleteKeepsDistinct(t, pid);
    case Stopped(pid, _) =>
      if JobWithPid(t, pid).Some? {
        WithStateKeepsWellFormed(t, JobWithPid(t, pid).value, St);
        WithStateKeepsDistinct(t, JobWithPid(t, pid).value, St);
      }
    case Unusual(_) =>
  }

  /** Any run of the handler keeps the job list well formed with distinct pids. */
  lemma {:induction false} ApplyAllPreserves(t: Table, es: seq<ChildEvent>)
    requires Preserved(t)
    ensures Preserved(ApplyAll(t, es).0)
    decreases |es|
  {
    if es != [] {
      ApplyAllPreserves(t, es[..|es| - 1]);
      ApplyEventPreserves(ApplyAll(t, es[..|es| - 1]).0, es[|es| - 1]);
    }
  }

  /** No report puts a job in the foreground, so at most one job stays there. */
  lemma ApplyEventKeepsOneFg(t: Table, e: ChildEvent)
    requires AtMostOneFg(t)
    ensures AtMostOneFg(ApplyEvent(t, e).0)
  {
    match e
    case Exited(pid) => DeleteKeepsOneFg(t, pid);
    case Signaled(pid, _) => DeleteKeepsOneFg(t, pid);
    case Stopped(pid, _) =>
      if JobWithPid(t, pid).Some? {
        WithStateKeepsOneFg(t, JobWithPid(t, pid).value, St);
      }
    case Unusual(_) =>
  }

  lemma {:induction false} ApplyAllKeepsOneFg(t: Table, es: seq<ChildEvent>)
    requires AtMostOneFg(t)
    ensures AtMostOneFg(ApplyAll(t, es).0)
    decreases |es|
  {
    if es != [] {
      ApplyAllKeepsOneFg(t, es[..|es| - 1]);
      ApplyEventKeepsOneFg(ApplyAll(t, es[..|es| - 1]).0, es[|es| - 1]);
    }
  }

  /**
   * When the foreground job stops, exits or is killed, no job is left in the
   * foreground: fgpid turns 0, which is what waitfg waits for.
   */
  lemma ForegroundEndReleasesShell(t: Table, e: ChildEvent, i: nat)
    requires AtMostOneFg(t) && !e.Unusual?
    requires JobWithPid(t, e.pid) == Some(i) && t.slots[i].state == Fg
    ensures Find(ApplyEvent(t, e).0.slots, InForeground).None?
    ensures FgPid(ApplyEvent(t, e).0) == 0
  {
    var u := ApplyEvent(t, e).0;
    if e.Stopped? {
      StoppedSetsState(t, e.pid, e.sig, i);
    } else {
      DeleteClearsLowest(t, e.pid, i);
    }
    assert u.slots[i].state != Fg;
    forall m | 0 <= m < |u.slots| && m != i
      ensures u.slots[m].state != Fg
    {
      assert u.slots[m] == t.slots[m];
    }
  }

  /** The handler as written fails exactly on a stop of a process with no job, and otherwise agrees with ApplyEvent. */
  lemma AsWrittenAgrees(t: Table, e: ChildEvent)
    ensures ApplyEventAsWritten(t, e).None? <==> e.Stopped? && JobWithPid(t, e.pid).None?
    ensures ApplyEventAsWritten(t, e).Some? ==> ApplyEventAsWritten(t, e).value == ApplyEvent(t, e)
  {
  }

  /** A full table: sixteen background jobs, pids and job ids 1 to 16. */
  function FullTable(): (t: Table)
    ensures Preserved(t)
    ensures forall m :: 0 <= m < |t.slots| ==> t.slots[m].pid != 0
  {
    Table(seq(MAXJOBS, m => Job(m + 1, m + 1, Bg, "sleep 100\n")), 1)
  }

  /**
   * With all sixteen slots taken, eval still forks the seventeenth command
   * but addjob refuses it: the shell complains, announces job 0 and the
   * child runs with no job.
   */
  lemma FullTableRefusesJob()
    ensures var t := FullTable();
      var launched := Launch(t, 17, true, "cat\n");
      launched.table == t &&
      launched.out == "Tried to create too many jobs\n" + "[" + Decimal(0) + "] (" + Decimal(17) + ") " + "cat\n"
  {
    var t := FullTable();
    assert Find(t.slots, FreeSlot).None?;
    assert Add(t, 17, Bg, "cat\n") == (false, t);
    assert AddMessage(t, 17) == "Tried to create too many jobs\n";
    assert JobWithPid(t, 17).None?;
    assert Pid2Jid(t, 17) == 0;
  }

  /**
   * When that child stops (a background read from the terminal is enough),
   * the handler as written writes through NULL; the corrected handler
   * reports the stop and leaves the table alone.
   */
  lemma UntrackedStopCrashes()
    ensures ApplyEventAsWritten(FullTable(), Stopped(17, SIGTSTP)).None?
    ensures ApplyEvent(FullTable(), Stopped(17, SIGTSTP)).0 == FullTable()
  {
    assert JobWithPid(FullTable(), 17).None?;
  }

  /** The waitpid loop: the reports are applied one by one, in the order they are reaped. */
  method SigchldHandler(jobs: Jobs, events: seq<ChildEvent>) returns (out: string)
    requires jobs.Valid()
    modifies jobs, jobs.slots
    ensures jobs.slots == old(jobs.slots) && jobs.Valid()
    ensures (jobs.Model(), out) == ApplyAll(old(jobs.Model()), events)
  {
    out := "";
    var k := 0;
    while k < |events|
      invariant 0 <= k <= |events|
      invariant jobs.slots == old(jobs.slots) && jobs.Valid()
      invariant (jobs.Model(), out) == ApplyAll(old(jobs.Model()), events[..k])
    {
      assert events[..k + 1][..k] == events[..k];
      var more := HandleChild(jobs, events[k]);
      out := out + more;
      k := k + 1;
    }
    assert events[..k] == events;
  }

  /** The body of the waitpid loop for one report. */
  method HandleChild(jobs: Jobs, e: ChildEvent) returns (out: string)
    requires jobs.Valid()
    modifies jobs, jobs.slots
    ensures jobs.slots == old(jobs.slots) && jobs.Valid()
    ensures (jobs.Model(), out) == ApplyEvent(old(jobs.Model()), e)
  {
    match e
    case Exited(pid) =>
      var _ := jobs.DeleteJob(pid);
      out := "";
    case Stopped(pid, sig) =>
      var r := jobs.GetJobPid(pid);
      if r.Some? {
        jobs.SetState(r.value, St);
      }
      var jid := jobs.Pid2JidOf(pid);
      out := "Job [" + Decimal(jid) + "] (" + Decimal(pid) + ") stopped by signal " + Decimal(sig) + "\n";
    case Signaled(pid, sig) =>
      var jid := jobs.Pid2JidOf(pid);
      out := "Job [" + Decimal(jid) + "] (" + Decimal(pid) + ") terminated by signal " + Decimal(sig) + "\n";
      var _ := jobs.DeleteJob(pid);
    case Unusual(_) =>
      out := UNUSUAL_REPORT;
  }

  // ----- keyboard signals (std_sig_handler) -----

  /** ctrl-c and ctrl-z go to the process group of the foreground job, if there is one with a job id. */
  function Forward(t: Table, sig: int): (r: Option<Effect>)
    ensures r.Some? ==> r.value.SendSignal? && r.value.sig == sig && r.value.target < 0
  {
    var pid := FgPid(t);
    if pid > 0 && Pid2Jid(t, pid) > 0 then Some(SendSignal(-pid, sig)) else None
  }

  /** In a well-formed table the signal is forwarded exactly when some job is in the foreground, to the lowest such job's group. */
  lemma ForwardReachesForeground(t: Table, sig: int)
    requires WellFormed(t)
    ensures Forward(t, sig).None? <==> Find(t.slots, InForeground).None?
    ensures Find(t.slots, InForeground).Some? ==>
      Forward(t, sig) == Some(SendSignal(-t.slots[Find(t.slots, InForeground).value].pid, sig))
  {
    match Find(t.slots, InForeground)
    case None =>
    case Some(i) =>
      var pid := t.slots[i].pid;
      assert SlotOk(t.slots[i]);
      assert JobWithPid(t, pid).Some?;
  }

  /** std_sig_handler */
  method StdSigHandler(jobs: Jobs, sig: int) returns (eff: Option<Effect>)
    requires jobs.Valid()
    ensures eff == Forward(jobs.Model(), sig)
  {
    var pid := jobs.FgPidOf();
    eff := None;
    if pid > 0 {
      var jid := jobs.Pid2JidOf(pid);
      if jid > 0 {
        eff := Some(SendSignal(-pid, sig));
      }
    }
  }

  // ----- the bg and fg built-ins (do_bgfg) -----

  predicate IsSpace(c: char)
  {
    c == ' ' || '\t' <= c <= '\r'
  }

  /** The longest prefix of decimal digits. */
  function DigitRun(s: string): (r: string)
    ensures |r| <= |s|
    ensures forall k :: 0 <= k < |r| ==> '0' <= r[k] <= '9'
  {
    if s != [] && '0' <= s[0] <= '9' then [s[0]] + DigitRun(s[1..]) else []
  }

  function SkipSpace(s: string): (r: string)
    ensures |r| <= |s|
    ensures r == [] || !IsSpace(r[0])
  {
    if s != [] && IsSpace(s[0]) then SkipSpace(s[1..]) else s
  }

  /** atoi, for values that fit: blanks, an optional sign, then the decimal digits that follow. */
  function Atoi(s: string): int
  {
    var u := SkipSpace(s);
    if u != [] && u[0] == '-' then -ValueOf(DigitRun(u[1..]), 10)
    else if u != [] && u[0] == '+' then ValueOf(DigitRun(u[1..]), 10)
    else ValueOf(DigitRun(u), 10)
  }

  /** How do_bgfg reads its argument: %jid, a pid starting with 1 to 9, or neither. */
  datatype Target = ByJid(jid: int) | ByPid(pid: int) | Neither

  function Classify(arg: string): Target
  {
    if arg != [] && arg[0] == '%' then ByJid(Atoi(arg[1..]))
    else if arg != [] && '0' < arg[0] <= '9' then ByPid(Atoi(arg))
    else Neither
  }

  /** The slot do_bgfg acts on, if its argument names one. */
  function Resolve(t: Table, arg: string): (r: Option<nat>)
    ensures WellFormed(t) && r.Some? ==> r.value < |t.slots| && t.slots[r.value].pid != 0
  {
    match Classify(arg)
    case ByJid(jid) => JobWithJid(t, jid)
    case ByPid(pid) => JobWithPid(t, pid)
    case Neither => None
  }

  /** Moving the job in slot i: bg continues it in the background and prints it; fg continues it and waits for it. */
  function Move(t: Table, i: nat, bg: bool): (r: Outcome)
    requires i < |t.slots|
    ensures |r.table.slots| == |t.slots| && r.table.slots[i].state == (if bg then Bg else Fg)
    ensures |r.effects| >= 1 && r.effects[0] == SendSignal(-t.slots[i].pid, SIGCONT)
  {
    var j := t.slots[i];
    if bg then
      Outcome(WithState(t, i, Bg), "[" + Decimal(j.jid) + "] (" + Decimal(j.pid) + ") " + j.cmdline, [SendSignal(-j.pid, SIGCONT)])
    else
      Outcome(WithState(t, i, Fg), "", [SendSignal(-j.pid, SIGCONT), AwaitForeground(j.pid)])
  }

  /** What do_bgfg prints when its argument names no job. */
  function LookupError(name: string, arg: string): string
  {
    match Classify(arg)
    case ByJid(_) => arg + ": No such job\n"
    case ByPid(pid) => "(" + Decimal(pid) + "): No such process\n"
    case Neither => name + ": argument must be a PID or %jobid\n"
  }

  /** do_bgfg, argv[0] being "bg" or "fg". */
  function BgFg(t: Table, argv: seq<string>): (r: Outcome)
    requires |argv| >= 1 && (argv[0] == "bg" || argv[0] == "fg")
    ensures r.table != t ==> |argv| >= 2 && Resolve(t, argv[1]).Some?
  {
    if |argv| < 2 then Outcome(t, argv[0] + " command requires PID or %jobid argument\n", [])
    else
      match Resolve(t, argv[1])
      case None => Outcome(t, LookupError(argv[0], argv[1]), [])
      case Some(i) => Move(t, i, argv[0] == "bg")
  }

  /** A missing, unknown or malformed argument prints an error and changes nothing. */
  lemma BgFgErrors(t: Table, argv: seq<string>)
    requires |argv| >= 1 && (argv[0] == "bg" || argv[0] == "fg")
    ensures BgFg(t, argv).effects == [] <==> |argv| < 2 || Resolve(t, argv[1]).None?
    ensures BgFg(t, argv).effects == [] ==> BgFg(t, argv).table == t && BgFg(t, argv).out != ""
  {
  }

  /** A resolved job is continued and put in the state the command names; fg then waits for it. */
  lemma BgFgMoves(t: Table, argv: seq<string>, i: nat)
    requires |argv| >= 2 && (argv[0] == "bg" || argv[0] == "fg")
    requires Resolve(t, argv[1]) == Some(i)
    ensures i < |t.slots|
    ensures BgFg(t, argv).table == WithState(t, i, if argv[0] == "bg" then Bg else Fg)
    ensures BgFg(t, argv).effects[0] == SendSignal(-t.slots[i].pid, SIGCONT)
    ensures argv[0] == "fg" ==> BgFg(t, argv).effects == [SendSignal(-t.slots[i].pid, SIGCONT), AwaitForeground(t.slots[i].pid)]
  {
  }

  lemma BgFgPreserves(t: Table, argv: seq<string>)
    requires Preserved(t)
    requires |argv| >= 1 && (argv[0] == "bg" || argv[0] == "fg")
    ensures Preserved(BgFg(t, argv).table)
  {
    if |argv| >= 2 && Resolve(t, argv[1]).Some? {
      var i := Resolve(t, argv[1]).value;
      BgFgMoves(t, argv, i);
      assert SlotOk(t.slots[i]);
      WithStateKeepsWellFormed(t, i, if argv[0] == "bg" then Bg else Fg);
      WithStateKeepsDistinct(t, i, if argv[0] == "bg" then Bg else Fg);
    }
  }

  /** With no job in the foreground, bg and fg leave at most one there. */
  lemma BgFgKeepsOneFg(t: Table, argv: seq<string>)
    requires Find(t.slots, InForeground).None?
    requires |argv| >= 1 && (argv[0] == "bg" || argv[0] == "fg")
    ensures AtMostOneFg(BgFg(t, argv).table)
  {
    if |argv| >= 2 && Resolve(t, argv[1]).Some? {
      var i := Resolve(t, argv[1]).value;
      BgFgMoves(t, argv, i);
      WithStateKeepsOneFg(t, i, if argv[0] == "bg" then Bg else Fg);
    }
  }

  /** The digits of a number read back by the digit scan are all of them. */
  lemma {:induction false} DigitRunOfDigits(s: string)
    requires forall k :: 0 <= k < |s| ==> '0' <= s[k] <= '9'
    ensures DigitRun(s) == s
  {
    if s != [] {
      DigitRunOfDigits(s[1..]);
    }
  }

  /** Decimal digits in reading order are digit characters. */
  lemma DecimalDigits(n: nat)
    ensures forall k :: 0 <= k < |Digits(n, 10)| ==> '0' <= Digits(n, 10)[k] <= '9'
    ensures n >= 1 ==> '0' < Digits(n, 10)[0]
  {
  }

  /** atoi of a digit string is its value. */
  lemma AtoiOfDigits(d: string)
    requires d != [] && forall k :: 0 <= k < |d| ==> '0' <= d[k] <= '9'
    ensures Atoi(d) == ValueOf(d, 10)
  {
    DigitRunOfDigits(d);
    assert !IsSpace(d[0]);
  }

  /** atoi of a minus sign and a digit string is minus its value. */
  lemma AtoiOfNegated(d: string)
    requires forall k :: 0 <= k < |d| ==> '0' <= d[k] <= '9'
    ensures Atoi("-" + d) == -ValueOf(d, 10)
  {
    DigitRunOfDigits(d);
    var n := "-" + d;
    assert !IsSpace(n[0]);
    assert n[1..] == d;
  }

  /** atoi reads back every number the shell prints. */
  lemma AtoiDecimal(v: int)
    ensures Atoi(Decimal(v)) == v
  {
    var m: nat := if v < 0 then -v else v;
    var d := Digits(m, 10);
    DecimalDigits(m);
    AtoiOfDigits(d);
    AtoiOfNegated(d);
    DigitsRoundTrip(m, 10);
    assert Decimal(v) == (if v < 0 then "-" else "") + d;
    if v >= 0 {
      assert Decimal(v) == d;
    }
  }

  /** How a printed number begins: '-' when negative, "0" for zero, a digit 1 to 9 when positive. */
  lemma DecimalLead(v: int)
    ensures Decimal(v) != []
    ensures v < 0 ==> Decimal(v)[0] == '-'
    ensures v == 0 ==> Decimal(v) == "0"
    ensures v >= 1 ==> '0' < Decimal(v)[0] <= '9'
  {
    if v == 0 {
      assert Digits(0, 10) == "0";
    } else if v > 0 {
      DecimalDigits(v);
      assert Decimal(v) == Digits(v, 10);
    }
  }

  /** A digit string's value is at least its leading digit. */
  lemma {:induction false} ValueOfLead(ds: string)
    requires ds != [] && forall k :: 0 <= k < |ds| ==> '0' <= ds[k] <= '9'
    ensures ValueOf(ds, 10) >= DigitValue(ds[0]) >= 0
    decreases |ds|
  {
    if |ds| > 1 {
      ValueOfLead(ds[..|ds| - 1]);
    }
  }

  /** The pid branch of do_bgfg only ever looks up a positive pid. */
  lemma ClassifyPidPositive(arg: string)
    ensures Classify(arg).ByPid? ==> Classify(arg).pid >= 1
  {
    if Classify(arg).ByPid? {
      assert !IsSpace(arg[0]) && SkipSpace(arg) == arg;
      var d := DigitRun(arg);
      assert d != [] && d[0] == arg[0];
      ValueOfLead(d);
    }
  }

  /** "%" followed by a printed number names that job id. */
  lemma ClassifyPrintedJobId(v: int)
    ensures Classify("%" + Decimal(v)) == ByJid(v)
  {
    AtoiDecimal(v);
    var s := Decimal(v);
    assert ("%" + s)[0] == '%' && ("%" + s)[1..] == s;
  }

  /** A printed number is read as a pid exactly when it is positive. */
  lemma ClassifyPrintedPid(v: int)
    ensures Classify(Decimal(v)) == (if v >= 1 then ByPid(v) else Neither)
  {
    DecimalLead(v);
    if v >= 1 {
      AtoiDecimal(v);
    }
  }

  /** "bg %N", N as listjobs prints it, continues the lowest job with that id in the background. */
  lemma BgByPrintedJobId(t: Table, i: nat)
    requires WellFormed(t) && i < |t.slots| && t.slots[i].pid != 0
    requires forall m :: 0 <= m < i ==> t.slots[m].jid != t.slots[i].jid
    ensures BgFg(t, ["bg", "%" + Decimal(t.slots[i].jid)]).table == WithState(t, i, Bg)
  {
    ClassifyPrintedJobId(t.slots[i].jid);
    assert SlotOk(t.slots[i]);
    var r := JobWithJid(t, t.slots[i].jid);
    assert r.Some? && r.value <= i;
    assert t.slots[r.value].jid == t.slots[i].jid;
  }

  /** The first half of do_bgfg: find the job the argument names, or the complaint to print. */
  method LookupJob(jobs: Jobs, name: string, arg: string) returns (job: Option<nat>, err: string)
    requires jobs.Valid()
    ensures job == Resolve(jobs.Model(), arg)
    ensures job.None? ==> err == LookupError(name, arg)
  {
    err := "";
    if arg != [] && arg[0] == '%' {
      var jid := Atoi(arg[1..]);
      job := jobs.GetJobJid(jid);
      if job.None? {
        err := arg + ": No such job\n";
      }
    } else if arg != [] && '0' < arg[0] <= '9' {
      var pid := Atoi(arg);
      job := jobs.GetJobPid(pid);
      if job.None? {
        err := "(" + Decimal(pid) + "): No such process\n";
      }
    } else {
      job := None;
      err := name + ": argument must be a PID or %jobid\n";
    }
  }

  /** The second half of do_bgfg: set the state, continue the group, then announce or wait. */
  method MoveJob(jobs: Jobs, i: nat, bg: bool) returns (out: string, effects: seq<Effect>)
    requires jobs.Valid() && i < jobs.slots.Length && jobs.slots[i].pid != 0
    modifies jobs.slots
    ensures jobs.Valid()
    ensures Outcome(jobs.Model(), out, effects) == Move(old(jobs.Model()), i, bg)
  {
    var pid, jid, cmd := jobs.slots[i].pid, jobs.slots[i].jid, jobs.slots[i].cmdline;
    if bg {
      jobs.SetState(i, Bg);
      effects := [SendSignal(-pid, SIGCONT)];
      out := "[" + Decimal(jid) + "] (" + Decimal(pid) + ") " + cmd;
    } else {
      jobs.SetState(i, Fg);
      effects := [SendSignal(-pid, SIGCONT), AwaitForeground(pid)];
      out := "";
    }
  }

  /** do_bgfg */
  method DoBgFg(jobs: Jobs, argv: seq<string>) returns (out: string, effects: seq<Effect>)
    requires jobs.Valid()
    requires |argv| >= 1 && (argv[0] == "bg" || argv[0] == "fg")
    modifies jobs.slots
    ensures jobs.Valid()
    ensures Outcome(jobs.Model(), out, effects) == BgFg(old(jobs.Model()), argv)
  {
    if |argv| < 2 {
      return argv[0] + " command requires PID or %jobid argument\n", [];
    }
    var job, err := LookupJob(jobs, argv[0], argv[1]);
    if job.None? {
      return err, [];
    }
    assert SlotOk(jobs.slots[job.value]);
    out, effects := MoveJob(jobs, job.value, argv[0] == "bg");
  }

  // ----- eval -----

  /** The parent's side of running a program: record the job, then wait for it or announce it. */
  function Launch(t: Table, pid: int, bg: bool, cmdline: string): (r: Outcome)
    ensures r.effects == [] <==> bg
  {
    var (_, u) := Add(t, pid, if bg then Bg else Fg, cmdline);
    var warning := AddMessage(t, pid);
    if bg then Outcome(u, warning + "[" + Decimal(Pid2Jid(u, pid)) + "] (" + Decimal(pid) + ") " + cmdline, [])
    else Outcome(u, warning, [AwaitForeground(pid)])
  }

  /** A background launch that finds room announces the job id the counter held. */
  lemma LaunchAnnouncesJobId(t: Table, pid: int, cmdline: string)
    requires JobWithPid(t, pid).None? && Add(t, pid, Bg, cmdline).0
    ensures Launch(t, pid, true, cmdline).out == "[" + Decimal(t.nextjid) + "] (" + Decimal(pid) + ") " + cmdline
  {
    AddThenFind(t, pid, Bg, cmdline);
  }

  /** With no foreground job before, a foreground launch that finds room makes the child the foreground job waited for. */
  lemma LaunchMakesForeground(t: Table, pid: int, cmdline: string)
    requires Find(t.slots, InForeground).None?
    requires Add(t, pid, Fg, cmdline).0
    ensures FgPid(Launch(t, pid, false, cmdline).table) == pid
    ensures Launch(t, pid, false, cmdline).effects == [AwaitForeground(pid)]
  {
    var i := Find(t.slots, FreeSlot).value;
    var u := Add(t, pid, Fg, cmdline).1;
    assert u.slots == t.slots[i := Job(pid, t.nextjid, Fg, cmdline)];
    assert Launch(t, pid, false, cmdline).table == u;
    forall m | 0 <= m < |u.slots| && m != i
      ensures u.slots[m].state != Fg
    {
      assert u.slots[m] == t.slots[m];
    }
    assert u.slots[i].state == Fg;
  }

  lemma LaunchPreserves(t: Table, pid: int, bg: bool, cmdline: string)
    requires Preserved(t) && JobWithPid(t, pid).None?
    ensures Preserved(Launch(t, pid, bg, cmdline).table)
  {
    AddKeepsWellFormed(t, pid, if bg then Bg else Fg, cmdline);
    AddKeepsDistinct(t, pid, if bg then Bg else Fg, cmdline);
  }

  /** With no job in the foreground, a launch leaves at most one there. */
  lemma LaunchKeepsOneFg(t: Table, pid: int, bg: bool, cmdline: string)
    requires Find(t.slots, InForeground).None?
    ensures AtMostOneFg(Launch(t, pid, bg, cmdline).table)
  {
    AddKeepsOneFg(t, pid, if bg then Bg else Fg, cmdline);
  }

  /** What builtin_cmd makes of the first argument. */
  datatype Command = QuitCmd | JobsCmd | BgFgCmd | LoneAmpersand | Program

  function Builtin(name: string): Command
  {
    if name == "quit" then QuitCmd
    else if name == "jobs" then JobsCmd
    else if name == "fg" || name == "bg" then BgFgCmd
    else if name == "&" then LoneAmpersand
    else Program
  }

  /** What builtin_cmd does with a built-in command. */
  function RunBuiltin(t: Table, argv: seq<string>): Outcome
    requires argv != [] && Builtin(argv[0]) != Program
  {
    match Builtin(argv[0])
    case QuitCmd => Outcome(t, "", [Exit(0)])
    case JobsCmd => Outcome(t, Listing(t), [])
    case BgFgCmd => BgFg(t, argv)
    case LoneAmpersand => Outcome(t, "", [])
  }

  /** eval: child is the pid fork returns to the shell when the line runs a program. */
  function Eval(t: Table, cmdline: string, child: int): (r: Outcome)
    requires |cmdline| >= 1
    ensures r.table != t ==> Parse(cmdline).1 != [] && Builtin(Parse(cmdline).1[0]) in {BgFgCmd, Program}
  {
    var (bg, argv) := Parse(cmdline);
    if argv == [] then Outcome(t, "", [])
    else if Builtin(argv[0]) == Program then Launch(t, child, bg, cmdline)
    else RunBuiltin(t, argv)
  }

  /** A line of spaces does nothing. */
  lemma EvalBlank(t: Table, cmdline: string, child: int)
    requires |cmdline| >= 1
    requires forall k :: 0 <= k < |cmdline| - 1 ==> cmdline[k] == ' '
    ensures Eval(t, cmdline, child) == Outcome(t, "", [])
  {
    BlankLine(cmdline);
  }

  /** "jobs" prints the listing and changes nothing. */
  lemma EvalJobs(t: Table, child: int)
    ensures Eval(t, "jobs\n", child) == Outcome(t, Listing(t), [])
  {
    var j := Joined(["jobs"]);
    assert j == "jobs " + Joined([]);
    assert j[..|j| - 1] + "\n" == "jobs\n";
    assert PlainWord("jobs");
    ParseJoined(["jobs"]);
    assert Parse("jobs\n") == (false, ["jobs"]);
  }

  /** Every command line keeps the job list well formed with distinct pids, fork handing out a pid no job holds. */
  lemma EvalPreserves(t: Table, cmdline: string, child: int)
    requires |cmdline| >= 1
    requires Preserved(t) && JobWithPid(t, child).None?
    ensures Preserved(Eval(t, cmdline, child).table)
  {
    var (bg, argv) := Parse(cmdline);
    if argv != [] {
      match Builtin(argv[0])
      case BgFgCmd => BgFgPreserves(t, argv);
      case Program => LaunchPreserves(t, child, bg, cmdline);
      case _ =>
    }
  }

  /**
   * Every command line, run when no job is in the foreground (as it is once
   * waitfg has returned), leaves at most one job in the foreground.
   */
  lemma EvalKeepsOneFg(t: Table, cmdline: string, child: int)
    requires |cmdline| >= 1
    requires Find(t.slots, InForeground).None?
    ensures AtMostOneFg(Eval(t, cmdline, child).table)
  {
    var (bg, argv) := Parse(cmdline);
    if argv != [] {
      match Builtin(argv[0])
      case BgFgCmd => BgFgKeepsOneFg(t, argv);
      case Program => LaunchKeepsOneFg(t, child, bg, cmdline);
      case _ =>
    }
  }

  /** The parent branch of eval after fork. */
  method LaunchJob(jobs: Jobs, pid: int, bg: bool, cmdline: string) returns (out: string, effects: seq<Effect>)
    requires jobs.Valid()
    modifies jobs, jobs.slots
    ensures jobs.slots == old(jobs.slots) && jobs.Valid()
    ensures Outcome(jobs.Model(), out, effects) == Launch(old(jobs.Model()), pid, bg, cmdline)
  {
    var _, warning := jobs.AddJob(pid, if bg then Bg else Fg, cmdline);
    if bg {
      var jid := jobs.Pid2JidOf(pid);
      out := warning + "[" + Decimal(jid) + "] (" + Decimal(pid) + ") " + cmdline;
      effects := [];
    } else {
      out := warning;
      effects := [AwaitForeground(pid)];
    }
  }

  /** builtin_cmd: runs a built-in command and says whether it was one. */
  method BuiltinCmd(jobs: Jobs, argv: seq<string>) returns (handled: bool, out: string, effects: seq<Effect>)
    requires jobs.Valid() && argv != []
    modifies jobs.slots
    ensures jobs.Valid()
    ensures handled <==> Builtin(argv[0]) != Program
    ensures handled ==> Outcome(jobs.Model(), out, effects) == RunBuiltin(old(jobs.Model()), argv)
    ensures !handled ==> jobs.Model() == old(jobs.Model())
  {
    var name := argv[0];
    if name == "quit" {
      return true, "", [Exit(0)];
    }
    if name == "jobs" {
      out := jobs.ListJobs();
      return true, out, [];
    }
    if name == "fg" || name == "bg" {
      out, effects := DoBgFg(jobs, argv);
      return true, out, effects;
    }
    if name == "&" {
      return true, "", [];
    }
    return false, "", [];
  }

  /** eval */
  method EvalLine(jobs: Jobs, cmdline: string, child: int) returns (out: string, effects: seq<Effect>)
    requires jobs.Valid()
    requires 1 <= |cmdline| < MAXLINE
    requires forall k :: 0 <= k < |cmdline| ==> cmdline[k] != '\0'
    modifies jobs, jobs.slots
    ensures jobs.slots == old(jobs.slots) && jobs.Valid()
    ensures Outcome(jobs.Model(), out, effects) == Eval(old(jobs.Model()), cmdline, child)
  {
    var bg, argv := ParseLine(cmdline);
    if argv == [] {
      return "", [];
    }
    var handled;
    handled, out, effects := BuiltinCmd(jobs, argv);
    if !handled {
      out, effects := LaunchJob(jobs, child, bg, cmdline);
    }
  }
}

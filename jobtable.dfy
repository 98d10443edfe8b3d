/**
 * The shell's job list: a fixed table of MAXJOBS slots and the counter
 * that hands out job ids. A slot whose pid is 0 is free. The pure part
 * (Table and the functions on it) states what each helper of the C code
 * does; the class Jobs is the array the helpers update in place.
 */
module JobTable {
  import opened Options
  import opened Sio

  const MAXJOBS: nat := 16

  datatype JobState = Undef | Fg | Bg | St

  /** The integer the C code stores for each state. */
  function StateCode(st: JobState): int
  {
    match st
    case Undef => 0
    case Fg => 1
    case Bg => 2
    case St => 3
  }

  datatype Job = Job(pid: int, jid: int, state: JobState, cmdline: string)

  /** What clearjob leaves in a slot. */
  const Cleared: Job := Job(0, 0, Undef, "")

  datatype Table = Table(slots: seq<Job>, nextjid: int)

  /** A free slot is fully cleared; an occupied one has a positive pid and job id. */
  predicate SlotOk(j: Job)
  {
    if j.pid == 0 then j == Cleared else j.pid >= 1 && j.jid >= 1
  }

  predicate WellFormed(t: Table)
  {
    |t.slots| == MAXJOBS && t.nextjid >= 1 &&
    forall i :: 0 <= i < |t.slots| ==> SlotOk(t.slots[i])
  }

  /** No two occupied slots hold the same process. */
  predicate DistinctPids(t: Table)
  {
    forall i, j :: 0 <= i < j < |t.slots| && t.slots[i].pid != 0 ==> t.slots[i].pid != t.slots[j].pid
  }

  /** At most one job is in the foreground. */
  predicate AtMostOneFg(t: Table)
  {
    forall a, b :: 0 <= a < b < |t.slots| && t.slots[a].state == Fg ==> t.slots[b].state != Fg
  }

  /** The table as the shell starts it: every slot free, the counter at 1. */
  function Initial(): (t: Table)
    ensures WellFormed(t) && DistinctPids(t)
  {
    Table(seq(MAXJOBS, _ => Cleared), 1)
  }

  // ----- lookups -----

  /** What each scan of the table looks for. */
  datatype Key = FreeSlot | WithPid(pid: int) | WithJid(jid: int) | InForeground

  predicate Matches(j: Job, k: Key)
  {
    match k
    case FreeSlot => j.pid == 0
    case WithPid(p) => j.pid == p
    case WithJid(d) => j.jid == d
    case InForeground => j.state == Fg
  }

  /** The lowest index at or after i whose slot matches k. */
  function FindFrom(s: seq<Job>, k: Key, i: nat): (r: Option<nat>)
    requires i <= |s|
    ensures r.Some? ==> i <= r.value < |s| && Matches(s[r.value], k)
    ensures r.Some? ==> forall m :: i <= m < r.value ==> !Matches(s[m], k)
    ensures r.None? ==> forall m :: i <= m < |s| ==> !Matches(s[m], k)
    decreases |s| - i
  {
    if i == |s| then None
    else if Matches(s[i], k) then Some(i)
    else FindFrom(s, k, i + 1)
  }

  function Find(s: seq<Job>, k: Key): Option<nat>
  {
    FindFrom(s, k, 0)
  }

  /** getjobpid: the lowest slot holding pid; none for pid < 1. */
  function JobWithPid(t: Table, pid: int): (r: Option<nat>)
    ensures r.Some? <==> pid >= 1 && exists m :: 0 <= m < |t.slots| && t.slots[m].pid == pid
    ensures r.Some? ==> r.value < |t.slots| && t.slots[r.value].pid == pid
    ensures r.Some? ==> forall m :: 0 <= m < r.value ==> t.slots[m].pid != pid
  {
    if pid < 1 then None else Find(t.slots, WithPid(pid))
  }

  /** getjobjid: the lowest slot holding job id jid; none for jid < 1. */
  function JobWithJid(t: Table, jid: int): (r: Option<nat>)
    ensures r.Some? <==> jid >= 1 && exists m :: 0 <= m < |t.slots| && t.slots[m].jid == jid
    ensures r.Some? ==> r.value < |t.slots| && t.slots[r.value].jid == jid
    ensures r.Some? ==> forall m :: 0 <= m < r.value ==> t.slots[m].jid != jid
  {
    if jid < 1 then None else Find(t.slots, WithJid(jid))
  }

  /** pid2jid: the job id of pid's slot, 0 when pid has none. */
  function Pid2Jid(t: Table, pid: int): (r: int)
    ensures JobWithPid(t, pid).None? ==> r == 0
    ensures WellFormed(t) && JobWithPid(t, pid).Some? ==> r >= 1
  {
    match JobWithPid(t, pid)
    case None => 0
    case Some(i) => t.slots[i].jid
  }

  /** fgpid: the pid of the lowest foreground slot, 0 when none is in the foreground. */
  function FgPid(t: Table): (r: int)
    ensures WellFormed(t) ==> (r == 0 <==> forall m :: 0 <= m < |t.slots| ==> t.slots[m].state != Fg)
    ensures r != 0 ==> exists m :: 0 <= m < |t.slots| && t.slots[m].state == Fg && t.slots[m].pid == r
  {
    match Find(t.slots, InForeground)
    case None => 0
    case Some(i) => t.slots[i].pid
  }

  /** maxjid over the first n slots: the largest job id, or 0. */
  function MaxJidBelow(s: seq<Job>, n: nat): (m: int)
    requires n <= |s|
    ensures m >= 0
    ensures forall i :: 0 <= i < n ==> s[i].jid <= m
    ensures m == 0 || exists i :: 0 <= i < n && s[i].jid == m
  {
    if n == 0 then 0
    else
      var below := MaxJidBelow(s, n - 1);
      if s[n - 1].jid > below then s[n - 1].jid else below
  }

  function MaxJid(s: seq<Job>): int
  {
    MaxJidBelow(s, |s|)
  }

  // ----- updates -----

  /** The counter after it has handed out one id: one more, wrapping to 1 above MAXJOBS. */
  function Advance(nextjid: int): int
  {
    if nextjid + 1 > MAXJOBS then 1 else nextjid + 1
  }

  /**
   * addjob: puts pid in the lowest free slot under the current counter and
   * advances the counter. Fails, changing nothing, for pid < 1 or a full table.
   */
  function Add(t: Table, pid: int, st: JobState, cmd: string): (r: (bool, Table))
    ensures r.0 <==> pid >= 1 && exists m :: 0 <= m < |t.slots| && t.slots[m].pid == 0
    ensures !r.0 ==> r.1 == t
    ensures |r.1.slots| == |t.slots|
  {
    if pid < 1 then (false, t)
    else match Find(t.slots, FreeSlot)
      case None => (false, t)
      case Some(i) => (true, Table(t.slots[i := Job(pid, t.nextjid, st, cmd)], Advance(t.nextjid)))
  }

  /** What addjob prints: a complaint when a valid pid finds the table full. */
  function AddMessage(t: Table, pid: int): (out: string)
    ensures out != "" <==> pid >= 1 && !Add(t, pid, Undef, "").0
  {
    if pid >= 1 && Find(t.slots, FreeSlot).None? then "Tried to create too many jobs\n" else ""
  }

  /**
   * deletejob: clears the lowest slot holding pid and resets the counter to
   * one above the largest job id left. Fails, changing nothing, for pid < 1
   * or an unknown pid.
   */
  function Delete(t: Table, pid: int): (r: (bool, Table))
    ensures r.0 <==> JobWithPid(t, pid).Some?
    ensures !r.0 ==> r.1 == t
    ensures |r.1.slots| == |t.slots|
  {
    match JobWithPid(t, pid)
    case None => (false, t)
    case Some(i) =>
      var s := t.slots[i := Cleared];
      (true, Table(s, MaxJid(s) + 1))
  }

  /** `job->state = st` on the job in slot i. */
  function WithState(t: Table, i: nat, st: JobState): (r: Table)
    requires i < |t.slots|
    ensures |r.slots| == |t.slots| && r.nextjid == t.nextjid
    ensures r.slots[i].state == st
    ensures forall m :: 0 <= m < |t.slots| ==> r.slots[m].pid == t.slots[m].pid && r.slots[m].jid == t.slots[m].jid
    ensures forall m :: 0 <= m < |t.slots| && m != i ==> r.slots[m] == t.slots[m]
  {
    t.(slots := t.slots[i := t.slots[i].(state := st)])
  }

  // ----- listing -----

  /** The word listjobs prints for a state (the internal-error text for any other state). */
  function StateWord(i: nat, j: Job): string
  {
    match j.state
    case Bg => "Running "
    case Fg => "Foreground "
    case St => "Stopped "
    case Undef => "listjobs: Internal error: job[" + Decimal(i) + "].state=" + Decimal(StateCode(j.state)) + " "
  }

  /** What listjobs prints for slot i: nothing for a free slot. */
  function JobLine(i: nat, j: Job): (r: string)
    ensures r != "" <==> j.pid != 0
  {
    if j.pid == 0 then ""
    else "[" + Decimal(j.jid) + "] (" + Decimal(j.pid) + ") " + StateWord(i, j) + j.cmdline
  }

  /** What listjobs prints for the first n slots, in slot order. */
  function ListingBelow(s: seq<Job>, n: nat): string
    requires n <= |s|
  {
    if n == 0 then "" else ListingBelow(s, n - 1) + JobLine(n - 1, s[n - 1])
  }

  /** listjobs: one line per occupied slot, in slot order. */
  function Listing(t: Table): (r: string)
    ensures r == "" <==> forall m :: 0 <= m < |t.slots| ==> t.slots[m].pid == 0
  {
    ListingEmpty(t.slots, |t.slots|);
    ListingBelow(t.slots, |t.slots|)
  }

  // ----- lemmas -----

  /** The listing is empty exactly when no slot is occupied. */
  lemma {:induction false} ListingEmpty(s: seq<Job>, n: nat)
    requires n <= |s|
    ensures ListingBelow(s, n) == "" <==> forall m :: 0 <= m < n ==> s[m].pid == 0
  {
    if n > 0 {
      ListingEmpty(s, n - 1);
      var before, line := ListingBelow(s, n - 1), JobLine(n - 1, s[n - 1]);
      assert ListingBelow(s, n) == before + line;
      assert |before + line| == |before| + |line|;
    }
  }

  /** Adding with an index in hand: the lowest free slot gets the job, under the old counter. */
  lemma AddFillsLowestFree(t: Table, pid: int, st: JobState, cmd: string, i: nat)
    requires pid >= 1
    requires i < |t.slots| && t.slots[i].pid == 0
    requires forall m :: 0 <= m < i ==> t.slots[m].pid != 0
    ensures Add(t, pid, st, cmd) == (true, Table(t.slots[i := Job(pid, t.nextjid, st, cmd)], Advance(t.nextjid)))
  {
    var f := Find(t.slots, FreeSlot);
    assert f.Some? && f.value == i;
  }

  lemma AddKeepsWellFormed(t: Table, pid: int, st: JobState, cmd: string)
    requires WellFormed(t)
    ensures WellFormed(Add(t, pid, st, cmd).1)
  {
  }

  /** Adding a process not yet in the table keeps pids distinct. */
  lemma AddKeepsDistinct(t: Table, pid: int, st: JobState, cmd: string)
    requires DistinctPids(t) && JobWithPid(t, pid).None?
    ensures DistinctPids(Add(t, pid, st, cmd).1)
  {
    var r := Add(t, pid, st, cmd);
    if r.0 {
      var i := Find(t.slots, FreeSlot).value;
      forall a, b | 0 <= a < b < |r.1.slots| && r.1.slots[a].pid != 0
        ensures r.1.slots[a].pid != r.1.slots[b].pid
      {
        if a != i && b != i {
          assert r.1.slots[a] == t.slots[a] && r.1.slots[b] == t.slots[b];
        }
      }
    }
  }

  /** After a successful add of a new pid, looking it up finds the filled slot and the old counter as its id. */
  lemma AddThenFind(t: Table, pid: int, st: JobState, cmd: string)
    requires JobWithPid(t, pid).None?
    requires Add(t, pid, st, cmd).0
    ensures JobWithPid(Add(t, pid, st, cmd).1, pid) == Find(t.slots, FreeSlot)
    ensures Pid2Jid(Add(t, pid, st, cmd).1, pid) == t.nextjid
  {
    var i := Find(t.slots, FreeSlot).value;
    var u := Add(t, pid, st, cmd).1;
    assert u.slots[i].pid == pid;
    forall m | 0 <= m < i
      ensures u.slots[m].pid != pid
    {
      assert u.slots[m] == t.slots[m];
    }
  }

  /** Deleting a job just added restores every slot; the counter becomes one above the largest id left. */
  lemma AddThenDelete(t: Table, pid: int, st: JobState, cmd: string)
    requires JobWithPid(t, pid).None?
    requires Add(t, pid, st, cmd).0
    requires WellFormed(t)
    ensures Delete(Add(t, pid, st, cmd).1, pid) == (true, Table(t.slots, MaxJid(t.slots) + 1))
  {
    AddThenFind(t, pid, st, cmd);
    var i := Find(t.slots, FreeSlot).value;
    var u := Add(t, pid, st, cmd).1;
    assert u.slots[i := Cleared] == t.slots;
  }

  /** Deleting with an index in hand: the lowest slot holding pid is cleared. */
  lemma DeleteClearsLowest(t: Table, pid: int, i: nat)
    requires i < |t.slots| && pid >= 1 && t.slots[i].pid == pid
    requires forall m :: 0 <= m < i ==> t.slots[m].pid != pid
    ensures Delete(t, pid).0
    ensures Delete(t, pid).1.slots == t.slots[i := Cleared]
  {
    assert JobWithPid(t, pid) == Some(i);
  }

  /**
   * After deletejob the counter is one above every remaining job id and,
   * unless the table is empty, equal to one above some remaining id.
   */
  lemma DeleteCounter(t: Table, pid: int)
    requires Delete(t, pid).0
    ensures var u := Delete(t, pid).1;
      (forall m :: 0 <= m < |u.slots| ==> u.slots[m].jid < u.nextjid) &&
      (u.nextjid == 1 || exists m :: 0 <= m < |u.slots| && u.slots[m].jid == u.nextjid - 1)
  {
  }

  /** Deleting the last job resets the counter to 1. */
  lemma DeleteLastResetsCounter(t: Table, pid: int)
    requires WellFormed(t) && Delete(t, pid).0
    requires forall m :: 0 <= m < |t.slots| && t.slots[m].pid != 0 ==> t.slots[m].pid == pid
    requires DistinctPids(t)
    ensures Delete(t, pid).1.nextjid == 1
  {
    var u := Delete(t, pid).1;
    var i := JobWithPid(t, pid).value;
    forall m | 0 <= m < |u.slots|
      ensures u.slots[m].jid == 0
    {
      if m != i {
        assert u.slots[m] == t.slots[m];
        if m < i {
          assert t.slots[m].pid != pid;
        } else {
          assert t.slots[i].pid != t.slots[m].pid;
        }
      }
    }
    DeleteCounter(t, pid);
  }

  lemma DeleteKeepsWellFormed(t: Table, pid: int)
    requires WellFormed(t)
    ensures WellFormed(Delete(t, pid).1)
  {
    if Delete(t, pid).0 {
      DeleteCounter(t, pid);
    }
  }

  lemma DeleteKeepsDistinct(t: Table, pid: int)
    requires DistinctPids(t)
    ensures DistinctPids(Delete(t, pid).1)
  {
  }

  /** Once deleted, a process is no longer found, when pids are distinct. */
  lemma DeleteThenFindNone(t: Table, pid: int)
    requires DistinctPids(t) && Delete(t, pid).0
    ensures JobWithPid(Delete(t, pid).1, pid).None?
  {
    var i := JobWithPid(t, pid).value;
    var u := Delete(t, pid).1;
    forall m | 0 <= m < |u.slots|
      ensures u.slots[m].pid != pid
    {
      if m != i {
        assert u.slots[m] == t.slots[m];
        if m > i {
          assert t.slots[i].pid != t.slots[m].pid;
        }
      }
    }
  }

  lemma WithStateKeepsWellFormed(t: Table, i: nat, st: JobState)
    requires WellFormed(t) && i < |t.slots| && t.slots[i].pid != 0
    ensures WellFormed(WithState(t, i, st))
  {
    var u := WithState(t, i, st);
    assert SlotOk(u.slots[i]);
  }

  lemma WithStateKeepsDistinct(t: Table, i: nat, st: JobState)
    requires DistinctPids(t) && i < |t.slots|
    ensures DistinctPids(WithState(t, i, st))
  {
  }

  /** Adding a job keeps at most one job in the foreground, when the new one is not a second foreground job. */
  lemma AddKeepsOneFg(t: Table, pid: int, st: JobState, cmd: string)
    requires AtMostOneFg(t)
    requires st != Fg || Find(t.slots, InForeground).None?
    ensures AtMostOneFg(Add(t, pid, st, cmd).1)
  {
    var r := Add(t, pid, st, cmd);
    if r.0 {
      var i := Find(t.slots, FreeSlot).value;
      forall a, b | 0 <= a < b < |r.1.slots| && r.1.slots[a].state == Fg
        ensures r.1.slots[b].state != Fg
      {
        if a != i && b != i {
          assert r.1.slots[a] == t.slots[a] && r.1.slots[b] == t.slots[b];
        } else if a == i {
          assert r.1.slots[b] == t.slots[b];
        } else {
          assert r.1.slots[a] == t.slots[a];
        }
      }
    }
  }

  /** Deleting a job keeps at most one job in the foreground. */
  lemma DeleteKeepsOneFg(t: Table, pid: int)
    requires AtMostOneFg(t)
    ensures AtMostOneFg(Delete(t, pid).1)
  {
    match JobWithPid(t, pid)
    case None =>
    case Some(i) =>
      DeleteClearsLowest(t, pid, i);
      var u := Delete(t, pid).1;
      forall a, b | 0 <= a < b < |u.slots| && u.slots[a].state == Fg
        ensures u.slots[b].state != Fg
      {
        assert a != i;
        if b != i {
          assert u.slots[a] == t.slots[a] && u.slots[b] == t.slots[b];
        }
      }
  }

  /** Setting a state keeps at most one job in the foreground, unless it makes a second foreground job. */
  lemma WithStateKeepsOneFg(t: Table, i: nat, st: JobState)
    requires AtMostOneFg(t) && i < |t.slots|
    requires st != Fg || Find(t.slots, InForeground).None?
    ensures AtMostOneFg(WithState(t, i, st))
  {
    var u := WithState(t, i, st);
    forall a, b | 0 <= a < b < |u.slots| && u.slots[a].state == Fg
      ensures u.slots[b].state != Fg
    {
      if a != i && b != i {
        assert u.slots[a] == t.slots[a] && u.slots[b] == t.slots[b];
      } else if a == i {
        assert u.slots[b] == t.slots[b];
      } else {
        assert u.slots[a] == t.slots[a];
      }
    }
  }

  /** The command line of every job in the scenario below. */
  const SLEEPER: string := "sleep 100 &\n"

  /** The table after n background jobs, pids 101 to 100 + n, are added to the initial one. */
  function Launched(n: nat): Table
  {
    if n == 0 then Initial() else Add(Launched(n - 1), 100 + n, Bg, SLEEPER).1
  }

  /** Slots 0 to n - 1 hold pids 101 to 100 + n under job ids 1 to n; the counter is n + 1. */
  function Filled(n: nat): Table
  {
    Table(seq(MAXJOBS, m => if m < n then Job(101 + m, m + 1, Bg, SLEEPER) else Cleared), n + 1)
  }

  /** Up to fifteen adds fill the table from the bottom, job ids counting up from 1. */
  lemma {:induction false} LaunchedIsFilled(n: nat)
    requires n < MAXJOBS
    ensures Launched(n) == Filled(n)
  {
    if n == 0 {
      assert Initial().slots == Filled(0).slots;
    } else {
      LaunchedIsFilled(n - 1);
      var t := Filled(n - 1);
      AddFillsLowestFree(t, 100 + n, Bg, SLEEPER, n - 1);
      var filled := t.slots[n - 1 := Job(100 + n, n, Bg, SLEEPER)];
      forall m | 0 <= m < MAXJOBS
        ensures filled[m] == Filled(n).slots[m]
      {
      }
      assert filled == Filled(n).slots;
    }
  }

  /** Deleting job 2 from fifteen jobs clears its slot and leaves the counter at 16. */
  lemma DeleteFromFilled()
    ensures Delete(Filled(15), 102).1 == Table(Filled(15).slots[1 := Cleared], 16)
  {
    var f := Filled(15);
    DeleteClearsLowest(f, 102, 1);
    var s := f.slots[1 := Cleared];
    assert forall m :: 0 <= m < |s| ==> s[m].jid <= 15;
    assert s[14].jid == 15;
    assert MaxJid(s) == 15;
  }

  /** The table the scenario below ends in: job ids 1 to 16 (2 in slot 1) and id 1 again in slot 15. */
  function Repeated(): Table
  {
    Table(seq(MAXJOBS, m => if m == 1 then Job(116, 16, Bg, SLEEPER)
                            else if m == 15 then Job(117, 1, Bg, SLEEPER)
                            else Job(101 + m, m + 1, Bg, SLEEPER)), 2)
  }

  /** That table is well formed, and its pids are distinct. */
  lemma RepeatedIsSound()
    ensures WellFormed(Repeated()) && DistinctPids(Repeated())
  {
    var u := Repeated();
    forall m | 0 <= m < MAXJOBS
      ensures SlotOk(u.slots[m])
    {
    }
    forall a, b | 0 <= a < b < MAXJOBS
      ensures u.slots[a].pid != u.slots[b].pid
    {
    }
  }

  /** Two more adds after that deletion fill slot 1 with id 16 and then slot 15 with id 1. */
  lemma TwoAddsWrap()
    ensures var t := Table(Filled(15).slots[1 := Cleared], 16);
      Add(Add(t, 116, Bg, SLEEPER).1, 117, Bg, SLEEPER).1 == Repeated()
  {
    var t := Table(Filled(15).slots[1 := Cleared], 16);
    AddFillsLowestFree(t, 116, Bg, SLEEPER, 1);
    var t1 := Table(t.slots[1 := Job(116, 16, Bg, SLEEPER)], 1);
    AddFillsLowestFree(t1, 117, Bg, SLEEPER, 15);
    assert t1.slots[15 := Job(117, 1, Bg, SLEEPER)] == Repeated().slots;
  }

  /**
   * Job ids are not unique among live jobs. Starting from the initial table,
   * add fifteen jobs, delete the one with job id 2 and add two more: the
   * first of these gets id 16 and wraps the counter, so the second gets id 1
   * while job 1 is still alive.
   */
  lemma JobIdsMayRepeat()
    ensures var t := Delete(Launched(15), 102).1;
      var u := Add(Add(t, 116, Bg, SLEEPER).1, 117, Bg, SLEEPER).1;
      WellFormed(u) && DistinctPids(u) &&
      u.slots[0] == Job(101, 1, Bg, SLEEPER) && u.slots[15] == Job(117, 1, Bg, SLEEPER)
  {
    LaunchedIsFilled(15);
    DeleteFromFilled();
    TwoAddsWrap();
    RepeatedIsSound();
  }

  // ----- the table the helpers update in place -----

  class Jobs {
    var slots: array<Job>
    var nextjid: int

    ghost predicate Valid()
      reads this, slots
    {
      slots.Length == MAXJOBS && WellFormed(Model())
    }

    function Model(): Table
      reads this, slots
    {
      Table(slots[..], nextjid)
    }

    /** The global job list and counter as the program starts: all zero, the counter at 1. */
    constructor()
      ensures Valid() && Model() == Initial()
    {
      slots := new Job[MAXJOBS](_ => Cleared);
      nextjid := 1;
    }

    /** clearjob */
    method ClearJob(i: nat)
      requires i < slots.Length
      modifies slots
      ensures slots[..] == old(slots[..])[i := Cleared]
    {
      slots[i] := slots[i].(pid := 0);
      slots[i] := slots[i].(jid := 0);
      slots[i] := slots[i].(state := Undef);
      slots[i] := slots[i].(cmdline := "");
    }

    /** initjobs: clears every slot; the counter is left as it was. */
    method InitJobs()
      requires slots.Length == MAXJOBS && nextjid >= 1
      modifies slots
      ensures Valid() && Model() == Initial().(nextjid := nextjid)
    {
      var i := 0;
      while i < MAXJOBS
        invariant 0 <= i <= MAXJOBS
        invariant forall m :: 0 <= m < i ==> slots[m] == Cleared
      {
        ClearJob(i);
        i := i + 1;
      }
      assert slots[..] == Initial().slots;
    }

    /** The scan every lookup makes: the lowest slot matching k. */
    method Scan(k: Key) returns (r: Option<nat>)
      requires Valid()
      ensures r == Find(Model().slots, k)
    {
      var i := 0;
      while i < MAXJOBS
        invariant 0 <= i <= MAXJOBS
        invariant Find(slots[..], k) == FindFrom(slots[..], k, i)
      {
        if Matches(slots[i], k) {
          return Some(i);
        }
        i := i + 1;
      }
      return None;
    }

    /** maxjid */
    method MaxJidOf() returns (max: int)
      requires slots.Length == MAXJOBS
      ensures max == MaxJid(slots[..])
    {
      max := 0;
      var i := 0;
      while i < MAXJOBS
        invariant 0 <= i <= MAXJOBS
        invariant max == MaxJidBelow(slots[..], i)
      {
        if slots[i].jid > max {
          max := slots[i].jid;
        }
        i := i + 1;
      }
    }

    /** fgpid */
    method FgPidOf() returns (pid: int)
      requires Valid()
      ensures pid == FgPid(Model())
    {
      var r := Scan(InForeground);
      pid := if r.Some? then slots[r.value].pid else 0;
    }

    /** getjobpid */
    method GetJobPid(pid: int) returns (r: Option<nat>)
      requires Valid()
      ensures r == JobWithPid(Model(), pid)
    {
      if pid < 1 {
        return None;
      }
      r := Scan(WithPid(pid));
    }

    /** getjobjid */
    method GetJobJid(jid: int) returns (r: Option<nat>)
      requires Valid()
      ensures r == JobWithJid(Model(), jid)
    {
      if jid < 1 {
        return None;
      }
      r := Scan(WithJid(jid));
    }

    /** pid2jid */
    method Pid2JidOf(pid: int) returns (jid: int)
      requires Valid()
      ensures jid == Pid2Jid(Model(), pid)
    {
      var r := GetJobPid(pid);
      jid := if r.Some? then slots[r.value].jid else 0;
    }

    /** addjob: the result and the new table are those of Add; out is what it prints. */
    method AddJob(pid: int, st: JobState, cmd: string) returns (ok: bool, out: string)
      requires Valid()
      modifies this, slots
      ensures slots == old(slots) && Valid()
      ensures (ok, Model()) == Add(old(Model()), pid, st, cmd)
      ensures out == AddMessage(old(Model()), pid)
    {
      ghost var t := Model();
      AddKeepsWellFormed(t, pid, st, cmd);
      if pid < 1 {
        return false, "";
      }
      var i := 0;
      while i < MAXJOBS
        invariant 0 <= i <= MAXJOBS
        invariant Find(slots[..], FreeSlot) == FindFrom(slots[..], FreeSlot, i)
      {
        if slots[i].pid == 0 {
          AddFillsLowestFree(Model(), pid, st, cmd, i);
          slots[i] := slots[i].(pid := pid);
          slots[i] := slots[i].(state := st);
          slots[i] := slots[i].(jid := nextjid);
          nextjid := nextjid + 1;
          if nextjid > MAXJOBS {
            nextjid := 1;
          }
          slots[i] := slots[i].(cmdline := cmd);
          assert slots[i] == Job(pid, t.nextjid, st, cmd);
          assert slots[..] == t.slots[i := Job(pid, t.nextjid, st, cmd)];
          return true, "";
        }
        i := i + 1;
      }
      return false, "Tried to create too many jobs\n";
    }

    /** deletejob: the result and the new table are those of Delete. */
    method DeleteJob(pid: int) returns (ok: bool)
      requires Valid()
      modifies this, slots
      ensures slots == old(slots) && Valid()
      ensures (ok, Model()) == Delete(old(Model()), pid)
    {
      DeleteKeepsWellFormed(Model(), pid);
      if pid < 1 {
        return false;
      }
      var i := 0;
      while i < MAXJOBS
        invariant 0 <= i <= MAXJOBS
        invariant Find(slots[..], WithPid(pid)) == FindFrom(slots[..], WithPid(pid), i)
      {
        if slots[i].pid == pid {
          ClearJob(i);
          var max := MaxJidOf();
          nextjid := max + 1;
          return true;
        }
        i := i + 1;
      }
      return false;
    }

    /** `job->state = st` through a pointer a lookup returned. */
    method SetState(i: nat, st: JobState)
      requires Valid() && i < slots.Length && slots[i].pid != 0
      modifies slots
      ensures Valid()
      ensures Model() == WithState(old(Model()), i, st)
    {
      WithStateKeepsWellFormed(Model(), i, st);
      slots[i] := slots[i].(state := st);
    }

    /** listjobs: what it prints is Listing of the table. */
    method ListJobs() returns (out: string)
      requires Valid()
      ensures out == Listing(Model())
    {
      out := "";
      var i := 0;
      while i < MAXJOBS
        invariant 0 <= i <= MAXJOBS
        invariant out == ListingBelow(slots[..], i)
      {
        if slots[i].pid != 0 {
          var word;
          match slots[i].state {
            case Bg => word := "Running ";
            case Fg => word := "Foreground ";
            case St => word := "Stopped ";
            case Undef =>
              word := "listjobs: Internal error: job[" + Decimal(i) + "].state=" + Decimal(StateCode(slots[i].state)) + " ";
          }
          assert word == StateWord(i, slots[i]);
          out := out + ("[" + Decimal(slots[i].jid) + "] (" + Decimal(slots[i].pid) + ") " + word + slots[i].cmdline);
        }
        i := i + 1;
      }
    }
  }
}

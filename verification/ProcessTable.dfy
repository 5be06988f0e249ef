/** Fork, exit and wait on the task table (kernel/fork.c, kernel/exit.c, do_timer of kernel/sched.c). Each
    system call is one atomic step of the task it runs in. */
module ProcessTable {
  import opened Basics
  import opened Tasks
  import opened ProcessModel
  import opened ProcessSteps
  import opened ProcessTime

  function Reversed(ks: seq<int>): seq<int> {
    if ks == [] then [] else Reversed(ks[1..]) + [ks[0]]
  }

  lemma {:induction false} ReversedSnoc(ks: seq<int>, c: int)
    ensures Reversed(ks + [c]) == [c] + Reversed(ks)
  {
    if ks != [] {
      ReversedSnoc(ks[1..], c);
      assert (ks + [c])[1..] == ks[1..] + [c];
    }
  }

  /** sys_waitpid's selection of children. */
  predicate Wanted(t: Task, pid: int, group: int) {
    if pid > 0 then t.pid == pid else if pid == 0 then t.pgrp == group else pid == -1 || t.pgrp == -pid
  }

  /** A child sys_waitpid returns for. */
  predicate Ready(t: Task, pid: int, group: int, untraced: bool) {
    Wanted(t, pid, group) && (t.state == Zombie || (t.state == Stopped && untraced && t.exitCode != 0))
  }

  /** A child that keeps sys_waitpid waiting. */
  predicate Pending(t: Task, pid: int, group: int) {
    Wanted(t, pid, group) && t.state != Zombie && t.state != Stopped
  }

  datatype Waited = Reaped(pid: int, status: int) | Reported(pid: int, status: int) | Nothing | Asleep | NoChild

  /** What one pass of sys_waitpid does for task cur: the youngest ready child is reaped or reported; with
      none ready it waits just when a wanted child is neither a zombie nor stopped. */
  ghost predicate WaitOutcome(s: Sys, s': Sys, cur: int, pid: int, untraced: bool, nohang: bool, r: Waited) {
    Sized(s) && Sized(s') && IsTask(cur) &&
    var ks := s.kids[cur];
    if r.Reaped? || r.Reported? then
      exists k :: Idx(|ks|, k) && Chosen(s, cur, pid, untraced, k) && Answered(s, s', cur, ks[k], k, r)
    else
      NoneReady(s.tab, ks, |ks|, pid, s.tab[cur].pgrp, untraced) &&
      (SomePending(s.tab, ks, |ks|, pid, s.tab[cur].pgrp) <==> r != NoChild) &&
      (nohang ==> r != Asleep) && (r == Nothing ==> nohang) &&
      s' == if r == Asleep then s.(tab := s.tab[cur := s.tab[cur].(state := Interruptible)]) else s
  }

  /** Among the first k children. */
  ghost predicate NoneReady(tab: seq<Task>, ks: seq<int>, k: nat, pid: int, group: int, untraced: bool)
    requires |tab| == NR_TASKS && k <= |ks|
  {
    forall i :: Idx(k, i) && IsTask(ks[i]) ==> !Ready(tab[ks[i]], pid, group, untraced)
  }

  ghost predicate SomePending(tab: seq<Task>, ks: seq<int>, k: nat, pid: int, group: int)
    requires |tab| == NR_TASKS && k <= |ks|
  {
    exists i :: Idx(k, i) && IsTask(ks[i]) && Pending(tab[ks[i]], pid, group)
  }

  ghost predicate Chosen(s: Sys, cur: int, pid: int, untraced: bool, k: int)
    requires Sized(s) && IsTask(cur)
  {
    var ks := s.kids[cur];
    Idx(|ks|, k) && IsTask(ks[k]) && Ready(s.tab[ks[k]], pid, s.tab[cur].pgrp, untraced) &&
    NoneReady(s.tab, ks, k, pid, s.tab[cur].pgrp, untraced)
  }

  /** A zombie's times go to its parent and it leaves the table; a stopped child's code is cleared. */
  ghost predicate Answered(s: Sys, s': Sys, cur: int, p: int, k: nat, r: Waited)
    requires Sized(s) && IsTask(cur)
  {
    IsTask(p) && (r.Reaped? || r.Reported?) && r.pid == s.tab[p].pid &&
    if s.tab[p].state == Zombie then
      r == Reaped(s.tab[p].pid, s.tab[p].exitCode) && Released(s.(tab := Charged(s.tab, cur, p)), s', cur, p, k)
    else
      r == Reported(s.tab[p].pid, s.tab[p].exitCode * 256 + 0x7f) &&
      s' == s.(tab := s.tab[p := s.tab[p].(exitCode := 0)])
  }

  function Charged(tab: seq<Task>, cur: int, p: int): seq<Task>
    requires |tab| == NR_TASKS && IsTask(cur) && IsTask(p)
  {
    tab[cur := tab[cur].(cutime := tab[cur].cutime + tab[p].utime + tab[p].cutime,
                         cstime := tab[cur].cstime + tab[p].stime + tab[p].cstime)]
  }

  datatype Event =
    | Fork(memory: bool)
    | Exit(code: int)
    | Wait(pid: int, untraced: bool, nohang: bool)
    | Tick(user: bool)
    | Switch(next: int)
    | Change(i: int, state: RunState, exitCode: int, pgrp: int)

  /** The ticks in user mode, or in the kernel. */
  function Ticks(es: seq<Event>, user: bool): nat {
    if es == [] then 0 else Ticks(es[1..], user) + Bit(es[0] == Tick(user))
  }

  lemma {:induction false} TicksSnoc(es: seq<Event>, e: Event, user: bool)
    ensures Ticks(es + [e], user) == Ticks(es, user) + Bit(e == Tick(user))
  {
    if es != [] {
      TicksSnoc(es[1..], e, user);
      assert (es + [e])[1..] == es[1..] + [e];
    }
  }

  /** The task struct sys_fork fills in, before it is linked. */
  function Child(t: Task, pid: int): Task {
    t.(state := Running, pid := pid, utime := 0, stime := 0, cutime := 0, cstime := 0)
  }

  /** The lowest free slot. */
  predicate Lowest(tab: seq<Task>, nr: int) {
    |tab| == NR_TASKS && 1 <= nr < NR_TASKS && !tab[nr].used && forall i :: 1 <= i < nr ==> tab[i].used
  }

  /** Task m after the current task cur has exited: but for links only cur's state and code differ. */
  predicate ExitAt(tab: seq<Task>, tab': seq<Task>, cur: int, code: int, m: int)
    requires |tab| == NR_TASKS && |tab'| == NR_TASKS && IsTask(m)
  {
    SameBody(tab'[m], if m == cur then tab[m].(state := Zombie, exitCode := code) else tab[m])
  }

  function Charge(t: Task, user: bool): Task {
    if user then t.(utime := t.utime + 1) else t.(stime := t.stime + 1)
  }

  /** What one event does, cur being the current task before and cur' after it. A call the current task cannot make
      does nothing: a zombie makes none, task 0 forks task 1 only, and tasks 0 and 1 do not exit. */
  ghost predicate Did(s: Sys, cur: int, s': Sys, cur': int, e: Event) {
    Sized(s) && Sized(s') && IsTask(cur) && IsTask(cur') && (!e.Switch? ==> cur' == cur) &&
    match e
    case Fork(memory) =>
      if CallsNow(s, cur) && (cur == 0 ==> !s.tab[1].used) && memory &&
         (exists i :: 1 <= i < NR_TASKS && !s.tab[i].used)
      then exists nr, pid :: Lowest(s.tab, nr) && 0 < pid && !Taken(s.tab, pid) &&
                             Forked(s, s', cur, nr, Child(s.tab[cur], pid))
      else s' == s
    case Exit(code) =>
      if CallsNow(s, cur) && cur != 0 && cur != 1 then
        s'.kids == s.kids[cur := []][1 := Reversed(s.kids[cur]) + s.kids[1]] && s'.born == s.born &&
        s'.clock == s.clock &&
        forall m :: IsTask(m) ==> ExitAt(s.tab, s'.tab, cur, code, m)
      else s' == s
    case Wait(pid, untraced, nohang) =>
      if CallsNow(s, cur) then exists r :: WaitOutcome(s, s', cur, pid, untraced, nohang, r) else s' == s
    case Tick(user) => s' == s.(tab := s.tab[cur := Charge(s.tab[cur], user)])
    case Switch(next) => s' == s && cur' == if IsTask(next) && s.tab[next].used then next else cur
    case Change(i, state, exitCode, pgrp) =>
      if CanChange(s, i, state)
      then s' == s.(tab := s.tab[i := s.tab[i].(state := state, exitCode := exitCode, pgrp := pgrp)]) else s' == s
  }

  predicate CallsNow(s: Sys, cur: int)
    requires Sized(s) && IsTask(cur)
  {
    s.tab[cur].state != Zombie
  }

  predicate CanChange(s: Sys, i: int, state: RunState)
    requires Sized(s)
  {
    IsTask(i) && s.tab[i].used && s.tab[i].state != Zombie && state != Zombie
  }

  class Table {
    var tab: seq<Task>
    var current: int
    var lastPid: int
    ghost var kids: seq<seq<int>>
    ghost var born: seq<nat>
    ghost var clock: nat

    ghost function Abs(): Sys
      reads `tab, `kids, `born, `clock
    {
      Sys(tab, kids, born, clock)
    }

    ghost predicate Valid()
      reads this
    {
      Inv(Abs()) && IsTask(current) && tab[current].used && 0 <= lastPid <= MAX_PID
    }

    /** The table at start: INIT_TASK alone. */
    constructor ()
      ensures Valid() && Total(tab, true) == 0 && Total(tab, false) == 0 && current == 0
    {
      var none := Task(false, Running, 0, 0, 0, 0, 0, 0, 0, 0, NULL, NULL, NULL);
      tab := seq(NR_TASKS, i => none)[0 := none.(used := true)];
      current, lastPid := 0, 0;
      kids := seq(NR_TASKS, i => []);
      born := seq(NR_TASKS, i => 0);
      clock := 1;
      new;
      Empty(tab, true, |tab|);
      Empty(tab, false, |tab|);
    }

    // ------------------------------------------------------------ fork

    /** find_empty_process: the next number no live task bears, and the lowest free slot, -1 for none. */
    method FindEmptyProcess() returns (nr: int)
      requires |tab| == NR_TASKS && 0 <= lastPid <= MAX_PID
      modifies `lastPid
      ensures 1 <= lastPid <= MAX_PID && !Taken(tab, lastPid)
      ensures forall i :: 0 <= i < 64 && tab[i].used ==> tab[i].pid != lastPid && tab[i].pgrp != lastPid
      ensures exists k :: 1 <= k <= 2 * NR_TASKS + 1 && lastPid == Candidate(old(lastPid), k) &&
                forall i :: 1 <= i < k ==> Taken(tab, Candidate(old(lastPid), i))
      ensures nr == -1 || (1 <= nr < NR_TASKS && !tab[nr].used)
      ensures forall i :: 1 <= i < (if nr == -1 then NR_TASKS else nr) ==> tab[i].used
    {
      ghost var last := lastPid;
      ghost var k := 0;
      var again := true;
      while again
        invariant 0 <= k <= 2 * NR_TASKS + 1 && 0 <= lastPid <= MAX_PID
        invariant lastPid == if k == 0 then last else Candidate(last, k)
        invariant forall i :: 1 <= i < k ==> Taken(tab, Candidate(last, i))
        invariant if again then k > 0 ==> Taken(tab, lastPid) else k > 0 && 1 <= lastPid && !Taken(tab, lastPid)
        decreases again, 2 * NR_TASKS + 1 - k
      {
        FewTaken(tab, last, k);
        lastPid := if lastPid == MAX_PID then 1 else lastPid + 1;
        NextCandidate(last, k, lastPid);
        k := k + 1;
        again := false;
        var i := 0;
        while i < NR_TASKS
          invariant 0 <= i <= NR_TASKS
          invariant again ==> Taken(tab, lastPid)
          invariant !again ==> forall j :: 0 <= j < i ==>
                      !(tab[j].used && (tab[j].pid == lastPid || tab[j].pgrp == lastPid))
        {
          if tab[i].used && (tab[i].pid == lastPid || tab[i].pgrp == lastPid) {
            again := true;
            break;
          }
          i := i + 1;
        }
      }
      nr := 1;
      while nr < NR_TASKS
        invariant 1 <= nr <= NR_TASKS && forall i :: 1 <= i < nr ==> tab[i].used
      {
        if !tab[nr].used {
          return;
        }
        nr := nr + 1;
      }
      return -1;
    }

    /** sys_fork in the current task, which is not a zombie; task 0 forks while task 1 does not exist.
        memory says that pages could be had. pid is -1 for EAGAIN. */
    method DoFork(memory: bool) returns (pid: int, nr: int)
      requires Valid() && tab[current].state != Zombie && (current == 0 ==> !tab[1].used)
      modifies this
      ensures Valid() && current == old(current) && Conserved(old(tab), tab)
      ensures pid == -1 ==> Abs() == old(Abs())
      ensures pid != -1 ==> memory && 0 < pid && !Taken(old(tab), pid) && Lowest(old(tab), nr)
      ensures pid != -1 ==> IsTask(current) && |old(tab)| == NR_TASKS &&
                            Forked(old(Abs()), Abs(), current, nr, Child(old(tab)[current], pid)) &&
                            Time(tab[nr], true) == 0 && Time(tab[nr], false) == 0
      ensures pid != -1 ==>
                var t, was := tab[nr], old(tab)[current];
                t.used && t.state == Running && t.pid == pid && t.pgrp == was.pgrp && t.pptr == current &&
                t.cptr == NULL && tab[current].cptr == nr && t.ysptr == NULL && t.osptr == was.cptr
      ensures pid == -1 <==> !memory || forall i :: 1 <= i < NR_TASKS ==> old(tab)[i].used
    {
      hide Inv;
      ghost var s := Abs();
      ShapeOf(s);
      nr := FindEmptyProcess();
      if nr == -1 || !memory {
        return -1, nr;
      }
      FreshPid(tab, lastPid);
      SlotForFork(s, current, nr);
      LinkChild(nr, lastPid);
      ForkKeeps(s, Abs(), current, nr, Child(s.tab[current], lastPid));
      TimeMoves(s.tab, tab, nr, nr);
      return lastPid, nr;
    }

    /** The end of sys_fork: the new task becomes the youngest child of the current one. */
    method LinkChild(nr: int, pid: int)
      requires Inv(Abs()) && IsTask(current) && 1 <= nr < NR_TASKS
      requires |tab| == NR_TASKS && tab[current].used && !tab[nr].used
      modifies `tab, `kids, `born, `clock
      ensures Forked(old(Abs()), Abs(), current, nr, Child(old(tab)[current], pid))
    {
      hide Inv;
      ghost var s := Abs();
      ShapeOf(s);
      var t := tab[current].(state := Running, pid := pid, utime := 0, stime := 0, cutime := 0, cstime := 0);
      var os := tab[current].cptr;
      HeadIn(s, current);
      tab := tab[nr := t.(used := true, pptr := current, cptr := NULL, ysptr := NULL, osptr := os)];
      if os != NULL {
        tab := tab[os := tab[os].(ysptr := nr)];
      }
      tab := tab[current := tab[current].(cptr := nr)];
      kids := kids[current := [nr] + kids[current]];
      born, clock := born[nr := clock], clock + 1;
    }

    // ------------------------------------------------------------ exit

    /** One turn of do_exit's loop. The write through task 1's youngest child is never through NULL. */
    method AdoptOne()
      requires Sized(Abs()) && Links(Abs(), current) && Facts(Abs(), current) && Leaving(Abs(), current)
      requires tab[current].cptr != NULL
      modifies `tab, `kids
      ensures Sized(Abs()) && Links(Abs(), current) && Facts(Abs(), current) && old(kids)[current] != []
      ensures kids == old(kids)[current := old(kids)[current][1..]][1 := [old(kids)[current][0]] + old(kids)[1]]
      ensures forall m :: IsTask(m) ==> SameBody(tab[m], old(tab)[m])
    {
      hide Links, Facts;
      ghost var s := Abs();
      HeadLoose(s, current, current);
      InitHasChild(s, current, current);
      HeadLoose(s, current, 1);
      AdoptApart(s, current);
      var p := tab[current].cptr;
      tab := tab[current := tab[current].(cptr := tab[p].osptr)];
      tab := tab[p := tab[p].(ysptr := NULL)];
      tab := tab[p := tab[p].(pptr := 1)];
      tab := tab[p := tab[p].(osptr := tab[1].cptr)];
      var young := tab[1].cptr;
      tab := tab[young := tab[young].(ysptr := p)];
      tab := tab[1 := tab[1].(cptr := p)];
      kids := kids[current := kids[current][1..]][1 := [p] + kids[1]];
      assert Adopted(s, Abs(), current);
      AdoptKeeps(s, Abs(), current);
    }

    /** The tail of do_exit for a task other than 0 and 1: it turns zombie and its children go to task 1. */
    method DoExit(code: int)
      requires Valid() && current != 0 && current != 1 && tab[current].state != Zombie
      modifies `tab, `kids
      ensures Valid() && Conserved(old(tab), tab)
      ensures kids == old(kids)[current := []][1 := Reversed(old(kids)[current]) + old(kids)[1]]
      ensures |tab| == NR_TASKS && |old(tab)| == NR_TASKS
      ensures forall m :: IsTask(m) ==> ExitAt(old(tab), tab, current, code, m)
      ensures tab[current].used && tab[current].state == Zombie && tab[current].exitCode == code
      ensures tab[current].cptr == NULL
    {
      hide Inv, Links, Facts;
      ghost var s0 := Abs();
      ShapeOf(s0);
      tab := tab[current := tab[current].(state := Zombie, exitCode := code)];
      ghost var s1 := Abs();
      SoftKeeps(s0, s1, current);
      ghost var moved: seq<int> := [];
      NoneMoved(s0.kids, current);
      HeadLoose(s1, current, current);
      while tab[current].cptr != NULL
        invariant Sized(Abs()) && Links(Abs(), current) && Facts(Abs(), current)
        invariant Handed(s0.kids, kids, current, moved)
        invariant tab[current].cptr == First(kids[current]) && (kids[current] != [] ==> IsTask(kids[current][0]))
        invariant forall m :: IsTask(m) ==> SameBody(tab[m], s1.tab[m])
        decreases |kids[current]|
      {
        ghost var before := kids;
        AdoptOne();
        HandedNext(s0.kids, before, kids, current, moved);
        moved := moved + [before[current][0]];
        HeadLoose(Abs(), current, current);
      }
      AllHanded(s0.kids, kids, current, moved);
      Tighten(Abs(), current);
      TimeMoves(s0.tab, tab, current, current);
    }

    // ------------------------------------------------------------ wait

    /** release(p) of the zombie p, entry k of the current task's child list. */
    method Release(p: int, ghost k: nat)
      requires Inv(Abs()) && IsTask(current) && k < |kids[current]| && kids[current][k] == p
      requires IsTask(p) && tab[p].state == Zombie
      modifies `tab, `kids
      ensures Released(old(Abs()), Abs(), current, p, k) && Inv(Abs())
    {
      hide Inv, Links, Facts;
      ghost var s := Abs();
      ShapeOf(s);
      Neighbours(s, current, p, k);
      var t := tab[p];
      tab := tab[p := t.(used := false)];
      if t.osptr != NULL {
        tab := tab[t.osptr := tab[t.osptr].(ysptr := t.ysptr)];
      }
      if t.ysptr != NULL {
        tab := tab[t.ysptr := tab[t.ysptr].(osptr := t.osptr)];
      } else {
        tab := tab[t.pptr := tab[t.pptr].(cptr := t.osptr)];
      }
      kids := kids[current := kids[current][..k] + kids[current][k + 1..]];
      assert Released(s, Abs(), current, p, k);
      ReleaseKeeps(s, Abs(), current, p, k);
    }

    /** The zombie branch of sys_waitpid. */
    method Reap(p: int, ghost k: nat) returns (r: Waited)
      requires Valid() && k < |kids[current]| && kids[current][k] == p && IsTask(p) && tab[p].state == Zombie
      modifies `tab, `kids
      ensures Valid() && Conserved(old(tab), tab)
      ensures Answered(old(Abs()), Abs(), current, p, k, r) && r.Reaped?
      ensures |tab| == NR_TASKS && |old(tab)| == NR_TASKS && tab[current].utime == old(tab)[current].utime
      ensures tab[current].cutime == old(tab)[current].cutime + old(tab)[p].utime + old(tab)[p].cutime
    {
      hide Inv, Links, Facts;
      ghost var s := Abs();
      ShapeOf(s);
      Neighbours(s, current, p, k);
      var t := tab[current];
      t := t.(cutime := t.cutime + tab[p].utime + tab[p].cutime);
      t := t.(cstime := t.cstime + tab[p].stime + tab[p].cstime);
      tab := tab[current := t];
      SoftStays(s, Abs());
      r := Reaped(tab[p].pid, tab[p].exitCode);
      Release(p, k);
      TimeMoves(s.tab, tab, current, p);
    }

    /** One pass of sys_waitpid by the current task; Asleep means that it now sleeps and will come again. */
    method WaitPid(pid: int, untraced: bool, nohang: bool) returns (r: Waited)
      requires Valid() && tab[current].state != Zombie
      modifies `tab, `kids
      ensures Valid() && Conserved(old(tab), tab)
      ensures WaitOutcome(old(Abs()), Abs(), current, pid, untraced, nohang, r)
      ensures WaitLaw(old(Abs()), Abs(), current, pid, untraced, r)
    {
      hide Inv, Links, Facts, Answered, WaitOutcome, NoneReady, SomePending, WaitLaw;
      ghost var s := Abs();
      ShapeOf(s);
      ghost var ks := kids[current];
      var group := tab[current].pgrp;
      var flag := false;
      ghost var k := 0;
      HeadIs(s, current);
      ScanStart(tab, ks, pid, group, untraced);
      var p := tab[current].cptr;
      while p != NULL
        invariant Abs() == s && 0 <= k <= |ks| && p == if k < |ks| then ks[k] else NULL
        invariant p == NULL ==> k == |ks|
        invariant NoneReady(tab, ks, k, pid, group, untraced) && (flag <==> SomePending(tab, ks, k, pid, group))
        decreases |ks| - k
      {
        Neighbours(s, current, p, k);
        assert Idx(|ks|, k);
        if Wanted(tab[p], pid, group) {
          if tab[p].state == Stopped {
            if untraced && tab[p].exitCode != 0 {
              r := Reported(tab[p].pid, tab[p].exitCode * 256 + 0x7f);
              tab := tab[p := tab[p].(exitCode := 0)];
              SoftStays(s, Abs());
              TimeMoves(s.tab, tab, p, p);
              assert Chosen(s, current, pid, untraced, k);
              StoppedAnswer(s, Abs(), current, p, k, r);
              WaitFound(s, Abs(), current, pid, untraced, nohang, r, k);
              WaitMeans(s, Abs(), current, pid, untraced, nohang, r);
              return;
            }
          } else if tab[p].state == Zombie {
            assert Chosen(s, current, pid, untraced, k);
            r := Reap(p, k);
            ShapeOf(Abs());
            WaitFound(s, Abs(), current, pid, untraced, nohang, r, k);
            WaitMeans(s, Abs(), current, pid, untraced, nohang, r);
            return;
          } else {
            flag := true;
          }
        }
        ScanNext(tab, ks, k, pid, group, untraced);
        p := tab[p].osptr;
        k := k + 1;
      }
      if flag {
        if nohang {
          WaitEmpty(s, s, current, pid, untraced, nohang, Nothing);
          WaitMeans(s, s, current, pid, untraced, nohang, Nothing);
          return Nothing;
        }
        tab := tab[current := tab[current].(state := Interruptible)];
        SoftStays(s, Abs());
        TimeMoves(s.tab, tab, current, current);
        WaitEmpty(s, Abs(), current, pid, untraced, nohang, Asleep);
        WaitMeans(s, Abs(), current, pid, untraced, nohang, Asleep);
        return Asleep;
      }
      WaitEmpty(s, s, current, pid, untraced, nohang, NoChild);
      WaitMeans(s, s, current, pid, untraced, nohang, NoChild);
      return NoChild;
    }

    // ------------------------------------------------------------ the rest

    /** audit_ptree's tests of one task, counting its complaints; it follows no link that is bad. */
    method AuditOne(i: int) returns (warned: nat)
      requires |tab| == NR_TASKS && IsTask(i)
      ensures warned == 0 <==> Audited(tab, i)
    {
      var t := tab[i];
      warned := 0;
      if BadTask(tab, t.pptr) {
        warned := warned + 1;
      }
      if BadTask(tab, t.cptr) {
        warned := warned + 1;
      }
      if BadTask(tab, t.ysptr) {
        warned := warned + 1;
      }
      if BadTask(tab, t.osptr) {
        warned := warned + 1;
      }
      if t.pptr == i {
        warned := warned + 1;
      }
      if t.cptr == i {
        warned := warned + 1;
      }
      if t.ysptr == i {
        warned := warned + 1;
      }
      if t.osptr == i {
        warned := warned + 1;
      }
      if t.osptr != NULL && !BadTask(tab, t.osptr) {
        if t.pptr != tab[t.osptr].pptr {
          warned := warned + 1;
        }
        if tab[t.osptr].ysptr != i {
          warned := warned + 1;
        }
      }
      if t.ysptr != NULL && !BadTask(tab, t.ysptr) {
        if t.pptr != tab[t.ysptr].pptr {
          warned := warned + 1;
        }
        if tab[t.ysptr].osptr != i {
          warned := warned + 1;
        }
      }
      if t.cptr != NULL && !BadTask(tab, t.cptr) {
        if tab[t.cptr].pptr != i {
          warned := warned + 1;
        }
        if tab[t.cptr].ysptr != NULL {
          warned := warned + 1;
        }
      }
    }

    /** audit_ptree, counting its complaints. */
    method AuditPtree() returns (warned: nat)
      requires |tab| == NR_TASKS
      ensures warned == 0 <==> forall i :: 0 < i < NR_TASKS && tab[i].used ==> Audited(tab, i)
    {
      warned := 0;
      var i := 1;
      while i < NR_TASKS
        invariant 1 <= i <= NR_TASKS
        invariant warned == 0 <==> forall j :: 0 < j < i && tab[j].used ==> Audited(tab, j)
      {
        if tab[i].used {
          var n := AuditOne(i);
          warned := warned + n;
        }
        i := i + 1;
      }
    }

    /** do_timer's charge to the current task. */
    method DoTick(user: bool)
      requires Valid()
      modifies `tab
      ensures Valid() && forall u :: Total(tab, u) == old(Total(tab, u)) + Bit(u == user)
      ensures tab == old(tab)[current := Charge(old(tab)[current], user)]
      ensures |tab| == NR_TASKS && tab[current].utime == old(tab)[current].utime + Bit(user) &&
              tab[current].stime == old(tab)[current].stime + Bit(!user)
    {
      hide Inv;
      ghost var s := Abs();
      ShapeOf(s);
      var t := tab[current];
      if user {
        t := t.(utime := t.utime + 1);
      } else {
        t := t.(stime := t.stime + 1);
      }
      tab := tab[current := t];
      SoftStays(s, Abs());
      forall u ensures Total(tab, u) == Total(s.tab, u) + Bit(u == user) {
        SumMoves(s.tab, tab, current, current, u, NR_TASKS);
      }
    }

    /** What other parts of the kernel do to a task that is no zombie: stop, wake or regroup it. */
    method DoChange(i: int, state: RunState, exitCode: int, pgrp: int)
      requires Valid() && IsTask(i) && tab[i].used && tab[i].state != Zombie && state != Zombie
      modifies `tab
      ensures Valid() && Conserved(old(tab), tab)
      ensures tab == old(tab)[i := old(tab)[i].(state := state, exitCode := exitCode, pgrp := pgrp)]
    {
      hide Inv;
      ghost var s := Abs();
      ShapeOf(s);
      tab := tab[i := tab[i].(state := state, exitCode := exitCode, pgrp := pgrp)];
      SoftStays(s, Abs());
      TimeMoves(s.tab, tab, i, i);
    }

    method Do(e: Event)
      requires Valid()
      modifies this
      ensures Valid() && (forall u :: Total(tab, u) == old(Total(tab, u)) + Bit(e == Tick(u)))
      ensures Did(old(Abs()), old(current), Abs(), current, e)
    {
      hide Inv, Forked, WaitOutcome;
      ShapeOf(Abs());
      var alive := tab[current].state != Zombie;
      match e
      case Fork(memory) =>
        if alive && (current == 0 ==> !tab[1].used) { var pid, nr := DoFork(memory); ShapeOf(Abs()); }
      case Exit(code) =>
        if alive && current != 0 && current != 1 { DoExit(code); ShapeOf(Abs()); }
      case Wait(pid, untraced, nohang) =>
        if alive { var r := WaitPid(pid, untraced, nohang); ShapeOf(Abs()); }
      case Tick(user) =>
        DoTick(user);
        ShapeOf(Abs());
      case Switch(next) =>
        if IsTask(next) && tab[next].used { current := next; }
      case Change(i, state, exitCode, pgrp) =>
        if IsTask(i) && tab[i].used && tab[i].state != Zombie && state != Zombie { DoChange(i, state, exitCode, pgrp); }
    }

    /** Any run: the tree stays sound, audit_ptree never complains, and every tick is charged once and kept. */
    method Run(es: seq<Event>) returns (warned: nat, ghost trace: seq<(Sys, int)>)
      requires Valid()
      modifies this
      ensures |trace| == |es| + 1 && trace[0] == (old(Abs()), old(current)) && trace[|es|] == (Abs(), current)
      ensures forall k :: 0 <= k < |es| ==> Did(trace[k].0, trace[k].1, trace[k + 1].0, trace[k + 1].1, es[k])
      ensures Valid() && (forall u :: Total(tab, u) == old(Total(tab, u)) + Ticks(es, u)) && warned == 0
      ensures forall i :: IsTask(i) && tab[i].used && tab[i].state == Zombie ==> kids[i] == []
    {
      hide Inv, Did;
      warned := 0;
      trace := [(Abs(), current)];
      var k := 0;
      while k < |es|
        invariant 0 <= k <= |es| && Valid() && warned == 0
        invariant forall u :: Total(tab, u) == old(Total(tab, u)) + Ticks(es[..k], u)
        invariant |trace| == k + 1 && trace[0] == (old(Abs()), old(current)) && trace[k] == (Abs(), current)
        invariant forall j :: 0 <= j < k ==> Did(trace[j].0, trace[j].1, trace[j + 1].0, trace[j + 1].1, es[j])
      {
        Do(es[k]);
        trace := trace + [(Abs(), current)];
        AllAudited(Abs());
        var w := AuditPtree();
        warned := warned + w;
        TicksSnoc(es[..k], es[k], true);
        TicksSnoc(es[..k], es[k], false);
        assert es[..k + 1] == es[..k] + [es[k]];
        k := k + 1;
      }
      assert es[..k] == es;
      ZombiesAreChildless(Abs());
    }
  }

  lemma AllAudited(s: Sys)
    requires Inv(s)
    ensures Sized(s) && forall i :: 0 < i < NR_TASKS && s.tab[i].used ==> Audited(s.tab, i)
  {
    forall i | 0 < i < NR_TASKS && s.tab[i].used ensures Audited(s.tab, i) {
      LinksAudited(s, i);
    }
  }

  lemma ZombiesAreChildless(s: Sys)
    requires Inv(s)
    ensures Sized(s) && forall i :: IsTask(i) && s.tab[i].used && s.tab[i].state == Zombie ==> s.kids[i] == []
  {
  }

  // ------------------------------------------------------------ what waitpid answers

  /** Task c is a child of task cur that waitpid has something to do with: not stopped, or stopped and to be
      reported. */
  predicate Counts(s: Sys, cur: int, c: int, untraced: bool) {
    IsTask(c) && Sized(s) && s.tab[c].used && c != 0 && s.tab[c].pptr == cur &&
    (s.tab[c].state != Stopped || (untraced && s.tab[c].exitCode != 0))
  }

  predicate IsDead(s: Sys, cur: int, c: int) {
    Counts(s, cur, c, false) && s.tab[c].state == Zombie
  }

  predicate Told(r: Waited) {
    r.Reaped? || r.Reported?
  }

  /** The answer is about child c: a zombie that has left the table, or a stopped child. */
  ghost predicate About(s: Sys, s': Sys, cur: int, c: int, untraced: bool, r: Waited) {
    Counts(s, cur, c, untraced) && Sized(s') && Told(r) && r.pid == s.tab[c].pid &&
    if r.Reaped? then s.tab[c].state == Zombie && r.status == s.tab[c].exitCode && !s'.tab[c].used
    else s.tab[c].state == Stopped && r.status == s.tab[c].exitCode * 256 + 127
  }

  /** What waitpid answers, by the pid asked for: one child by its pid; with 0 the children of the caller's group; with
      -1 any child; with other negative numbers the children of the group of that number. */
  ghost predicate WaitLaw(s: Sys, s': Sys, cur: int, pid: int, untraced: bool, r: Waited) {
    Sized(s) && IsTask(cur) &&
    (Told(r) ==> exists c :: About(s, s', cur, c, untraced, r) && (pid == 0 ==> s.tab[c].pgrp == s.tab[cur].pgrp) &&
                             (pid < -1 ==> s.tab[c].pgrp == -pid)) &&
    (pid > 0 && Told(r) ==> r.pid == pid) &&
    (pid > 0 ==> forall c :: IsDead(s, cur, c) && s.tab[c].pid == pid ==> r == Reaped(pid, s.tab[c].exitCode)) &&
    (pid == 0 ==> forall c :: IsDead(s, cur, c) && s.tab[c].pgrp == s.tab[cur].pgrp ==> Told(r)) &&
    (pid == -1 ==> forall c :: IsDead(s, cur, c) ==> Told(r)) &&
    (pid < -1 ==> forall c :: IsDead(s, cur, c) && s.tab[c].pgrp == -pid ==> Told(r)) &&
    (pid > 0 ==> (r.NoChild? <==> forall c :: Counts(s, cur, c, untraced) ==> s.tab[c].pid != pid)) &&
    (pid == 0 ==> (r.NoChild? <==> forall c :: Counts(s, cur, c, untraced) ==> s.tab[c].pgrp != s.tab[cur].pgrp)) &&
    (pid == -1 ==> (r.NoChild? <==> forall c :: !Counts(s, cur, c, untraced))) &&
    (pid < -1 ==> (r.NoChild? <==> forall c :: Counts(s, cur, c, untraced) ==> s.tab[c].pgrp != -pid))
  }

  /** The children are those in the list. */
  lemma ChildInList(s: Sys, cur: int, c: int, untraced: bool) returns (k: int)
    requires Inv(s) && Counts(s, cur, c, untraced) && IsTask(cur)
    ensures Sized(s) && Idx(|s.kids[cur]|, k) && s.kids[cur][k] == c
  {
    assert HasParent(s, c);
    k :| 0 <= k < |s.kids[cur]| && s.kids[cur][k] == c;
  }

  lemma ListedIsChild(s: Sys, cur: int, k: int)
    requires Inv(s) && IsTask(cur) && Sized(s) && Idx(|s.kids[cur]|, k)
    ensures var c := s.kids[cur][k]; IsTask(c) && c != 0 && s.tab[c].used && s.tab[c].pptr == cur
  {
    assert ListOk(s.tab, cur, s.kids[cur], false) && LinkedAt(s.tab, cur, s.kids[cur], k, false);
  }

  lemma WaitMeans(s: Sys, s': Sys, cur: int, pid: int, untraced: bool, nohang: bool, r: Waited)
    requires Inv(s) && WaitOutcome(s, s', cur, pid, untraced, nohang, r)
    ensures WaitLaw(s, s', cur, pid, untraced, r)
  {
    hide Inv, Answered;
    if Told(r) {
      WaitTold(s, s', cur, pid, untraced, nohang, r);
    } else {
      WaitUntold(s, s', cur, pid, untraced, nohang, r);
    }
  }

  lemma WaitTold(s: Sys, s': Sys, cur: int, pid: int, untraced: bool, nohang: bool, r: Waited)
    requires Inv(s) && WaitOutcome(s, s', cur, pid, untraced, nohang, r) && Told(r)
    ensures WaitLaw(s, s', cur, pid, untraced, r)
  {
    hide Inv;
    var ks := s.kids[cur];
    var k :| Idx(|ks|, k) && Chosen(s, cur, pid, untraced, k) && Answered(s, s', cur, ks[k], k, r);
    var c := ks[k];
    ListedIsChild(s, cur, k);
    assert About(s, s', cur, c, untraced, r);
    forall e | IsDead(s, cur, e) && s.tab[e].pid == r.pid ensures e == c {
      SamePid(s, c, e);
    }
    if pid == -1 || pid < -1 || pid == 0 { assert Counts(s, cur, c, untraced); }
  }

  lemma SamePid(s: Sys, c: int, e: int)
    requires Inv(s) && IsTask(c) && IsTask(e) && s.tab[c].used && s.tab[e].used && s.tab[c].pid == s.tab[e].pid
    ensures c == e
  {
    assert PidsApart(s.tab, c, e);
  }

  lemma WaitUntold(s: Sys, s': Sys, cur: int, pid: int, untraced: bool, nohang: bool, r: Waited)
    requires Inv(s) && WaitOutcome(s, s', cur, pid, untraced, nohang, r) && !Told(r)
    ensures WaitLaw(s, s', cur, pid, untraced, r)
  {
    hide Inv;
    var ks, group := s.kids[cur], s.tab[cur].pgrp;
    forall c | Counts(s, cur, c, untraced) && Wanted(s.tab[c], pid, group)
      ensures r != NoChild && s.tab[c].state != Zombie
    {
      var k := ChildInList(s, cur, c, untraced);
      assert !Ready(s.tab[ks[k]], pid, group, untraced) && Pending(s.tab[ks[k]], pid, group);
    }
    forall c | IsDead(s, cur, c) ensures !Wanted(s.tab[c], pid, group) {
      assert Counts(s, cur, c, untraced);
    }
    if r != NoChild {
      var i :| Idx(|ks|, i) && IsTask(ks[i]) && Pending(s.tab[ks[i]], pid, group);
      ListedIsChild(s, cur, i);
      assert Counts(s, cur, ks[i], untraced);
    }
  }

  lemma WaitFound(s: Sys, s': Sys, cur: int, pid: int, untraced: bool, nohang: bool, r: Waited, k: nat)
    requires Sized(s) && Sized(s') && IsTask(cur) && k < |s.kids[cur]| && (r.Reaped? || r.Reported?)
    requires Chosen(s, cur, pid, untraced, k) && Answered(s, s', cur, s.kids[cur][k], k, r)
    ensures WaitOutcome(s, s', cur, pid, untraced, nohang, r)
  {
  }

  lemma WaitEmpty(s: Sys, s': Sys, cur: int, pid: int, untraced: bool, nohang: bool, r: Waited)
    requires Sized(s) && Sized(s') && IsTask(cur) && (r == Nothing || r == Asleep || r == NoChild)
    requires NoneReady(s.tab, s.kids[cur], |s.kids[cur]|, pid, s.tab[cur].pgrp, untraced)
    requires SomePending(s.tab, s.kids[cur], |s.kids[cur]|, pid, s.tab[cur].pgrp) <==> r != NoChild
    requires r != NoChild ==> (nohang <==> r == Nothing)
    requires s' == if r == Asleep then s.(tab := s.tab[cur := s.tab[cur].(state := Interruptible)]) else s
    ensures WaitOutcome(s, s', cur, pid, untraced, nohang, r)
  {
  }

  lemma StoppedAnswer(s: Sys, s': Sys, cur: int, p: int, k: nat, r: Waited)
    requires Sized(s) && IsTask(cur) && IsTask(p) && s.tab[p].state == Stopped
    requires r == Reported(s.tab[p].pid, s.tab[p].exitCode * 256 + 0x7f)
    requires s' == s.(tab := s.tab[p := s.tab[p].(exitCode := 0)])
    ensures Answered(s, s', cur, p, k, r)
  {
  }

  lemma ScanStart(tab: seq<Task>, ks: seq<int>, pid: int, group: int, untraced: bool)
    requires |tab| == NR_TASKS
    ensures NoneReady(tab, ks, 0, pid, group, untraced) && !SomePending(tab, ks, 0, pid, group)
  {
  }

  lemma ScanNext(tab: seq<Task>, ks: seq<int>, k: nat, pid: int, group: int, untraced: bool)
    requires |tab| == NR_TASKS && k < |ks| && IsTask(ks[k])
    ensures SomePending(tab, ks, k + 1, pid, group) <==>
              SomePending(tab, ks, k, pid, group) || Pending(tab[ks[k]], pid, group)
    ensures NoneReady(tab, ks, k + 1, pid, group, untraced) <==>
            NoneReady(tab, ks, k, pid, group, untraced) && !Ready(tab[ks[k]], pid, group, untraced)
  {
  }

  lemma HeadIs(s: Sys, p: int)
    requires Inv(s) && IsTask(p)
    ensures Sized(s) && s.tab[p].cptr == First(s.kids[p]) && (s.kids[p] != [] ==> s.kids[p][0] != NULL)
  {
    assert ListOk(s.tab, p, s.kids[p], false);
    if s.kids[p] != [] { Member(s, NULL, p, s.kids[p][0]); }
  }

  lemma SoftStays(s: Sys, s': Sys)
    requires Inv(s) && Soft(s, s', NULL)
    ensures Inv(s')
  {
    SoftKeeps(s, s', NULL);
  }

  /** Entry k of q's child list and the tasks it is linked to. */
  lemma Neighbours(s: Sys, q: int, p: int, k: nat)
    requires Inv(s) && IsTask(q) && |s.kids| == NR_TASKS && k < |s.kids[q]| && s.kids[q][k] == p
    ensures Sized(s) && IsTask(p) && p != q && p != NULL && s.tab[p].used && s.tab[p].pptr == q
    ensures s.tab[p].osptr == After(s.kids[q], k) && s.tab[p].ysptr == Before(s.kids[q], k)
    ensures k > 0 ==> IsTask(s.kids[q][k - 1]) && s.kids[q][k - 1] != p && s.kids[q][k - 1] != q
    ensures k + 1 < |s.kids[q]| ==> IsTask(s.kids[q][k + 1]) && s.kids[q][k + 1] != p && s.kids[q][k + 1] != q
  {
    var ks := s.kids[q];
    assert ListOk(s.tab, q, ks, false);
    Member(s, NULL, q, p);
    assert Idx(|ks|, k) && LinkedAt(s.tab, q, ks, k, false);
    if k > 0 { Member(s, NULL, q, ks[k - 1]); assert Idx(|ks|, k - 1); }
    if k + 1 < |ks| { Member(s, NULL, q, ks[k + 1]); assert Idx(|ks|, k + 1); }
  }

  // ------------------------------------------------------------ reading the tree

  predicate SameBody(a: Task, b: Task) {
    a.used == b.used && a.state == b.state && a.pid == b.pid && a.pgrp == b.pgrp && a.exitCode == b.exitCode &&
    a.utime == b.utime && a.stime == b.stime && a.cutime == b.cutime && a.cstime == b.cstime
  }

  lemma ShapeOf(s: Sys)
    requires Inv(s)
    ensures Sized(s)
  {
  }

  lemma FreshPid(tab: seq<Task>, pid: int)
    requires |tab| == NR_TASKS && !Taken(tab, pid)
    ensures forall i :: IsTask(i) && tab[i].used ==> tab[i].pid != pid
  {
  }

  lemma SlotForFork(s: Sys, cur: int, nr: int)
    requires Inv(s) && IsTask(cur) && s.tab[cur].used && s.tab[cur].state != Zombie && (cur == 0 ==> !s.tab[1].used)
    requires 1 <= nr < NR_TASKS && !s.tab[nr].used && forall i :: 1 <= i < nr ==> s.tab[i].used
    ensures MayFork(s, cur, nr)
  {
  }

  lemma HeadIn(s: Sys, p: int)
    requires Inv(s) && IsTask(p) && s.tab[p].used
    ensures s.tab[p].cptr == NULL || (IsTask(s.tab[p].cptr) && s.tab[p].cptr != p && s.tab[s.tab[p].cptr].used)
  {
    assert ListOk(s.tab, p, s.kids[p], false);
    if s.kids[p] != [] { Member(s, NULL, p, s.kids[p][0]); }
  }

  lemma HeadLoose(s: Sys, loose: int, p: int)
    requires Sized(s) && IsTask(p) && Links(s, loose)
    ensures s.tab[p].cptr == First(s.kids[p])
    ensures s.kids[p] != [] ==> IsTask(s.kids[p][0]) && s.kids[p][0] != p && s.tab[s.kids[p][0]].pptr == p
  {
    assert ListOk(s.tab, p, s.kids[p], p == loose);
    if s.kids[p] != [] { Member(s, loose, p, s.kids[p][0]); }
  }

  /** The first of cur's children, `moved`, have gone to the front of task 1's list, one after the other. */
  ghost predicate Handed(kids0: seq<seq<int>>, kids: seq<seq<int>>, cur: int, moved: seq<int>) {
    |kids0| == |kids| == NR_TASKS && IsTask(cur) && cur != 1 && kids0[cur] == moved + kids[cur] &&
    kids[1] == Reversed(moved) + kids0[1] && forall i :: IsTask(i) && i != cur && i != 1 ==> kids[i] == kids0[i]
  }

  lemma NoneMoved(kids: seq<seq<int>>, cur: int)
    requires |kids| == NR_TASKS && IsTask(cur) && cur != 1
    ensures Handed(kids, kids, cur, [])
  {
  }

  lemma HandedNext(kids0: seq<seq<int>>, kids: seq<seq<int>>, kids': seq<seq<int>>, cur: int, moved: seq<int>)
    requires Handed(kids0, kids, cur, moved) && kids[cur] != []
    requires kids' == kids[cur := kids[cur][1..]][1 := [kids[cur][0]] + kids[1]]
    ensures Handed(kids0, kids', cur, moved + [kids[cur][0]])
  {
    ReversedSnoc(moved, kids[cur][0]);
    assert kids[cur] == [kids[cur][0]] + kids[cur][1..];
  }

  lemma AllHanded(kids0: seq<seq<int>>, kids: seq<seq<int>>, cur: int, moved: seq<int>)
    requires Handed(kids0, kids, cur, moved) && kids[cur] == []
    ensures kids == kids0[cur := []][1 := Reversed(kids0[cur]) + kids0[1]]
  {
    assert moved == kids0[cur];
  }

  lemma AdoptApart(s: Sys, cur: int)
    requires Links(s, cur) && Leaving(s, cur) && s.kids[cur] != [] && s.kids[1] != []
    ensures s.kids[cur][0] != 1 && s.kids[cur][0] != s.kids[1][0] && IsTask(1)
  {
    Member(s, cur, cur, s.kids[cur][0]);
    Member(s, cur, 1, s.kids[1][0]);
    assert HasParent(s, 1);
  }

  lemma NextCandidate(last: int, k: nat, next: int)
    requires 0 <= last <= MAX_PID
    requires var now := (if k == 0 then last else Candidate(last, k)); next == if now == MAX_PID then 1 else now + 1
    ensures next == Candidate(last, k + 1)
  {
  }

  lemma {:induction false} Empty(tab: seq<Task>, user: bool, n: nat)
    requires n <= |tab| && forall i :: 0 <= i < |tab| ==> Time(tab[i], user) == 0
    ensures Sum(tab, user, n) == 0
  {
    if n > 0 { Empty(tab, user, n - 1); }
  }

  // ------------------------------------------------------------ why task 1 must not exit

  /** The loop's body as it stands, for any task cur; Crash where it would write through NULL. */
  datatype Turn = Crash | Next(tab: seq<Task>)

  function Body(tab: seq<Task>, cur: int): Turn
    requires |tab| == NR_TASKS && IsTask(cur) && IsTask(tab[cur].cptr)
  {
    var p := tab[cur].cptr;
    var tab1 := tab[cur := tab[cur].(cptr := tab[p].osptr)];
    var tab2 := tab1[p := tab1[p].(ysptr := NULL, pptr := 1, osptr := tab1[1].cptr)];
    var young := tab2[1].cptr;
    if !IsTask(young) then Crash
    else
      var tab3 := tab2[young := tab2[young].(ysptr := p)];
      Next(tab3[1 := tab3[1].(cptr := p)])
  }

  /** Were task 1 itself to run the loop, it would write through NULL when it has one child and go round
      forever, nothing changing, when it has more; it is harmless exactly when task 1 has no child. */
  lemma InitMustStay(s: Sys)
    requires Inv(s) && s.kids[1] != []
    ensures IsTask(s.tab[1].cptr)
    ensures |s.kids[1]| == 1 ==> Body(s.tab, 1) == Crash
    ensures |s.kids[1]| > 1 ==> Body(s.tab, 1) == Next(s.tab)
  {
    var ks := s.kids[1];
    HeadIs(s, 1);
    Neighbours(s, 1, ks[0], 0);
    if |ks| > 1 {
      Neighbours(s, 1, ks[1], 1);
      var t := Body(s.tab, 1);
      assert t.Next? && t.tab == s.tab;
    }
  }
}

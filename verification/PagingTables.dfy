/** Giving a task a page table, taking it back, and starting or ending the life of a task. */
module PagingTables {
  import opened Basics
  import opened PagingModel
  import opened PagingSteps

  function EmptyTable(): (t: seq<Pte>)
    ensures |t| == ENTRIES && forall i :: 0 <= i < ENTRIES ==> t[i] == None
  {
    seq(ENTRIES, _ => None)
  }

  predicate IsEmpty(x: Pde) {
    x.Table? ==> |x.ptes| == ENTRIES && forall i :: 0 <= i < ENTRIES ==> x.ptes[i] == None
  }

  predicate TableAt(x: Pde, f: nat) {
    x.Table? && x.frame == f
  }

  lemma SetDirEntries(dir: seq<Pde>, d: int, x: Pde, f: nat)
    requires 0 <= d < |dir| && IsEmpty(dir[d]) && IsEmpty(x)
    ensures PteRefs(dir[d := x], f) == PteRefs(dir, f) && SlotRefs(dir[d := x], f) == SlotRefs(dir, f)
  {
  }

  lemma SetDirTables(dir: seq<Pde>, d: int, x: Pde, f: nat)
    requires |dir| == ENTRIES && IsDir(d)
    ensures |DirRefs(dir[d := x], f)| == |DirRefs(dir, f)| - Bit(TableAt(dir[d], f)) + Bit(TableAt(x, f))
  {
    var a, b := DirRefs(dir, f), DirRefs(dir[d := x], f);
    assert ByDir(d) in a <==> TableAt(dir[d], f);
    assert ByDir(d) in b <==> TableAt(x, f);
    assert a - {ByDir(d)} == b - {ByDir(d)};
    hide DirRefs;
    OneApart(a, b, ByDir(d));
  }

  /** Directory entry d gains or loses an empty table, whose frame f passes from or to the kernel's hands. */
  ghost predicate TableStep(s: State, s': State, d: int, x: Pde, f: nat) {
    |s.dir| == ENTRIES && IsDir(d) && IsEmpty(s.dir[d]) && IsEmpty(x) &&
    (s.dir[d].Table? <==> !x.Table?) && TableAt(if x.Table? then x else s.dir[d], f) &&
    (f in s.held <==> x.Table?) &&
    s' == s.(dir := s.dir[d := x], held := if x.Table? then s.held - {f} else s.held + {f})
  }

  lemma TableStepFrame(s: State, s': State, d: int, x: Pde, f: nat, g: int)
    requires TableStep(s, s', d, x, f) && IsFrame(g) && FrameOk(s, g)
    requires g == f ==> Pool(s, f) && Count(s, f) == 1
    ensures FrameOk(s', g)
  {
    RefsSize(s, g);
    RefsSize(s', g);
    SetDirEntries(s.dir, d, x, g);
    SetDirTables(s.dir, d, x, g);
  }

  lemma TableStepEntry(s: State, s': State, d: int, x: Pde, f: nat, d2: int, i2: int)
    requires TableStep(s, s', d, x, f) && EntryOk(s, d2, i2)
    ensures EntryOk(s', d2, i2) && SameView(s, s', d2, i2) && Entry(s', d2, i2) == Entry(s, d2, i2)
  {
  }

  /** Directory entry d has its table in the same frame, or still has none. */
  predicate SameTable(s: State, s': State, d: int) {
    (HasTable(s', d) <==> HasTable(s, d)) && (HasTable(s, d) ==> s'.dir[d].frame == s.dir[d].frame)
  }

  ghost predicate SameEntries(s: State, s': State) {
    forall d, i :: IsUser(d, i) ==> Entry(s', d, i) == Entry(s, d, i)
  }

  lemma TableStepKeeps(s: State, s': State, d: int, x: Pde, f: nat)
    requires Core(s) && TableStep(s, s', d, x, f) && LiveDir(s, d)
    requires IsFrame(f) && Pool(s, f) && Count(s, f) == 1
    ensures Core(s') && SameViews(s, s') && SameEntries(s, s') && (Clean(s) ==> Clean(s'))
  {
    TableStepCore(s, s', d, x, f);
    TableStepSeen(s, s', d, x, f);
  }

  lemma TableStepCore(s: State, s': State, d: int, x: Pde, f: nat)
    requires Core(s) && TableStep(s, s', d, x, f) && LiveDir(s, d)
    requires IsFrame(f) && Pool(s, f) && Count(s, f) == 1
    ensures Core(s')
  {
    hide FrameOk, SlotOk, DirOk, EntryOk;
    forall g | IsFrame(g) ensures FrameOk(s', g) {
      TableStepFrame(s, s', d, x, f, g);
    }
    TableStepSlots(s, s', d, x, f);
    TableStepDirs(s, s', d, x, f);
    forall d2, i2 | IsUser(d2, i2) ensures EntryOk(s', d2, i2) {
      TableStepEntry(s, s', d, x, f, d2, i2);
    }
  }

  lemma TableStepSlots(s: State, s': State, d: int, x: Pde, f: nat)
    requires Core(s) && TableStep(s, s', d, x, f)
    ensures forall n :: IsSlot(n) ==> SlotOk(s', n)
  {
    hide FrameOk, DirOk, EntryOk;
    forall n | IsSlot(n) ensures SlotOk(s', n) {
      assert SlotOk(s, n);
      SetDirEntries(s.dir, d, x, n);
    }
  }

  lemma TableStepDirs(s: State, s': State, d: int, x: Pde, f: nat)
    requires Core(s) && TableStep(s, s', d, x, f) && LiveDir(s, d)
    requires IsFrame(f) && Pool(s, f) && Count(s, f) == 1
    ensures forall d2 :: IsDir(d2) ==> DirOk(s', d2)
  {
    hide FrameOk, SlotOk, EntryOk;
    forall d2 | IsDir(d2) ensures DirOk(s', d2) {
      assert DirOk(s, d2);
    }
  }

  lemma TableStepSeen(s: State, s': State, d: int, x: Pde, f: nat)
    requires Core(s) && TableStep(s, s', d, x, f)
    ensures SameViews(s, s') && SameEntries(s, s') && (Clean(s) ==> Clean(s'))
  {
    forall d2, i2 | IsUser(d2, i2) ensures SameView(s, s', d2, i2) && Entry(s', d2, i2) == Entry(s, d2, i2) {
      assert EntryOk(s, d2, i2);
      TableStepEntry(s, s', d, x, f, d2, i2);
    }
  }

  function NewTable(s: State, d: int, f: nat): State
    requires 0 <= d < |s.dir|
  {
    s.(dir := s.dir[d := Table(f, EmptyTable())], held := s.held - {f})
  }

  lemma NewTableKeeps(s: State, d: int, f: nat)
    requires Core(s) && LiveDir(s, d) && !HasTable(s, d) && f in s.held
    ensures Core(NewTable(s, d, f)) && SameViews(s, NewTable(s, d, f)) && SameEntries(s, NewTable(s, d, f))
    ensures Clean(s) ==> Clean(NewTable(s, d, f))
  {
    HeldIsUnmapped(s, f);
    TableStepKeeps(s, NewTable(s, d, f), d, Table(f, EmptyTable()), f);
  }

  function FreeTable(s: State, d: int): State
    requires HasTable(s, d)
  {
    s.(dir := s.dir[d := NoTable], held := s.held + {s.dir[d].frame})
  }

  lemma FreeTableKeeps(s: State, d: int)
    requires Core(s) && IsDir(d) && HasTable(s, d) && forall i :: 0 <= i < ENTRIES ==> Entry(s, d, i) == None
    ensures Core(FreeTable(s, d)) && SameViews(s, FreeTable(s, d)) && SameEntries(s, FreeTable(s, d))
    ensures Clean(s) ==> Clean(FreeTable(s, d))
  {
    assert DirOk(s, d);
    var f := s.dir[d].frame;
    if f in s.held { HeldIsUnmapped(s, f); }
    forall i | 0 <= i < ENTRIES ensures s.dir[d].ptes[i] == None {
      assert Entry(s, d, i) == None;
    }
    TableStepKeeps(s, FreeTable(s, d), d, NoTable, f);
  }

  // ---------------------------------------------------------------- tasks

  /** Directory entries of task t. */
  predicate Owns(t: int, d: int) {
    d / TASK_DIRS == t
  }

  function SetTask(s: State, t: int, task: Task): State
    requires 0 <= t < |s.tasks|
  {
    s.(tasks := s.tasks[t := task])
  }

  lemma SetTaskKeeps(s: State, t: int, task: Task)
    requires Core(s) && IsTask(t) && TaskOk(s.cfg, task)
    requires forall d :: IsDir(d) && Owns(t, d) ==> !HasTable(s, d)
    ensures Core(SetTask(s, t, task))
    ensures Clean(s) ==> Clean(SetTask(s, t, task))
    ensures forall d, i :: IsUser(d, i) && !Owns(t, d) ==> View(SetTask(s, t, task), d, i) == View(s, d, i)
    ensures forall d, i :: IsUser(d, i) && Owns(t, d) ==>
      View(SetTask(s, t, task), d, i) == Fresh(s.cfg.files, task, d, i)
  {
    var s' := SetTask(s, t, task);
    SetTaskCore(s, t, task);
    forall d, i | IsUser(d, i)
      ensures if Owns(t, d) then CleanAt(s', d, i) && View(s', d, i) == Fresh(s.cfg.files, task, d, i)
              else SameView(s, s', d, i)
    {
      assert IsDir(d);
      SetTaskView(s, t, task, d, i);
    }
  }

  lemma SetTaskCore(s: State, t: int, task: Task)
    requires Core(s) && IsTask(t) && TaskOk(s.cfg, task)
    requires forall d :: IsDir(d) && Owns(t, d) ==> !HasTable(s, d)
    ensures Core(SetTask(s, t, task))
  {
  }

  lemma SetTaskView(s: State, t: int, task: Task, d: int, i: int)
    requires IsTask(t) && |s.tasks| == NR_TASKS && IsUser(d, i)
    requires Owns(t, d) ==> !HasTable(s, d)
    ensures if Owns(t, d) then CleanAt(SetTask(s, t, task), d, i) &&
                               View(SetTask(s, t, task), d, i) == Fresh(s.cfg.files, task, d, i)
            else SameView(s, SetTask(s, t, task), d, i)
  {
  }
}

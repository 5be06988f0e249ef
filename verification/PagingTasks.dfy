/** fork, exit and exec as whole operations, and what a fork that runs out of memory leaves behind. */
module PagingTasks {
  import opened Basics
  import opened PagingModel
  import opened PagingSteps
  import opened PagingTables
  import opened PagingOps
  import opened PagingFaults
  import opened PagingFork
  import opened PagingFrames

  /** The memory part of the child's task struct. Task 0 has no image and a limit of 640KB. */
  function ChildOf(tasks: seq<Task>, p: int): Task
    requires 0 <= p < |tasks|
  {
    if p == 0 then Live(0, 0, 1) else tasks[p]
  }

  /** Whether the fork copies page (d, i) of the child: from task 0 only the first 160 pages. */
  predicate Inherited(p: int, i: int) {
    p > 0 || i < 160
  }

  /** copy_page_tables has come to (k, j): nobody but the child sees a difference. */
  ghost predicate CopyStopped(s: State, s': State, p: int, c: int, k: int, j: int) {
    Inv(s') && SameWorld(s, s') &&
    (forall d, i :: IsUser(d, i) && !Owns(c, d) ==> View(s', d, i) == View(s, d, i)) &&
    (forall d, i :: IsUser(d, i) && !Owns(c, d) ==> ParentOr(s, s', p, k, j, d, i)) &&
    (forall d :: IsDir(d) && !Owns(c, d) ==> SameTable(s, s', d))
  }

  /** copy_page_tables went through: the child sees what the parent sees, in the same frames and slots. */
  ghost predicate Copied(s: State, s': State, p: int, c: int) {
    Inv(s') && SameWorld(s, s') && 0 <= c < |s.tasks| && s.tasks[c].Live? &&
    (forall d, i :: IsUser(d, i) && !Owns(c, d) ==> View(s', d, i) == View(s, d, i)) &&
    (forall d, i :: IsUser(d, i) && !Owns(c, d) ==>
      if Owns(p, d) then Yields(Entry(s, d, i), Entry(s', d, i)) else Entry(s', d, i) == Entry(s, d, i)) &&
    forall d, i :: IsUser(d, i) && Owns(c, d) && d % TASK_DIRS < s.tasks[c].dirs ==>
      if Inherited(p, i) then View(s', d, i) == View(s, Twin(d, p), i) &&
                              Inherits(Entry(s, Twin(d, p), i), Entry(s', d, i))
      else Entry(s', d, i) == None
  }

  lemma StopCopying(s: State, s': State, p: int, c: int, k: int, j: int)
    requires Copying(s, s', p, c, k, j)
    ensures CopyStopped(s, s', p, c, k, j)
  {
  }

  lemma TwinOwned(k: int, c: int)
    requires 0 <= k < TASK_DIRS && 1 <= c < NR_TASKS
    ensures IsDir(Twin(k, c)) && Owns(c, Twin(k, c)) && Twin(k, c) % TASK_DIRS == k
  {
  }

  lemma CopyInv(s: State, s': State, p: int, c: int, k: int, j: int)
    requires Copying(s, s', p, c, k, j)
    ensures Inv(s') && forall d :: IsDir(d) && Owns(c, d) && d % TASK_DIRS > k ==> !HasTable(s', d)
  {
  }

  lemma FinishCopying(s: State, s': State, p: int, c: int)
    requires Inv(s) && Related(s.tasks, p, c) && (p == 0 ==> s.tasks[c].dirs == 1)
    requires if p == 0 then Copying(s, s', p, c, 0, 160) else Copying(s, s', p, c, s.tasks[c].dirs, 0)
    ensures Copied(s, s', p, c)
  {
    forall d, i | IsUser(d, i) && Owns(p, d) && d % TASK_DIRS >= s.tasks[c].dirs ensures Entry(s, d, i) == None {
      assert DirOk(s, d);
    }
    hide Core, Clean, View;
    var k, j := if p == 0 then 0 else s.tasks[c].dirs, if p == 0 then 160 else 0;
    forall d, i | IsUser(d, i) && !Owns(c, d)
      ensures if Owns(p, d) then Yields(Entry(s, d, i), Entry(s', d, i)) else Entry(s', d, i) == Entry(s, d, i)
    {
      assert ParentOr(s, s', p, k, j, d, i);
    }
  }

  // ---------------------------------------------------------------- fork

  /** The fork succeeded: parent and everybody else see what they saw, the child what the parent saw. Frames went
      to the child's task struct and tables, and to the parent's pages that were in swap. */
  ghost predicate Forked(s: State, s': State, p: int, c: int, page: nat) {
    Inv(s') && s'.cfg == s.cfg && KernelSame(s, s') && 0 <= p < |s.tasks| && 0 <= c < |s.tasks| && c < |s.structs| &&
    s'.tasks == s.tasks[c := ChildOf(s.tasks, p)] && ChildOf(s.tasks, p).Live? &&
    page != 0 && page !in s.held && s'.held == s.held + {page} && s'.structs == s.structs[c := page] &&
    |FreeFrames(s')| + Need(s.dir, p, ChildOf(s.tasks, p).dirs) == |FreeFrames(s)| &&
    (forall d, i :: IsUser(d, i) && !Owns(c, d) ==> View(s', d, i) == View(s, d, i)) &&
    (forall d, i :: IsUser(d, i) && !Owns(c, d) ==>
      if Owns(p, d) then Yields(Entry(s, d, i), Entry(s', d, i)) else Entry(s', d, i) == Entry(s, d, i)) &&
    (forall d, i :: IsUser(d, i) && Owns(c, d) && d % TASK_DIRS < ChildOf(s.tasks, p).dirs ==>
      Child(s, s', p, d, i))
  }

  ghost predicate Child(s: State, s': State, p: int, d: int, i: int) {
    if Inherited(p, i) then View(s', d, i) == View(s, Twin(d, p), i) &&
                            Inherits(Entry(s, Twin(d, p), i), Entry(s', d, i))
    else View(s', d, i) == ZeroPage() && Entry(s', d, i) == None
  }

  /** The fork failed after copying the parent's entries before (k, j): nobody sees a difference, but pages of the
      parent that were in swap have come in. */
  ghost predicate Undone(s: State, s': State, p: int, k: int, j: int) {
    Inv(s') && SameWorld(s, s') && SameViews(s, s') &&
    (forall d, i :: IsUser(d, i) ==> ParentOr(s, s', p, k, j, d, i)) &&
    (forall d :: IsDir(d) ==> SameTable(s, s', d))
  }

  /** It failed for want of frames: none for the task struct, or, that one taken, none for a table or a page. */
  ghost predicate ForkFailed(s: State, s': State, p: int, k: int, j: int) {
    Undone(s, s', p, k, j) &&
    if |FreeFrames(s)| == 0 then k == 0 && j == 0 else RunsOut(s.dir, p, k, j, |FreeFrames(s)| - 1)
  }

  predicate CanFork(tasks: seq<Task>, p: int, c: int) {
    0 <= p < NR_TASKS && 1 <= c < NR_TASKS && p != c && |tasks| == NR_TASKS && tasks[c].Dead? &&
    (p > 0 ==> tasks[p].Live?)
  }

  predicate CanStart(s: State, p: int, c: int, page: nat) {
    LOW <= page < |s.ram| && page - LOW < |s.memMap| && 0 <= p < |s.tasks| && 0 <= c < |s.tasks| && c < |s.structs|
  }

  function ForkStart(s: State, p: int, c: int, page: nat): State
    requires CanStart(s, p, c, page)
  {
    SetTask(Claim(s, page), c, ChildOf(s.tasks, p)).(structs := s.structs[c := page])
  }

  lemma DeadHasNoTables(s: State, c: int)
    requires Inv(s) && 0 <= c < |s.tasks| && s.tasks[c].Dead?
    ensures forall d :: IsDir(d) && Owns(c, d) ==> !HasTable(s, d)
    ensures forall d, i :: IsUser(d, i) && Owns(c, d) ==> Entry(s, d, i) == None && View(s, d, i) == ZeroPage()
  {
  }

  /** Which frames hold task structs is nothing to the tables. */
  lemma StructsKeep(s: State, structs: seq<nat>)
    requires Inv(s) && |structs| == NR_TASKS
    ensures Inv(s.(structs := structs)) && SameViews(s, s.(structs := structs))
  {
  }

  lemma ForkBegins(s: State, p: int, c: int, page: nat)
    requires Inv(s) && CanFork(s.tasks, p, c) && IsFree(s, page)
    ensures IsFrame(page) && |s.ram| == FRAMES && |s.memMap| == PAGING_PAGES
    ensures page !in s.held && CanStart(s, p, c, page)
    ensures var s' := ForkStart(s, p, c, page);
      Inv(s') && Related(s'.tasks, p, c) && (p == 0 ==> s'.tasks[c].dirs == 1) &&
      (forall d :: IsDir(d) && Owns(c, d) ==> !HasTable(s', d)) &&
      (forall d, i :: IsUser(d, i) && !Owns(c, d) ==> View(s', d, i) == View(s, d, i)) &&
      |FreeFrames(s')| == |FreeFrames(s)| - 1
  {
    DeadHasNoTables(s, c);
    FreeIsUnnamed(s, page);
    ShapeOf(s);
    assert IsTask(p) && TaskOk(s.cfg, s.tasks[p]);
    hide Core;
    ClaimKeeps(s, page);
    ClaimTakes(s, page);
    var s1 := Claim(s, page);
    SetTaskKeeps(s1, c, ChildOf(s.tasks, p));
    var s2 := SetTask(s1, c, ChildOf(s.tasks, p));
    StructsKeep(s2, s.structs[c := page]);
    SameFree(s1, ForkStart(s, p, c, page));
  }

  lemma ForkEnds(s: State, s': State, p: int, c: int, page: nat)
    requires Inv(s) && CanFork(s.tasks, p, c) && IsFree(s, page) && CanStart(s, p, c, page)
    requires Copied(ForkStart(s, p, c, page), s', p, c)
    requires |FreeFrames(s')| + Used(s.dir, p, ChildOf(s.tasks, p).dirs) == |FreeFrames(ForkStart(s, p, c, page))|
    ensures Forked(s, s', p, c, page)
  {
    hide View, Clean, Used;
    ForkBegins(s, p, c, page);
    ShapeOf(s);
    var s1 := ForkStart(s, p, c, page);
    hide Core;
    forall d, i | IsUser(d, i) && Owns(c, d) && d % TASK_DIRS < ChildOf(s.tasks, p).dirs ensures Child(s, s', p, d, i) {
      ForkedPage(s, s1, s', p, c, page, d, i);
    }
  }

  lemma ForkedPage(s: State, s1: State, s': State, p: int, c: int, page: nat, d: int, i: int)
    requires Shape(s) && CanFork(s.tasks, p, c) && CanStart(s, p, c, page)
    requires s1 == ForkStart(s, p, c, page) && Copied(s1, s', p, c)
    requires IsUser(d, i) && Owns(c, d) && d % TASK_DIRS < ChildOf(s.tasks, p).dirs
    requires p > 0 ==> View(s1, Twin(d, p), i) == View(s, Twin(d, p), i)
    ensures Child(s, s', p, d, i)
  {
    hide Core;
    if p == 0 {
      assert Twin(d, 0) == 0 && Entry(s1, 0, i) == Entry(s, 0, i);
    }
  }

  /** The child's tables freed, its slot emptied, its task struct given back. */
  function ForkBack(s: State, c: int, page: nat): State
    requires 0 <= c < |s.tasks| && c < |s.structs| && LOW <= page && page - LOW < |s.memMap|
  {
    Drop(SetTask(s, c, Dead).(structs := s.structs[c := 0]), page)
  }

  lemma ForkUndone(s: State, s3: State, s4: State, p: int, c: int, page: nat, k: int, j: int)
    requires Inv(s) && CanFork(s.tasks, p, c) && IsFree(s, page) && CanStart(s, p, c, page) && s.structs[c] == 0
    requires CopyStopped(ForkStart(s, p, c, page), s3, p, c, k, j) && OnlyTask(s3, s4, c)
    requires forall d :: IsDir(d) && Owns(c, d) ==> !HasTable(s4, d)
    ensures c < |s4.tasks| && c < |s4.structs| && |s4.memMap| == PAGING_PAGES && IsFrame(page)
    ensures page in s4.held && page < s4.cfg.hi && Count(s4, page) == 1
    ensures Undone(s, ForkBack(s4, c, page), p, k, j)
  {
    hide Core, Clean, View, Shape, Fresh;
    ForkBegins(s, p, c, page);
    DeadHasNoTables(s, c);
    ShapeOf(s4);
    assert s4.held == s.held + {page};
    HeldIsUnmapped(s4, page);
    SetTaskKeeps(s4, c, Dead);
    var s5 := SetTask(s4, c, Dead);
    StructsKeep(s5, s4.structs[c := 0]);
    var s6 := s5.(structs := s4.structs[c := 0]);
    DropKeeps(s6, page);
    var s' := ForkBack(s4, c, page);
    assert s'.tasks == s.tasks && s'.held == s.held && s'.structs == s.structs;
    forall d, i | IsUser(d, i) ensures View(s', d, i) == View(s, d, i) {
      DeadIsBlank(s4.cfg.files, d, i);
      assert View(s', d, i) == View(s6, d, i) && View(s6, d, i) == View(s5, d, i);
      assert !Owns(c, d) ==> View(s5, d, i) == View(s4, d, i) && View(s4, d, i) == View(s3, d, i);
    }
    UndonePlaces(s, s3, s4, s', p, c, page, k, j);
  }

  lemma DeadIsBlank(files: seq<File>, d: int, i: int)
    requires IsUser(d, i)
    ensures Fresh(files, Dead, d, i) == ZeroPage()
  {
  }

  lemma UndonePlaces(s: State, s3: State, s4: State, s': State, p: int, c: int, page: nat, k: int, j: int)
    requires Inv(s) && CanFork(s.tasks, p, c) && IsFree(s, page) && CanStart(s, p, c, page)
    requires CopyStopped(ForkStart(s, p, c, page), s3, p, c, k, j) && OnlyTask(s3, s4, c) && s'.dir == s4.dir
    requires forall d :: IsDir(d) && Owns(c, d) ==> !HasTable(s4, d)
    ensures forall d, i :: IsUser(d, i) ==> ParentOr(s, s', p, k, j, d, i)
    ensures forall d :: IsDir(d) ==> SameTable(s, s', d)
  {
    hide Inv, View, SameWorld, Yields;
    DeadHasNoTables(s, c);
    forall d, i | IsUser(d, i) ensures ParentOr(s, s', p, k, j, d, i) {
      assert IsDir(d);
      if Owns(c, d) {
        assert !Owns(p, d) && !HasTable(s4, d) && Entry(s, d, i) == None;
      } else {
        assert ParentOr(ForkStart(s, p, c, page), s3, p, k, j, d, i);
      }
    }
    forall d | IsDir(d) ensures SameTable(s, s', d) {
      assert if Owns(c, d) then !HasTable(s4, d) && !HasTable(s, d) else SameTable(s3, s4, d);
    }
  }

  lemma NothingDone(s: State, p: int)
    requires Inv(s) && 0 <= p
    ensures Undone(s, s, p, 0, 0)
  {
    forall d, i | IsUser(d, i) ensures ParentOr(s, s, p, 0, 0, d, i) {
      assert !Before(d % TASK_DIRS, i, 0, 0);
    }
  }

  lemma StoppedInv(s: State, s': State, p: int, c: int, k: int, j: int)
    requires CopyStopped(s, s', p, c, k, j)
    ensures Inv(s') && s'.tasks == s.tasks
  {
  }

  // ---------------------------------------------------------------- counts after a failed fork

  /** Pages that were in swap and are now in frame f. */
  ghost function CameIn(s: State, s': State, f: nat): set<Ref> {
    set d, i | TASK_DIRS <= d < ENTRIES && 0 <= i < ENTRIES &&
               Entry(s, d, i).Swapped? && Names(Entry(s', d, i), f) :: ByPte(d, i)
  }

  /** After a fork that failed every frame is counted as before, plus once for each page of the
      parent that was brought in from swap into it. */
  lemma UndoneCounts(s: State, s': State, p: int, k: int, j: int, f: nat)
    requires Inv(s) && Undone(s, s', p, k, j) && Pool(s, f)
    ensures Count(s', f) == Count(s, f) + |CameIn(s, s', f)|
  {
    UndoneRefs(s, s', p, k, j, f);
    RefsSize(s, f);
    RefsSize(s', f);
    ShapeOf(s);
    assert IsFrame(f) && FrameOk(s, f) && FrameOk(s', f);
  }

  lemma UndoneRefs(s: State, s': State, p: int, k: int, j: int, f: nat)
    requires Undone(s, s', p, k, j) && |s.dir| == ENTRIES
    ensures DirRefs(s'.dir, f) == DirRefs(s.dir, f)
    ensures |PteRefs(s'.dir, f)| == |PteRefs(s.dir, f)| + |CameIn(s, s', f)|
  {
    hide Inv, SameViews;
    forall d | IsDir(d) ensures ByDir(d) in DirRefs(s'.dir, f) <==> ByDir(d) in DirRefs(s.dir, f) {
      assert SameTable(s, s', d);
    }
    forall d, i | IsUser(d, i)
      ensures Names(Entry(s', d, i), f) <==>
                Names(Entry(s, d, i), f) || (Entry(s, d, i).Swapped? && Names(Entry(s', d, i), f))
    {
      assert ParentOr(s, s', p, k, j, d, i);
    }
    assert PteRefs(s'.dir, f) == PteRefs(s.dir, f) + CameIn(s, s', f);
    assert PteRefs(s.dir, f) !! CameIn(s, s', f);
  }

  /** Some page of the parent came in. */
  predicate BroughtIn(s: State, p: int, k: int, j: int, d: int, i: int) {
    Owns(p, d) && Before(d % TASK_DIRS, i, k, j) && Entry(s, d, i).Swapped?
  }

  lemma UndoneSame(s: State, s': State, p: int, k: int, j: int)
    requires Inv(s) && Undone(s, s', p, k, j)
    ensures (forall f: nat :: Pool(s, f) ==> Count(s', f) == Count(s, f)) <==>
            (forall d, i :: IsUser(d, i) ==> !BroughtIn(s, p, k, j, d, i))
  {
    forall f: nat | Pool(s, f) ensures Count(s', f) == Count(s, f) + |CameIn(s, s', f)| {
      UndoneCounts(s, s', p, k, j, f);
    }
    if forall f: nat :: Pool(s, f) ==> Count(s', f) == Count(s, f) {
      forall d, i | IsUser(d, i) ensures !BroughtIn(s, p, k, j, d, i) {
        BroughtInIsCounted(s, s', p, k, j, d, i);
      }
    } else {
      var f: nat :| Pool(s, f) && Count(s', f) != Count(s, f);
      assert |CameIn(s, s', f)| > 0;
      var r :| r in CameIn(s, s', f);
      assert IsUser(r.d, r.i) && ParentOr(s, s', p, k, j, r.d, r.i);
      assert BroughtIn(s, p, k, j, r.d, r.i);
    }
  }

  lemma BroughtInIsCounted(s: State, s': State, p: int, k: int, j: int, d: int, i: int)
    requires Inv(s) && Undone(s, s', p, k, j) && IsUser(d, i)
    requires forall f: nat :: Pool(s, f) ==> |CameIn(s, s', f)| == 0
    ensures !BroughtIn(s, p, k, j, d, i)
  {
    assert EntryOk(s', d, i) && ParentOr(s, s', p, k, j, d, i);
    var f := if Entry(s', d, i).Present? then Entry(s', d, i).frame else 0;
    assert ByPte(d, i) !in CameIn(s, s', f);
  }

  /** A fork that fails restores every count if and only if the free frames run out before the parent's first page
      in swap is reached: at most one for the task struct and one for each table up to that page's. */
  lemma FailedForkRestores(s: State, s': State, p: int, k: int, j: int)
    requires Inv(s) && 0 < p < NR_TASKS && ForkFailed(s, s', p, k, j)
    ensures (forall f: nat :: Pool(s, f) ==> Count(s', f) == Count(s, f)) <==>
            (forall x: nat, i: nat :: FirstSwapped(s.dir, p, x, i) ==> |FreeFrames(s)| <= Need(s.dir, p, x) + 1)
  {
    hide Inv;
    UndoneSame(s, s', p, k, j);
    if x: nat, i: nat :| FirstSwapped(s.dir, p, x, i) && |FreeFrames(s)| > Need(s.dir, p, x) + 1 {
      FirstComesIn(s, p, k, j, x, i);
      assert BroughtIn(s, p, k, j, Twin(x, p), i);
    } else {
      forall d, i | IsUser(d, i) ensures !BroughtIn(s, p, k, j, d, i) {
        if BroughtIn(s, p, k, j, d, i) { NoneComesIn(s, p, k, j, d, i); }
      }
    }
  }

  lemma FirstComesIn(s: State, p: int, k: int, j: int, x: nat, i: nat)
    requires 0 < p < NR_TASKS && FirstSwapped(s.dir, p, x, i) && |FreeFrames(s)| > Need(s.dir, p, x) + 1
    requires |FreeFrames(s)| > 0 ==> RunsOut(s.dir, p, k, j, |FreeFrames(s)| - 1)
    ensures IsUser(Twin(x, p), i) && BroughtIn(s, p, k, j, Twin(x, p), i)
  {
    RunsOutMeans(s.dir, p, k, j, |FreeFrames(s)| - 1, k + 1);
    NoSwapsBefore(s.dir, p, x, i);
  }

  lemma NoSwapsBefore(dir: seq<Pde>, p: int, x: nat, i: nat)
    requires FirstSwapped(dir, p, x, i)
    ensures SwapsIn(dir, Twin(x, p), i) == 0
  {
    NoSwaps(dir, Twin(x, p), i);
  }

  lemma {:induction false} NoSwaps(dir: seq<Pde>, d: int, i: nat)
    requires forall l: nat :: l < i ==> !At(dir, d, l).Swapped?
    ensures SwapsIn(dir, d, i) == 0
  {
    if i > 0 { NoSwaps(dir, d, i - 1); }
  }

  lemma NoneComesIn(s: State, p: int, k: int, j: int, d: int, i: int)
    requires 0 < p < NR_TASKS && IsUser(d, i) && BroughtIn(s, p, k, j, d, i)
    requires if |FreeFrames(s)| == 0 then k == 0 && j == 0 else RunsOut(s.dir, p, k, j, |FreeFrames(s)| - 1)
    ensures exists x: nat, y: nat :: FirstSwapped(s.dir, p, x, y) && |FreeFrames(s)| > Need(s.dir, p, x) + 1
  {
    var z := d % TASK_DIRS;
    assert d == Twin(z, p);
    var x, y := HasFirst(s.dir, p, z, i);
    assert Before(x, y, k, j);
    RunsOutMeans(s.dir, p, k, j, |FreeFrames(s)| - 1, k + 1);
    NoSwapsBefore(s.dir, p, x, y);
  }

  // ---------------------------------------------------------------- exit and exec

  /** Task t gave up its pages; what it sees now is what its new image file says. */
  ghost predicate Replaced(s: State, s': State, t: int, task: Task) {
    Inv(s') && s'.cfg == s.cfg && KernelSame(s, s') && s'.held == s.held && s'.structs == s.structs &&
    0 <= t < |s.tasks| && s'.tasks == s.tasks[t := task] &&
    (forall d, i :: IsUser(d, i) && !Owns(t, d) ==> View(s', d, i) == View(s, d, i)) &&
    (forall d, i :: IsUser(d, i) && Owns(t, d) ==> View(s', d, i) == Fresh(s.cfg.files, task, d, i))
  }

  lemma ReplaceTask(s: State, s1: State, t: int, task: Task)
    requires OnlyTask(s, s1, t) && IsTask(t) && TaskOk(s.cfg, task)
    requires forall d :: IsDir(d) && Owns(t, d) ==> !HasTable(s1, d)
    ensures t < |s1.tasks| && Replaced(s, SetTask(s1, t, task), t, task)
  {
    ShapeOf(s1);
    hide Core, Backing, Fresh;
    SetTaskKeeps(s1, t, task);
  }

  // ---------------------------------------------------------------- task structs

  /** release() gave the dead task's struct back. */
  ghost predicate Reaped(s: State, s': State, t: int) {
    Inv(s') && SameViews(s, s') && KernelSame(s, s') && s'.tasks == s.tasks && s'.cfg == s.cfg &&
    0 <= t < |s.structs| && s'.structs == s.structs[t := 0] && s'.held == s.held - {s.structs[t]} &&
    |FreeFrames(s')| == |FreeFrames(s)| + 1
  }

  function ReapIt(s: State, t: int): State
    requires 0 <= t < |s.structs| && LOW <= s.structs[t] && s.structs[t] - LOW < |s.memMap|
  {
    Drop(s.(structs := s.structs[t := 0]), s.structs[t])
  }

  lemma ReapKeeps(s: State, t: int)
    requires Inv(s) && StructsOk(s) && IsTask(t) && s.tasks[t].Dead? && s.structs[t] != 0
    ensures |s.memMap| == PAGING_PAGES && IsFrame(s.structs[t])
    ensures s.structs[t] < s.cfg.hi && Count(s, s.structs[t]) == 1
    ensures Reaped(s, ReapIt(s, t), t) && StructsOk(ReapIt(s, t))
  {
    ShapeOf(s);
    HeldIsUnmapped(s, s.structs[t]);
    hide Core, Clean, SameViews;
    StructsKeep(s, s.structs[t := 0]);
    DropKeeps(s.(structs := s.structs[t := 0]), s.structs[t]);
    hide View;
    var s1 := s.(structs := s.structs[t := 0]);
    SameFree(s, s1);
    DropGives(s1, s.structs[t]);
    hide FreeFrames;
    OneFrameLess(s.structs, t);
    assert SameViews(s, ReapIt(s, t)) by { ReapSeen(s, t); }
  }

  lemma ReapSeen(s: State, t: int)
    requires 0 <= t < |s.structs| && LOW <= s.structs[t] && s.structs[t] - LOW < |s.memMap|
    ensures SameViews(s, ReapIt(s, t))
  {
  }

  /** What does not touch tasks, structs or kernel frames keeps the structs in order. */
  lemma StructsSame(s: State, s': State)
    requires StructsOk(s) && s'.held == s.held && s'.structs == s.structs && |s'.tasks| == |s.tasks|
    requires forall t :: IsTask(t) && s'.tasks[t].Live? ==> s.tasks[t].Live?
    ensures StructsOk(s')
  {
  }

  lemma StructsForked(s: State, s': State, p: int, c: int, page: nat)
    requires StructsOk(s) && Forked(s, s', p, c, page) && s.structs[c] == 0
    ensures StructsOk(s')
  {
    hide Inv, View, FreeFrames, Need;
    OneMoreFrame(s.structs, c, page);
  }

  lemma OneMoreFrame(structs: seq<nat>, c: int, page: nat)
    requires 0 <= c < |structs| && structs[c] == 0 && page != 0
    ensures StructFrames(structs[c := page]) == StructFrames(structs) + {page}
  {
    var after := structs[c := page];
    assert after[c] == page;
    forall f | f in StructFrames(structs) ensures f in StructFrames(after) {
      var t :| 0 <= t < |structs| && structs[t] == f;
      assert after[t] == f;
    }
  }

  lemma OneFrameLess(structs: seq<nat>, t: int)
    requires 0 <= t < |structs| && structs[t] != 0
    requires forall u :: 0 <= u < |structs| && u != t ==> structs[u] != structs[t]
    ensures StructFrames(structs[t := 0]) == StructFrames(structs) - {structs[t]}
  {
    var after := structs[t := 0];
    forall f | f in StructFrames(structs) && f != structs[t] ensures f in StructFrames(after) {
      var u :| 0 <= u < |structs| && structs[u] == f;
      assert after[u] == f;
    }
  }

  lemma StoredInv(s: State, s': State, d: int, i: int, p: Page)
    requires Stored(s, s', d, i, p)
    ensures Inv(s') && SameWorld(s, s')
  {
  }

  lemma ForkedInv(s: State, s': State, p: int, c: int, page: nat)
    requires Forked(s, s', p, c, page)
    ensures Inv(s') && 0 <= p < |s.tasks| && ChildOf(s.tasks, p).Live?
    ensures |FreeFrames(s')| == |FreeFrames(s)| - Need(s.dir, p, ChildOf(s.tasks, p).dirs)
  {
  }

  lemma UndoneInv(s: State, s': State, p: int, k: int, j: int)
    requires Undone(s, s', p, k, j)
    ensures Inv(s') && SameWorld(s, s')
  {
  }

  lemma ReapedInv(s: State, s': State, t: int)
    requires Reaped(s, s', t)
    ensures Inv(s') && |FreeFrames(s')| == |FreeFrames(s)| + 1
  {
  }

  lemma ReplacedInv(s: State, s': State, t: int, task: Task)
    requires Replaced(s, s', t, task)
    ensures Inv(s') && s'.held == s.held && s'.structs == s.structs
    ensures 0 <= t < |s.tasks| && s'.tasks == s.tasks[t := task]
  {
  }
}

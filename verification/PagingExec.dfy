/** The memory part of do_execve: pages for the arguments are gathered, the old image goes, and the pages are put
    at the top of the new segment, below the library. */
module PagingExec {
  import opened Basics
  import opened PagingModel
  import opened PagingSteps
  import opened PagingTables
  import opened PagingOps
  import opened PagingFaults
  import opened PagingFrames
  import opened PagingFork

  const ARG_DIR: nat := 14           // the last directory entry of a segment below the library

  // ---------------------------------------------------------------- gathering

  function Members(fs: seq<nat>): set<nat> {
    set k | 0 <= k < |fs| :: fs[k]
  }

  /** The first |fs| argument pages have frames of their own, in the kernel's hands; nothing else has changed. */
  ghost predicate Gathered(s: State, s': State, fs: seq<nat>, args: seq<Page>) {
    Inv(s') && SameViews(s, s') && KernelSame(s, s') && s'.tasks == s.tasks && s'.structs == s.structs &&
    s'.cfg == s.cfg &&
    s'.dir == s.dir && s'.held == s.held + Members(fs) && |FreeFrames(s')| + |fs| == |FreeFrames(s)| &&
    |fs| <= |args| &&
    HeldPages(s', fs, args) && (forall k :: 0 <= k < |fs| ==> fs[k] !in s.held) && Apart(fs)
  }

  ghost predicate HeldPages(s: State, fs: seq<nat>, args: seq<Page>) {
    |fs| <= |args| && forall k :: 0 <= k < |fs| ==> fs[k] in s.held && LOW <= fs[k] < |s.ram| && s.ram[fs[k]] == args[k]
  }

  ghost predicate Apart(fs: seq<nat>) {
    forall j, k :: 0 <= j < k < |fs| ==> fs[j] != fs[k]
  }

  lemma NoneGathered(s: State, args: seq<Page>)
    requires Inv(s)
    ensures Gathered(s, s, [], args)
  {
  }

  lemma GatherOne(s: State, s1: State, fs: seq<nat>, args: seq<Page>, f: nat)
    requires Gathered(s, s1, fs, args) && |fs| < |args| && IsFree(s1, f)
    ensures IsFrame(f) && |s1.ram| == FRAMES && |s1.memMap| == PAGING_PAGES
    ensures Gathered(s, Fill(Claim(s1, f), f, args[|fs|]), fs + [f], args)
  {
    hide Core, Clean, SameViews;
    FreeIsUnnamed(s1, f);
    ShapeOf(s1);
    ClaimKeeps(s1, f);
    ClaimTakes(s1, f);
    var s2 := Claim(s1, f);
    FillKeeps(s2, f, args[|fs|]);
    var s3 := Fill(s2, f, args[|fs|]);
    SameFree(s2, s3);
    MembersGrow(fs, f);
    hide FreeFrames;
    assert SameViews(s, s3) by { ViewsThrough(s, s1, s2, s3); }
    assert forall k :: 0 <= k < |fs| ==> fs[k] != f && (fs + [f])[k] == fs[k];
  }

  lemma ViewsThrough(s: State, s1: State, s2: State, s3: State)
    requires SameViews(s, s1) && SameViews(s1, s2) && SameViews(s2, s3)
    ensures SameViews(s, s3)
  {
  }

  lemma MembersGrow(fs: seq<nat>, f: nat)
    ensures Members(fs + [f]) == Members(fs) + {f}
  {
    forall x | x in Members(fs) ensures x in Members(fs + [f]) {
      var k :| 0 <= k < |fs| && fs[k] == x;
      assert (fs + [f])[k] == x;
    }
    assert (fs + [f])[|fs|] == f;
  }

  /** The last page is given back. */
  lemma GiveOne(s: State, s1: State, fs: seq<nat>, args: seq<Page>)
    requires Gathered(s, s1, fs, args) && |fs| > 0
    ensures var f := fs[|fs| - 1];
      IsFrame(f) && |s1.memMap| == PAGING_PAGES && f < s1.cfg.hi && Count(s1, f) == 1 &&
      Gathered(s, Drop(s1, f), fs[..|fs| - 1], args)
  {
    hide Core, Clean, SameViews, View, FreeFrames;
    var n := |fs| - 1;
    var f := fs[n];
    ShapeOf(s1);
    HeldIsUnmapped(s1, f);
    DropKeeps(s1, f);
    assert fs == fs[..n] + [f];
    MembersGrow(fs[..n], f);
    assert f !in Members(fs[..n]);
    DropGives(s1, f);
    assert SameViews(s, Drop(s1, f)) by { ViewsThrough(s, s1, s1, Drop(s1, f)); }
  }

  lemma AllGiven(s: State, s': State, args: seq<Page>)
    requires Gathered(s, s', [], args)
    ensures Unseen(s, s')
  {
  }

  // ---------------------------------------------------------------- placing

  /** (d, i) is one of the n places for argument pages of task t. */
  predicate IsArg(t: int, n: int, d: int, i: int) {
    d == Twin(ARG_DIR, t) && ENTRIES - n <= i < ENTRIES
  }

  /** The old image is gone, the task has its new segment, and the argument pages are still in the kernel's hands. */
  ghost predicate Cleared(s: State, s': State, t: int, task: Task, fs: seq<nat>, args: seq<Page>) {
    Inv(s') && s'.cfg == s.cfg && KernelSame(s, s') && s'.structs == s.structs && 0 <= t < |s.tasks| &&
    s'.tasks == s.tasks[t := task] && s'.held == s.held + Members(fs) && HeldPages(s', fs, args) && Apart(fs) &&
    (forall k :: 0 <= k < |fs| ==> fs[k] !in s.held) &&
    (forall d, i :: IsUser(d, i) && !Owns(t, d) ==> View(s', d, i) == View(s, d, i)) &&
    (forall d, i :: IsUser(d, i) && Owns(t, d) ==> View(s', d, i) == Fresh(s.cfg.files, task, d, i)) &&
    (forall d :: IsDir(d) && Owns(t, d) ==> !HasTable(s', d))
  }

  lemma ClearTask(s: State, s1: State, s2: State, t: int, task: Task, fs: seq<nat>, args: seq<Page>)
    requires Gathered(s, s1, fs, args) && OnlyTask(s1, s2, t) && s2.ram == s1.ram && IsTask(t) && TaskOk(s.cfg, task)
    requires |s.tasks| == NR_TASKS && forall d :: IsDir(d) && Owns(t, d) ==> !HasTable(s2, d)
    ensures t < |s2.tasks| && Cleared(s, SetTask(s2, t, task), t, task, fs, args)
  {
    ShapeOf(s2);
    hide Core, Backing, Fresh, FreeFrames, View, Clean;
    SetTaskKeeps(s2, t, task);
  }

  /** The pages from number k on are in place. */
  ghost predicate Placing(s: State, s': State, t: int, fs: seq<nat>, args: seq<Page>, k: int) {
    Inv(s') && s'.cfg == s.cfg && KernelSame(s, s') && s'.structs == s.structs && s'.tasks == s.tasks &&
    |fs| == |args| && 0 <= k <= |fs| && s'.held == s.held - Members(fs[k..]) && HeldPages(s', fs[..k], args) &&
    (forall d, i :: IsUser(d, i) ==> PlacedAt(s, s', t, args, k, d, i))
  }

  ghost predicate PlacedAt(s: State, s': State, t: int, args: seq<Page>, k: int, d: int, i: int) {
    var n := |args|;
    if IsArg(t, n, d, i) && i >= ENTRIES - n + k then View(s', d, i) == args[i - (ENTRIES - n)]
    else View(s', d, i) == View(s, d, i) && (Owns(t, d) ==> Entry(s', d, i) == None)
  }

  lemma NonePlaced(s: State, t: int, fs: seq<nat>, args: seq<Page>)
    requires Inv(s) && |fs| == |args| && HeldPages(s, fs, args)
    requires forall d :: IsDir(d) && Owns(t, d) ==> !HasTable(s, d)
    ensures Placing(s, s, t, fs, args, |fs|)
  {
    assert fs[|fs|..] == [] && fs[..|fs|] == fs && Members([]) == {};
    hide Core, View;
    forall d, i | IsUser(d, i) ensures PlacedAt(s, s, t, args, |fs|, d, i) {
      assert IsDir(d);
    }
  }

  lemma ArgPlace(t: int, n: nat, k: int)
    requires 1 <= t < NR_TASKS && 0 < k <= n <= MAX_ARG_PAGES
    ensures IsUser(Twin(ARG_DIR, t), ENTRIES - n + k - 1)
    ensures Owns(t, Twin(ARG_DIR, t)) && Twin(ARG_DIR, t) % TASK_DIRS == ARG_DIR
  {
  }

  /** A table for the arguments shows to nobody. */
  lemma PlaceTable(s: State, s1: State, t: int, fs: seq<nat>, args: seq<Page>, k: int, f: nat)
    requires Placing(s, s1, t, fs, args, k) && 1 <= t < NR_TASKS && LiveDir(s1, Twin(ARG_DIR, t)) && Apart(fs)
    requires !HasTable(s1, Twin(ARG_DIR, t)) && IsFree(s1, f)
    ensures IsFrame(f) && |s1.ram| == FRAMES && |s1.memMap| == PAGING_PAGES && |s1.dir| == ENTRIES
    ensures Placing(s, NewTable(Claim(s1, f), Twin(ARG_DIR, t), f), t, fs, args, k)
    ensures HasTable(NewTable(Claim(s1, f), Twin(ARG_DIR, t), f), Twin(ARG_DIR, t))
  {
    hide Core, View, Clean;
    ShapeOf(s1);
    TableInKeeps(s1, Twin(ARG_DIR, t), f);
    FreeIsUnnamed(s1, f);
    var s2 := NewTable(Claim(s1, f), Twin(ARG_DIR, t), f);
    forall d, i | IsUser(d, i) ensures PlacedAt(s, s2, t, args, k, d, i) {
      assert PlacedAt(s, s1, t, args, k, d, i) && View(s2, d, i) == View(s1, d, i);
      assert Entry(s2, d, i) == Entry(s1, d, i);
    }
    assert HeldPages(s2, fs[..k], args) by {
      forall j | 0 <= j < k ensures fs[..k][j] in s2.held && s2.ram[fs[..k][j]] == args[j] {
        assert fs[..k][j] in s1.held && fs[..k][j] != f;
      }
    }
  }

  /** put_dirty_page: the page is mapped as it is, writable and dirty. */
  lemma PlaceOne(s: State, s1: State, t: int, fs: seq<nat>, args: seq<Page>, k: int)
    requires Placing(s, s1, t, fs, args, k) && k > 0 && 1 <= t < NR_TASKS && |args| <= MAX_ARG_PAGES && Apart(fs)
    requires HasTable(s1, Twin(ARG_DIR, t))
    ensures var d, i, f := Twin(ARG_DIR, t), ENTRIES - |args| + k - 1, fs[k - 1];
      |s1.dir[d].ptes| == ENTRIES && HasTable(Install(s1, d, i, f, true), d) && Entry(s1, d, i) == None &&
      Placing(s, Install(s1, d, i, f, true), t, fs, args, k - 1)
  {
    hide Core, View, Clean, Inv, Members;
    ArgPlace(t, |args|, k);
    var d, i, f := Twin(ARG_DIR, t), ENTRIES - |args| + k - 1, fs[k - 1];
    assert PlacedAt(s, s1, t, args, k, d, i) && Entry(s1, d, i) == None;
    assert fs[..k][k - 1] == f && f in s1.held;
    DirtyInstall(s1, d, i, f);
    var s2 := Install(s1, d, i, f, true);
    assert View(s2, d, i) == args[k - 1];
    assert Members(fs[k - 1..]) == Members(fs[k..]) + {f} by { MembersFront(fs, k); }
    forall e, l | IsUser(e, l) ensures PlacedAt(s, s2, t, args, k - 1, e, l) {
      assert PlacedAt(s, s1, t, args, k, e, l);
      assert (e, l) != (d, i) ==> View(s2, e, l) == View(s1, e, l) && Entry(s2, e, l) == Entry(s1, e, l);
    }
    assert HeldPages(s2, fs[..k - 1], args) by {
      forall j | 0 <= j < k - 1
        ensures fs[..k - 1][j] in s2.held && LOW <= fs[..k - 1][j] < |s2.ram| && s2.ram[fs[..k - 1][j]] == args[j]
      {
        assert fs[..k][j] == fs[..k - 1][j] && fs[j] != f;
      }
    }
  }

  lemma MembersFront(fs: seq<nat>, k: int)
    requires 0 < k <= |fs|
    ensures Members(fs[k - 1..]) == Members(fs[k..]) + {fs[k - 1]}
  {
    var a, b := fs[k - 1..], fs[k..];
    forall x | x in Members(a) ensures x in Members(b) + {fs[k - 1]} {
      var j :| 0 <= j < |a| && a[j] == x;
      if j > 0 { assert b[j - 1] == x; }
    }
    forall x | x in Members(b) ensures x in Members(a) {
      var j :| 0 <= j < |b| && b[j] == x;
      assert a[j + 1] == x;
    }
    assert a[0] == fs[k - 1];
  }

  lemma DirtyInstall(s: State, d: int, i: int, f: nat)
    requires Inv(s) && IsUser(d, i) && HasTable(s, d) && Entry(s, d, i) == None && f in s.held
    ensures |s.dir[d].ptes| == ENTRIES && f < |s.ram|
    ensures var s' := Install(s, d, i, f, true);
      Inv(s') && KernelSame(s, s') && HasTable(s', d) && View(s', d, i) == s.ram[f] && s'.held == s.held - {f} &&
      forall e, l :: IsUser(e, l) && (e, l) != (d, i) ==>
        View(s', e, l) == View(s, e, l) && Entry(s', e, l) == Entry(s, e, l)
  {
    InstallKeeps(s, d, i, f, true);
    HeldIsUnmapped(s, f);
    var s' := Install(s, d, i, f, true);
    PteChangeUnseen(s, s', d, i, Present(f, true, true));
    hide Core;
    forall e, l | IsUser(e, l) ensures CleanAt(s', e, l) {
      assert (e, l) != (d, i) ==> SameView(s, s', e, l) && CleanAt(s, e, l);
    }
    forall e, l | IsUser(e, l) && (e, l) != (d, i) ensures View(s', e, l) == View(s, e, l) {
      assert SameView(s, s', e, l);
    }
  }

  /** Whether task t has a table. */
  predicate HasSome(dir: seq<Pde>, t: int) {
    exists d :: TASK_DIRS <= d < ENTRIES && Owns(t, d) && Tabled(dir, d)
  }

  // ---------------------------------------------------------------- the new image

  /** What page (d, i) of task t shows after exec. */
  function ImagePage(files: seq<File>, t: int, task: Task, args: seq<Page>, d: int, i: int): Page
    requires IsUser(d, i)
  {
    if IsArg(t, |args|, d, i) then args[i - (ENTRIES - |args|)] else Fresh(files, task, d, i)
  }

  /** Exec went through: the task sees its new image, with the arguments on top; everybody else what they saw. */
  ghost predicate Executed(s: State, s': State, t: int, task: Task, args: seq<Page>) {
    Inv(s') && s'.cfg == s.cfg && KernelSame(s, s') && s'.structs == s.structs && 0 <= t < |s.tasks| &&
    s'.tasks == s.tasks[t := task] && s.held <= s'.held &&
    (forall d, i :: IsUser(d, i) && !Owns(t, d) ==> View(s', d, i) == View(s, d, i)) &&
    (forall d, i :: IsUser(d, i) && Owns(t, d) ==> View(s', d, i) == ImagePage(s.cfg.files, t, task, args, d, i))
  }

  lemma AllPlaced(s: State, s1: State, s2: State, t: int, task: Task, fs: seq<nat>, args: seq<Page>)
    requires Cleared(s, s1, t, task, fs, args) && Placing(s1, s2, t, fs, args, 0) && 1 <= t < NR_TASKS
    ensures Executed(s, s2, t, task, args) && s2.held == s.held
  {
    hide Inv, View, Fresh;
    assert fs[0..] == fs;
    assert s2.held == s.held;
    forall d, i | IsUser(d, i)
      ensures if Owns(t, d) then View(s2, d, i) == ImagePage(s.cfg.files, t, task, args, d, i)
              else View(s2, d, i) == View(s, d, i)
    {
      assert PlacedAt(s1, s2, t, args, 0, d, i);
    }
  }

  /** Without a table nothing was put in place, and the frames stay taken. */
  lemma NoArgs(s: State, s1: State, t: int, task: Task, fs: seq<nat>, args: seq<Page>)
    requires Cleared(s, s1, t, task, fs, args)
    ensures Executed(s, s1, t, task, []) && s1.held == s.held + Members(fs)
  {
    hide Inv, View, Fresh;
  }

  lemma ExecutedInv(s: State, s': State, t: int, task: Task, args: seq<Page>)
    requires Executed(s, s', t, task, args)
    ensures Inv(s') && s.held <= s'.held && s'.structs == s.structs
    ensures 0 <= t < |s.tasks| && s'.tasks == s.tasks[t := task]
  {
  }

  lemma GatheredInv(s: State, s': State, fs: seq<nat>, args: seq<Page>)
    requires Gathered(s, s', fs, args)
    ensures Inv(s') && |FreeFrames(s')| + |fs| == |FreeFrames(s)|
    ensures s'.tasks == s.tasks && s'.dir == s.dir && s'.cfg == s.cfg
    ensures s'.structs == s.structs
  {
  }

  /** What is free once the old image has gone. */
  lemma ClearedFrees(s: State, s1: State, s2: State, s3: State, t: int, fs: seq<nat>, args: seq<Page>)
    requires Gathered(s, s1, fs, args) && s3.memMap == s2.memMap && s3.cfg == s2.cfg
    requires if HasSome(s1.dir, t) then |FreeFrames(s2)| > 0 else s2 == s1
    ensures |FreeFrames(s3)| > 0 <==> HasSome(s.dir, t) || |FreeFrames(s)| > |fs|
  {
    hide Inv;
    SameFree(s2, s3);
  }

  lemma ClearedReadable(s: State, s': State, t: int, task: Task, fs: seq<nat>, args: seq<Page>)
    requires Cleared(s, s', t, task, fs, args) && 1 <= t < NR_TASKS
    ensures Inv(s') && |s'.dir| == ENTRIES && HeldPages(s', fs, args)
    ensures Apart(fs) && |s'.tasks| == NR_TASKS && s'.tasks[t] == task
    ensures forall d :: IsDir(d) && Owns(t, d) ==> !HasTable(s', d)
  {
    ShapeOf(s');
  }

  lemma PlacingInv(s: State, s': State, t: int, fs: seq<nat>, args: seq<Page>, k: int)
    requires Placing(s, s', t, fs, args, k)
    ensures Inv(s') && s'.tasks == s.tasks && |s'.dir| == ENTRIES
  {
    ShapeOf(s');
  }
}

/** What the invariant means: counts that fit a byte, single writers, and the one place where the
    source breaks its own rule about clean pages. */
module PagingLaws {
  import opened Basics
  import opened PagingModel
  import opened PagingSteps
  import opened PagingTables
  import opened PagingOps
  import opened PagingFaults
  import opened PagingFrames
  import opened PagingTasks

  // ---------------------------------------------------------------- counts

  /** The entries of all tasks at one offset. */
  ghost function Column(x: int, i: int, n: nat): set<Ref> {
    set t | 1 <= t <= n :: ByPte(t * TASK_DIRS + x, i)
  }

  lemma {:induction false} ColumnSize(x: int, i: int, n: nat)
    ensures |Column(x, i, n)| <= n
  {
    if n == 0 {
      assert Column(x, i, n) == {};
    } else {
      ColumnSize(x, i, n - 1);
      assert Column(x, i, n) == Column(x, i, n - 1) + {ByPte(n * TASK_DIRS + x, i)};
    }
  }

  /** No frame is ever named more than 63 times: each task maps it once at most. So a count never
      overflows the byte that holds it, and is never mistaken for the mark of a reserved frame. */
  lemma CountsFit(s: State, f: nat)
    requires Inv(s) && Pool(s, f)
    ensures Count(s, f) <= NR_TASKS - 1 < USED < 256
  {
    assert IsFrame(f) && FrameOk(s, f);
    RefsSize(s, f);
    if PteRefs(s.dir, f) != {} {
      var a :| a in PteRefs(s.dir, f);
      assert IsUser(a.d, a.i) && Entry(s, a.d, a.i).Present?;
      PresentIsCounted(s, a.d, a.i);
      NoTableAt(s, f, a.d, a.i);
      var x := a.d % TASK_DIRS;
      forall b | b in PteRefs(s.dir, f) ensures b in Column(x, a.i, NR_TASKS - 1) {
        assert b.ByPte? && SameOffset(a.d, a.i, b.d, b.i);
        var t := b.d / TASK_DIRS;
        assert b == ByPte(t * TASK_DIRS + x, a.i) && 1 <= t <= NR_TASKS - 1;
      }
      ColumnSize(x, a.i, NR_TASKS - 1);
      SubsetSize(PteRefs(s.dir, f), Column(x, a.i, NR_TASKS - 1));
    } else {
      TableOrKernel(s, f);
    }
  }

  /** A frame a task maps holds no table. */
  lemma NoTableAt(s: State, f: nat, d: int, i: int)
    requires Inv(s) && IsUser(d, i) && Names(Entry(s, d, i), f) && Pool(s, f)
    ensures DirRefs(s.dir, f) == {}
  {
    forall r | r in DirRefs(s.dir, f) ensures false {
      assert IsDir(r.d) && HasTable(s, r.d);
      TableIsAlone(s, r.d, d, i);
    }
  }

  lemma TableOrKernel(s: State, f: nat)
    requires Inv(s) && Pool(s, f) && PteRefs(s.dir, f) == {}
    ensures Count(s, f) <= 1
  {
    assert IsFrame(f) && FrameOk(s, f);
    RefsSize(s, f);
    if DirRefs(s.dir, f) != {} {
      var r :| r in DirRefs(s.dir, f);
      assert IsDir(r.d) && DirOk(s, r.d);
    }
  }

  /** Every count is the number of entries, tables and kernel holders naming the frame, and a frame that
      some entry may write has that entry as its only name. */
  lemma FrameLaw(s: State, f: nat)
    requires Inv(s) && Pool(s, f)
    ensures Count(s, f) == |PteRefs(s.dir, f)| + |DirRefs(s.dir, f)| + Bit(f in s.held)
    ensures StructsOk(s) ==> (f in s.held <==> exists t :: IsTask(t) && s.structs[t] == f)
    ensures forall d, i :: IsUser(d, i) && Names(Entry(s, d, i), f) && Entry(s, d, i).rw ==> Refs(s, f) == {ByPte(d, i)}
  {
    assert IsFrame(f) && FrameOk(s, f);
    RefsSize(s, f);
    forall d, i | IsUser(d, i) && Names(Entry(s, d, i), f) && Entry(s, d, i).rw ensures Refs(s, f) == {ByPte(d, i)} {
      assert EntryOk(s, d, i) && ByPte(d, i) in Refs(s, f);
      forall r | r in Refs(s, f) ensures r == ByPte(d, i) {
        OnlyUser(s, f, r, ByPte(d, i));
      }
    }
  }

  /** No frame leaks: one that is not free holds a page of a task, a table or a task struct. */
  lemma NoLeak(s: State, f: nat)
    requires Inv(s) && StructsOk(s) && Pool(s, f)
    ensures !IsFree(s, f) <==>
            (exists d, i :: IsUser(d, i) && Names(Entry(s, d, i), f)) ||
            (exists d :: IsDir(d) && HasTable(s, d) && s.dir[d].frame == f) ||
            (exists t :: IsTask(t) && s.structs[t] == f)
  {
    FrameLaw(s, f);
    if IsFree(s, f) {
      FreeIsUnnamed(s, f);
    } else if PteRefs(s.dir, f) != {} {
      var r :| r in PteRefs(s.dir, f);
      assert IsUser(r.d, r.i) && Names(Entry(s, r.d, r.i), f);
    } else if DirRefs(s.dir, f) != {} {
      var r :| r in DirRefs(s.dir, f);
      assert IsDir(r.d) && HasTable(s, r.d) && s.dir[r.d].frame == f;
    }
  }

  /** When every task has left and been reaped, every frame and every swap slot is as it was after mem_init. */
  lemma AllReturned(s: State)
    requires Inv(s) && StructsOk(s) && forall t :: IsTask(t) ==> s.tasks[t].Dead? && s.structs[t] == 0
    ensures forall f :: IsFrame(f) ==> Count(s, f) == if Pool(s, f) then 0 else USED
    ensures forall n :: IsSlot(n) ==> (Freed(s, n) <==> Usable(s, n))
  {
    assert forall d :: IsDir(d) ==> !HasTable(s, d) by {
      forall d | IsDir(d) ensures !HasTable(s, d) { assert DirOk(s, d) && IsTask(d / TASK_DIRS); }
    }
    forall f | IsFrame(f) ensures Count(s, f) == if Pool(s, f) then 0 else USED {
      FrameReturned(s, f);
    }
    forall n | IsSlot(n) ensures Freed(s, n) <==> Usable(s, n) {
      SlotReturned(s, n);
    }
  }

  lemma FrameReturned(s: State, f: int)
    requires Inv(s) && StructsOk(s) && IsFrame(f)
    requires (forall d :: IsDir(d) ==> !HasTable(s, d)) && forall t :: IsTask(t) ==> s.structs[t] == 0
    ensures Count(s, f) == if Pool(s, f) then 0 else USED
  {
    assert FrameOk(s, f);
    hide Core, Clean;
    if Pool(s, f) {
      NoLeak(s, f);
      forall d, i | IsUser(d, i) ensures !Names(Entry(s, d, i), f) { assert IsDir(d) && !HasTable(s, d); }
    }
  }

  lemma SlotReturned(s: State, n: int)
    requires Inv(s) && IsSlot(n) && forall d :: IsDir(d) ==> !HasTable(s, d)
    ensures Freed(s, n) <==> Usable(s, n)
  {
    assert SlotOk(s, n);
    hide Core, Clean;
    forall d, i | IsUser(d, i) ensures At(s.dir, d, i) != Swapped(n) { assert IsDir(d) && !HasTable(s, d); }
    assert SlotRefs(s.dir, n) == {};
  }

  // ---------------------------------------------------------------- write_verify

  /** write_verify acts on a page that is there but may not be written. */
  predicate ReadOnly(s: State, d: int, i: int) {
    Entry(s, d, i).Present? && !Entry(s, d, i).rw
  }

  /** un_wp_page makes a copy: the frame is below LOW_MEM or has other users. */
  predicate Copies(s: State, d: int, i: int) {
    ReadOnly(s, d, i) && !Sole(s, d, i)
  }

  /** The copy is marked clean without a store to it. That is right if no copy is made, or the page's dirty bit was
      clear in counted memory, or the page happens to show what a fault would read in. */
  ghost predicate VerifyKeeps(s: State, d: int, i: int) {
    !Copies(s, d, i) || (LOW <= Entry(s, d, i).frame && !Entry(s, d, i).dirty) || View(s, d, i) == Backing(s, d, i)
  }

  /** write_verify keeps the promise about clean pages exactly then. */
  lemma VerifiedInv(s: State, s': State, d: int, i: int)
    requires Inv(s) && IsUser(d, i) && ReadOnly(s, d, i) && Unprotected(s, s', d, i) && LOW <= Entry(s', d, i).frame
    requires Entry(s', d, i).dirty == (Sole(s, d, i) && Entry(s, d, i).dirty)
    ensures Inv(s') <==> VerifyKeeps(s, d, i)
  {
    EntryReadable(s, d, i);
    EntryReadable(s', d, i);
    assert CleanAt(s, d, i);
    hide Core;
    assert Backing(s', d, i) == Backing(s, d, i) && View(s', d, i) == View(s, d, i);
    assert Clean(s') <==> CleanAt(s', d, i);
  }

  /** After the fork of task p its child names the page as well, so a write_verify there makes a copy. */
  lemma InheritedIsShared(s: State, s1: State, p: int, c: int, page: nat, d: int, i: int)
    requires Inv(s) && CanFork(s.tasks, p, c) && p > 0 && Forked(s, s1, p, c, page)
    requires IsUser(d, i) && Owns(p, d) && Entry(s, d, i).Present? && LOW <= Entry(s, d, i).frame
    ensures IsUser(Twin(d, c), i) && Owns(c, Twin(d, c)) && Copies(s1, Twin(d, c), i)
    ensures View(s1, Twin(d, c), i) == View(s, d, i) && Backing(s1, Twin(d, c), i) == Backing(s, d, i)
  {
    assert IsDir(d) && DirOk(s, d) && LiveDir(s, d);
    var x := Twin(d, c);
    assert IsUser(x, i) && Owns(c, x) && x % TASK_DIRS == d % TASK_DIRS && Twin(x, p) == d && d != x;
    hide Core, Clean;
    assert Child(s, s1, p, x, i);
    InheritedBacking(s, s1, p, c, page, x, i);
    TwoUsers(s1, d, x, i);
  }

  lemma TwoUsers(s: State, d: int, x: int, i: int)
    requires Inv(s) && IsUser(d, i) && IsUser(x, i) && d != x && Entry(s, d, i).Present? && Entry(s, x, i).Present?
    requires Entry(s, x, i).frame == Entry(s, d, i).frame && LOW <= Entry(s, d, i).frame
    ensures !Sole(s, x, i)
  {
    var f := Entry(s, d, i).frame;
    assert EntryOk(s, d, i) && Pool(s, f);
    assert ByPte(d, i) in Refs(s, f) && ByPte(x, i) in Refs(s, f);
    if Count(s, f) == 1 { OnlyUser(s, f, ByPte(d, i), ByPte(x, i)); }
  }

  /** Stores to a page that is present take no frame and put nothing into swap or out of it. */
  lemma StoreFrees(s: State, d: int, i: int, page: Page, p: int, n: nat)
    requires CanWrite(s, d, i)
    ensures |FreeFrames(WriteThrough(s, d, i, page))| == |FreeFrames(s)|
    ensures Used(WriteThrough(s, d, i, page).dir, p, n) == Used(s.dir, p, n)
  {
    SameFree(s, WriteThrough(s, d, i, page));
    SetPteAt(s.dir, d, i, Present(Entry(s, d, i).frame, true, true));
    UsedSame(s.dir, WriteThrough(s, d, i, page).dir, p, n);
  }

  lemma {:induction false} SwapsSame(dir: seq<Pde>, dir': seq<Pde>, d: int, j: nat)
    requires forall i :: 0 <= i < j ==> At(dir', d, i).Swapped? == At(dir, d, i).Swapped?
    ensures SwapsIn(dir', d, j) == SwapsIn(dir, d, j)
  {
    if j > 0 { SwapsSame(dir, dir', d, j - 1); }
  }

  lemma {:induction false} UsedSame(dir: seq<Pde>, dir': seq<Pde>, p: int, n: nat)
    requires forall d :: Tabled(dir', d) == Tabled(dir, d)
    requires forall d, i :: At(dir', d, i).Swapped? == At(dir, d, i).Swapped?
    ensures Used(dir', p, n) == Used(dir, p, n)
  {
    if n > 0 {
      UsedSame(dir, dir', p, n - 1);
      SwapsSame(dir, dir', Twin(n - 1, p), Width(p));
    }
  }

  lemma InheritedBacking(s: State, s1: State, p: int, c: int, page: nat, d: int, i: int)
    requires CanFork(s.tasks, p, c) && p > 0 && Forked(s, s1, p, c, page)
    requires IsUser(d, i) && Owns(c, d) && d % TASK_DIRS < s.tasks[p].dirs
    ensures View(s1, d, i) == View(s, Twin(d, p), i) && Backing(s1, d, i) == Backing(s, Twin(d, p), i)
  {
    hide Core, View, Inv;
    assert Offset(Twin(d, p), i) == Offset(d, i) && Twin(d, p) / TASK_DIRS == p;
  }

  // ---------------------------------------------------------------- the state after mem_init

  ghost predicate Booted(s: State) {
    ConfigOk(s.cfg) && |s.dir| == ENTRIES && KernelOk(s.dir[0]) && |s.memMap| == PAGING_PAGES && |s.ram| == FRAMES &&
    s.bitmap == s.cfg.usable && |s.swap| == SWAP_BITS && s.held == {} && |s.tasks| == NR_TASKS &&
    |s.structs| == NR_TASKS && !s.cfg.usable[0] &&
    (forall d :: 0 < d < ENTRIES ==> s.dir[d].NoTable?) &&
    (forall t :: 0 <= t < NR_TASKS ==> s.tasks[t].Dead? && s.structs[t] == 0) &&
    (forall k :: 0 <= k < PAGING_PAGES ==> s.memMap[k] == if s.cfg.lo - LOW <= k < s.cfg.hi - LOW then 0 else USED)
  }

  lemma BootedInv(s: State)
    requires Booted(s)
    ensures Inv(s) && StructsOk(s)
  {
    forall d, i | IsUser(d, i) ensures Entry(s, d, i) == None {
    }
    forall f | IsFrame(f) ensures FrameOk(s, f) {
      assert PteRefs(s.dir, f) == {} && DirRefs(s.dir, f) == {};
    }
    forall n | IsSlot(n) ensures SlotOk(s, n) {
      assert SlotRefs(s.dir, n) == {};
    }
  }
}

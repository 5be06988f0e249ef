/** Freeing a task's tables and copying them to a child. */
module PagingFork {
  import opened Basics
  import opened PagingModel
  import opened PagingSteps
  import opened PagingTables
  import opened PagingOps
  import opened PagingFaults
  import opened PagingFrames

  // ---------------------------------------------------------------- free_page_tables

  /** s' differs from s only in the pages of task t. */
  ghost predicate OnlyTask(s: State, s': State, t: int) {
    Inv(s') && SameWorld(s, s') &&
    (forall d, i :: IsUser(d, i) && !Owns(t, d) ==>
      Entry(s', d, i) == Entry(s, d, i) && View(s', d, i) == View(s, d, i)) &&
    (forall d :: IsDir(d) && !Owns(t, d) ==> SameTable(s, s', d))
  }

  predicate CanUnmap(s: State, d: int, i: int) {
    HasTable(s, d) && 0 <= i < |s.dir[d].ptes| && |s.memMap| == PAGING_PAGES && s.cfg.hi <= FRAMES && LOW <= s.cfg.lo &&
    (Entry(s, d, i).Present? ==> Entry(s, d, i).frame < LOW || Pool(s, Entry(s, d, i).frame)) &&
    |s.bitmap| == SWAP_BITS &&
    (Entry(s, d, i).Swapped? ==> IsSlot(Entry(s, d, i).slot) && !Freed(s, Entry(s, d, i).slot))
  }

  lemma UnmapOne(s0: State, s: State, t: int, d: int, i: int)
    requires OnlyTask(s0, s, t) && IsUser(d, i) && Owns(t, d) && HasTable(s, d)
    ensures CanUnmap(s, d, i) && OnlyTask(s0, Unmap(s, d, i), t)
    ensures HasTable(Unmap(s, d, i), d) && Entry(Unmap(s, d, i), d, i) == None
    ensures forall j :: 0 <= j < ENTRIES && j != i ==> Entry(Unmap(s, d, i), d, j) == Entry(s, d, j)
    ensures forall d2 :: IsDir(d2) ==> SameTable(s, Unmap(s, d, i), d2)
  {
    hide Core, Clean, View, Backing, CleanAt, SameElsewhere, CanUnmap;
    TaskReadable'(s, d, i);
    UnmapSeen(s, d, i);
    UnmapFrame(s, d, i);
    var s' := Unmap(s, d, i);
    hide Unmap;
    forall d2, i2 | IsUser(d2, i2) && !Owns(t, d2)
      ensures Entry(s', d2, i2) == Entry(s0, d2, i2) && View(s', d2, i2) == View(s0, d2, i2)
    {
      assert (d2, i2) != (d, i);
    }
    forall d2 | IsDir(d2) && !Owns(t, d2) ensures SameTable(s0, s', d2) {
      assert SameTable(s0, s, d2) && SameTable(s, s', d2);
    }
  }

  /** What Unmap leaves alone. */
  lemma UnmapFrame(s: State, d: int, i: int)
    requires CanUnmap(s, d, i) && IsUser(d, i)
    ensures var s' := Unmap(s, d, i);
      SameWorld(s, s') && (forall d2 :: IsDir(d2) ==> SameTable(s, s', d2)) &&
      (forall d2, i2 :: IsUser(d2, i2) && (d2, i2) != (d, i) ==>
        Entry(s', d2, i2) == Entry(s, d2, i2) && View(s', d2, i2) == View(s, d2, i2)) &&
      (forall j :: 0 <= j < ENTRIES && j != i ==> Entry(s', d, j) == Entry(s, d, j))
  {
    var s' := Unmap(s, d, i);
    PteChangeUnseen(s, s', d, i, None);
    forall d2, i2 | IsUser(d2, i2) && (d2, i2) != (d, i)
      ensures Entry(s', d2, i2) == Entry(s, d2, i2) && View(s', d2, i2) == View(s, d2, i2)
    {
      assert SameView(s, s', d2, i2);
    }
    forall j | 0 <= j < ENTRIES && j != i ensures Entry(s', d, j) == Entry(s, d, j) {
      assert IsUser(d, j);
    }
  }

  lemma TaskReadable'(s: State, d: int, i: int)
    requires Inv(s) && IsUser(d, i) && HasTable(s, d)
    ensures CanUnmap(s, d, i) && |s.dir[d].ptes| == ENTRIES
  {
    assert IsDir(d) && DirOk(s, d) && EntryOk(s, d, i);
    if Entry(s, d, i).Swapped? { SlotIsTaken(s, d, i); }
  }

  predicate CanFreeTable(s: State, d: int) {
    HasTable(s, d) && LOW <= s.dir[d].frame && s.dir[d].frame < FRAMES && |s.memMap| == PAGING_PAGES &&
    Pool(s, s.dir[d].frame) && Count(s, s.dir[d].frame) == 1
  }

  lemma FreeTableOne(s0: State, s: State, t: int, d: int)
    requires OnlyTask(s0, s, t) && IsDir(d) && Owns(t, d) && HasTable(s, d)
    requires forall i :: 0 <= i < ENTRIES ==> Entry(s, d, i) == None
    ensures CanFreeTable(s, d) && OnlyTask(s0, Drop(FreeTable(s, d), s.dir[d].frame), t)
    ensures !HasTable(Drop(FreeTable(s, d), s.dir[d].frame), d)
    ensures s.dir[d].frame !in s.held
    ensures forall d2 :: IsDir(d2) && d2 != d ==> SameTable(s, Drop(FreeTable(s, d), s.dir[d].frame), d2)
  {
    hide Core, Clean, SameViews, SameEntries;
    TableFacts(s, d);
    var f := s.dir[d].frame;
    var s1 := FreeTable(s, d);
    FreeTableKeeps(s, d);
    DropKeeps(s1, f);
    OnlyTaskStep(s0, s, s1, Drop(s1, f), t, d);
  }

  /** One more table of the task gone; entries and views of the others are as they were. */
  lemma OnlyTaskStep(s0: State, s: State, s1: State, s': State, t: int, d: int)
    requires OnlyTask(s0, s, t) && Owns(t, d) && Inv(s') && SameWorld(s, s')
    requires SameViews(s, s1) && SameEntries(s, s1) && SameViews(s1, s') && s'.dir == s1.dir
    requires |s1.dir| == |s.dir| && forall e :: 0 <= e < |s.dir| && e != d ==> s1.dir[e] == s.dir[e]
    ensures OnlyTask(s0, s', t)
  {
    hide Core, Clean, View, Inv;
    forall d2, i2 | IsUser(d2, i2) && !Owns(t, d2)
      ensures Entry(s', d2, i2) == Entry(s0, d2, i2) && View(s', d2, i2) == View(s0, d2, i2)
    {
      assert View(s1, d2, i2) == View(s, d2, i2) && View(s', d2, i2) == View(s1, d2, i2);
      assert Entry(s1, d2, i2) == Entry(s, d2, i2);
    }
  }

  lemma TableFacts(s: State, d: int)
    requires Inv(s) && IsDir(d) && HasTable(s, d)
    ensures CanFreeTable(s, d) && s.dir[d].frame !in s.held
  {
    assert DirOk(s, d);
    var f := s.dir[d].frame;
    if f in s.held { HeldIsUnmapped(s, f); }
  }

  lemma OnlyTaskRefl(s: State, t: int)
    requires Inv(s)
    ensures OnlyTask(s, s, t)
  {
  }

  lemma OnlyTaskReadable(s0: State, s: State, t: int, d: int)
    requires OnlyTask(s0, s, t)
    ensures |s.dir| == ENTRIES && Inv(s)
  {
  }

  /** Beyond the segment limit a task has no tables. */
  lemma NoTableBeyond(s0: State, s: State, t: int)
    requires OnlyTask(s0, s, t) && 0 <= t < |s.tasks| && s.tasks[t].Live?
    ensures forall d :: IsDir(d) && Owns(t, d) && d % TASK_DIRS >= s.tasks[t].dirs ==> !HasTable(s, d)
  {
  }

  // ---------------------------------------------------------------- copying one entry

  /** What copying leaves in the parent's entry: a counted page is write protected, a page in swap has come in. */
  predicate Yields(e: Pte, e': Pte) {
    match e
    case None => e' == None
    case Swapped(_) => e'.Present? && LOW <= e'.frame && e'.rw && e'.dirty
    case Present(f, _, dirty) => e' == if f < LOW then e else Present(f, false, dirty)
  }

  /** What the child's entry becomes: the same page without write permission, or the slot. */
  predicate Inherits(e: Pte, x: Pte) {
    x == if e.Present? then Present(e.frame, false, e.dirty) else e
  }

  /** The only entries that changed are (d, i) and (d0, i), the former inheriting the page of the latter. */
  ghost predicate EntriesKept(s: State, s': State, d0: int, i: int, d: int) {
    |s.dir| == ENTRIES && |s'.dir| == ENTRIES &&
    (forall d2, i2 :: IsUser(d2, i2) ==> (d2, i2) != (d, i) ==> (d2, i2) != (d0, i) ==>
      Entry(s', d2, i2) == Entry(s, d2, i2)) &&
    Yields(Entry(s, d0, i), Entry(s', d0, i)) && Inherits(Entry(s, d0, i), Entry(s', d, i)) &&
    (forall d2 :: IsDir(d2) ==> SameTable(s, s', d2))
  }

  /** Page (d, i), so far untouched, now shows what (d0, i) shows; every other page is as before. */
  ghost predicate Duplicated(s: State, s': State, d0: int, i: int, d: int) {
    Inv(s') && SameWorld(s, s') && EntriesKept(s, s', d0, i, d) && View(s', d, i) == View(s, d0, i) &&
    (forall d2, i2 :: IsUser(d2, i2) ==> (d2, i2) != (d, i) ==> View(s', d2, i2) == View(s, d2, i2))
  }

  /** A page below LOW_MEM is named read-only by the child as well; it is not counted. */
  lemma DuplicateLow(s: State, d0: int, i: int, d: int)
    requires Inv(s) && |s.dir| == ENTRIES && IsUser(d, i) && HasTable(s, d) && Entry(s, d, i) == None && d0 != d
    requires Entry(s, d0, i).Present? && Entry(s, d0, i).frame < LOW
    ensures HasTable(s, d) && |s.dir[d].ptes| == ENTRIES
    ensures Duplicated(s, PutShared(s, d, i, Entry(s, d0, i).frame, Entry(s, d0, i).dirty), d0, i, d)
  {
    hide Core;
    EntryReadable(s, d, i);
    var e := Entry(s, d0, i);
    PutSharedKeeps(s, d, i, e.frame, e.dirty, d0, i);
    var s' := PutShared(s, d, i, e.frame, e.dirty);
    SetPteAt(s.dir, d, i, Present(e.frame, false, e.dirty));
    PteChangeUnseen(s, s', d, i, Present(e.frame, false, e.dirty));
    assert Clean(s') by {
      forall d2, i2 | IsUser(d2, i2) ensures CleanAt(s', d2, i2) {
        assert CleanAt(s, d2, i2);
      }
    }
  }

  predicate CanDuplicate(s: State, d0: int, i: int, d: int) {
    HasTable(s, d0) && HasTable(s, d) && 0 <= i < |s.dir[d0].ptes| && i < |s.dir[d].ptes| && d0 != d &&
    Entry(s, d0, i).Present? && LOW <= Entry(s, d0, i).frame && Entry(s, d0, i).frame - LOW < |s.memMap|
  }

  /** A counted page: both entries become read-only names of the one frame. */
  function DuplicateShared(s: State, d0: int, i: int, d: int): State
    requires CanDuplicate(s, d0, i, d)
  {
    var e := Entry(s, d0, i);
    PutShared(SetBits(s, d0, i, false, e.dirty), d, i, e.frame, e.dirty)
  }

  lemma DuplicateSharedKept(s: State, d0: int, i: int, d: int)
    requires CanDuplicate(s, d0, i, d) && |s.dir| == ENTRIES && d0 > 0 && d > 0
    ensures EntriesKept(s, DuplicateShared(s, d0, i, d), d0, i, d)
  {
  }

  lemma DuplicateSharedKeeps(s: State, d0: int, i: int, d: int)
    requires Inv(s) && IsUser(d0, i) && IsUser(d, i) && HasTable(s, d) && Entry(s, d, i) == None && d0 != d
    requires Entry(s, d0, i).Present? && LOW <= Entry(s, d0, i).frame && Backing(s, d0, i) == Backing(s, d, i)
    requires SameOffset(d, i, d0, i)
    ensures CanDuplicate(s, d0, i, d) && Duplicated(s, DuplicateShared(s, d0, i, d), d0, i, d)
  {
    hide Core, EntriesKept;
    EntryReadable(s, d0, i);
    EntryReadable(s, d, i);
    DuplicateSharedKept(s, d0, i, d);
    var e := Entry(s, d0, i);
    SetBitsKeeps(s, d0, i, false, e.dirty);
    SetBitsSeen(s, d0, i, false, e.dirty);
    var s1 := SetBits(s, d0, i, false, e.dirty);
    SetPteAt(s.dir, d0, i, Present(e.frame, false, e.dirty));
    PutSharedKeeps(s1, d, i, e.frame, e.dirty, d0, i);
    DuplicateSharedSeen(s1, d0, i, d, e.frame, e.dirty);
  }

  lemma DuplicateSharedSeen(s: State, d0: int, i: int, d: int, f: nat, dirty: bool)
    requires Clean(s) && IsUser(d0, i) && IsUser(d, i) && HasTable(s, d) && i < |s.dir[d].ptes| && d0 != d
    requires Entry(s, d0, i) == Present(f, false, dirty) && Backing(s, d0, i) == Backing(s, d, i)
    ensures var s' := PutShared(s, d, i, f, dirty);
            Clean(s') && View(s', d, i) == View(s, d0, i) &&
            forall d2, i2 :: IsUser(d2, i2) ==> (d2, i2) != (d, i) ==> View(s', d2, i2) == View(s, d2, i2)
  {
    var s' := PutShared(s, d, i, f, dirty);
    PteChangeUnseen(s, s', d, i, Present(f, false, dirty));
    DuplicateClean(s, s', d0, i, d);
  }

  lemma DuplicateClean(s: State, s': State, d0: int, i: int, d: int)
    requires Clean(s) && IsUser(d0, i) && IsUser(d, i) && s'.ram == s.ram && s'.cfg == s.cfg && s'.tasks == s.tasks
    requires forall d2, i2 :: IsUser(d2, i2) ==> (d2, i2) != (d, i) ==> Entry(s', d2, i2) == Entry(s, d2, i2)
    requires Entry(s', d, i) == Entry(s, d0, i) && Backing(s, d0, i) == Backing(s, d, i)
    ensures Clean(s')
  {
  }

  predicate CanDuplicateSwapped(s: State, d0: int, i: int, d: int, f: nat) {
    CanInstall(s, d0, i, f) && HasTable(s, d) && 0 <= i < |s.dir[d].ptes| && d0 != d &&
    Entry(s, d0, i).Swapped? && Entry(s, d0, i).slot < |s.bitmap| && Entry(s, d0, i).slot < |s.swap|
  }

  /** A page in swap: the child inherits the slot, the parent gets a copy in frame f. */
  function DuplicateSwapped(s: State, d0: int, i: int, d: int, f: nat): State
    requires CanDuplicateSwapped(s, d0, i, d, f)
  {
    var n := Entry(s, d0, i).slot;
    PutSlot(PageIn(s, d0, i, f, s.swap[n], true), d, i, n)
  }

  lemma DuplicateSwappedKept(s: State, d0: int, i: int, d: int, f: nat)
    requires IsFrame(f) && |s.ram| == FRAMES && |s.memMap| == PAGING_PAGES && |s.dir| == ENTRIES && d0 > 0 && d > 0
    requires CanDuplicateSwapped(Claim(s, f), d0, i, d, f) && f !in s.held
    ensures EntriesKept(s, DuplicateSwapped(Claim(s, f), d0, i, d, f), d0, i, d)
    ensures SameWorld(s, DuplicateSwapped(Claim(s, f), d0, i, d, f))
  {
  }

  lemma DuplicateSwappedKeeps(s: State, d0: int, i: int, d: int, f: nat)
    requires Inv(s) && IsUser(d0, i) && IsUser(d, i) && HasTable(s, d) && Entry(s, d, i) == None && d0 != d
    requires Entry(s, d0, i).Swapped? && IsFree(s, f)
    ensures IsFrame(f) && |s.ram| == FRAMES && |s.memMap| == PAGING_PAGES
    ensures CanDuplicateSwapped(Claim(s, f), d0, i, d, f)
    ensures Duplicated(s, DuplicateSwapped(Claim(s, f), d0, i, d, f), d0, i, d)
  {
    hide Core, EntriesKept, SameWorld;
    var n := Entry(s, d0, i).slot;
    SlotIsTaken(s, d0, i);
    EntryReadable(s, d0, i);
    EntryReadable(s, d, i);
    FreeIsUnnamed(s, f);
    ShapeOf(s);
    PageInKeeps(s, d0, i, f, s.swap[n], true);
    var s1 := PageIn(Claim(s, f), d0, i, f, s.swap[n], true);
    SetPteAt(s.dir, d0, i, Present(f, true, true));
    DuplicateSwappedKept(s, d0, i, d, f);
    PutSlotSeen(s1, d, i, n);
    var s' := PutSlot(s1, d, i, n);
    forall d2, i2 | IsUser(d2, i2) && (d2, i2) != (d, i) ensures View(s', d2, i2) == View(s, d2, i2) {
      assert SameView(s1, s', d2, i2);
    }
  }

  // ---------------------------------------------------------------- copy_page_tables

  /** How far copy_page_tables has got: the child shows the parent's pages before (k, j) and has nothing
      after that; every other page of every task shows what it showed in s. */
  ghost predicate Copying(s: State, s': State, p: int, c: int, k: int, j: int) {
    Inv(s') && SameWorld(s, s') && |s.dir| == ENTRIES && |s'.dir| == ENTRIES &&
    (forall d, i :: IsUser(d, i) && !Owns(c, d) ==> View(s', d, i) == View(s, d, i)) &&
    (forall d, i :: IsUser(d, i) && Owns(c, d) ==> ChildOr(s, s', p, k, j, d, i)) &&
    (forall d, i :: IsUser(d, i) && !Owns(c, d) ==> ParentOr(s, s', p, k, j, d, i)) &&
    (forall d :: IsDir(d) ==> if Owns(c, d) then d % TASK_DIRS > k ==> !HasTable(s', d) else SameTable(s, s', d))
  }

  /** Entries of the child before (k, j) show the parent's pages from the same places; the others are empty. */
  ghost predicate ChildOr(s: State, s': State, p: int, k: int, j: int, d: int, i: int) {
    if Before(d % TASK_DIRS, i, k, j)
    then View(s', d, i) == View(s, Twin(d, p), i) && Inherits(Entry(s, Twin(d, p), i), Entry(s', d, i))
    else Entry(s', d, i) == None
  }

  /** Entries of the parent before (k, j) have been copied; every other entry but the child's is as it was. */
  predicate ParentOr(s: State, s': State, p: int, k: int, j: int, d: int, i: int) {
    if Owns(p, d) && Before(d % TASK_DIRS, i, k, j) then Yields(Entry(s, d, i), Entry(s', d, i))
    else Entry(s', d, i) == Entry(s, d, i)
  }

  /** The child's task struct is a copy of the parent's, or task 0's with no image. */
  predicate Related(tasks: seq<Task>, p: int, c: int) {
    0 <= p < NR_TASKS && 1 <= c < NR_TASKS && p != c && |tasks| == NR_TASKS && tasks[c].Live? &&
    (p > 0 ==> tasks[c] == tasks[p])
  }

  /** Parent and child would read the same page in at the same offset. */
  lemma TwinBacking(s: State, p: int, c: int, k: int, i: int)
    requires Related(s.tasks, p, c) && p > 0 && 0 <= k < TASK_DIRS && 0 <= i < ENTRIES
    ensures IsUser(Twin(k, p), i) && IsUser(Twin(k, c), i) && Backing(s, Twin(k, p), i) == Backing(s, Twin(k, c), i)
  {
  }

  /** The entry to be copied is still as it was at the start. */
  lemma CopySource(s: State, s1: State, p: int, c: int, k: int, j: int)
    requires Copying(s, s1, p, c, k, j) && Related(s.tasks, p, c) && 0 <= k < TASK_DIRS && 0 <= j < ENTRIES
    requires p == 0 ==> k == 0 && At(s.dir, 0, j).Present? && At(s.dir, 0, j).frame < LOW
    ensures View(s1, Twin(k, p), j) == View(s, Twin(k, p), j) && Entry(s1, Twin(k, p), j) == Entry(s, Twin(k, p), j)
    ensures IsUser(Twin(k, c), j) && Owns(c, Twin(k, c)) && !Owns(c, Twin(k, p))
    ensures p > 0 ==> IsUser(Twin(k, p), j) && Owns(p, Twin(k, p))
  {
    hide Core, Clean, Backing;
    var d0 := Twin(k, p);
    if p > 0 { assert IsUser(d0, j) && !Owns(c, d0) && Owns(p, d0) && ParentOr(s, s1, p, k, j, d0, j); }
  }

  lemma CopyOneParent(s: State, s1: State, s2: State, p: int, c: int, k: int, j: int, d2: int, i2: int)
    requires Related(s.tasks, p, c) && 0 <= k < TASK_DIRS && 0 <= j < ENTRIES && IsUser(d2, i2) && !Owns(c, d2)
    requires ParentOr(s, s1, p, k, j, d2, i2) && EntriesKept(s1, s2, Twin(k, p), j, Twin(k, c))
    requires Entry(s1, Twin(k, p), j) == Entry(s, Twin(k, p), j)
    ensures ParentOr(s, s2, p, k, j + 1, d2, i2)
  {
    hide Inherits;
    assert (d2, i2) != (Twin(k, c), j);
    assert Owns(p, d2) && d2 % TASK_DIRS == k ==> d2 == Twin(k, p);
    assert (d2, i2) != (Twin(k, p), j) ==> Entry(s2, d2, i2) == Entry(s1, d2, i2);
  }

  lemma CopyOneChild(s: State, s1: State, s2: State, p: int, c: int, k: int, j: int, d2: int, i2: int)
    requires Related(s.tasks, p, c) && 0 <= k < TASK_DIRS && 0 <= j < ENTRIES && IsUser(d2, i2) && Owns(c, d2)
    requires ChildOr(s, s1, p, k, j, d2, i2) && EntriesKept(s1, s2, Twin(k, p), j, Twin(k, c))
    requires Entry(s1, Twin(k, p), j) == Entry(s, Twin(k, p), j)
    requires View(s2, Twin(k, c), j) == View(s, Twin(k, p), j)
    requires (d2, i2) != (Twin(k, c), j) ==> View(s2, d2, i2) == View(s1, d2, i2)
    ensures ChildOr(s, s2, p, k, j + 1, d2, i2)
  {
    hide View, Yields, Inherits;
    assert d2 % TASK_DIRS == k ==> d2 == Twin(k, c);
    assert d2 != Twin(k, p);
    assert (d2, i2) != (Twin(k, c), j) ==> Entry(s2, d2, i2) == Entry(s1, d2, i2);
    assert d2 == Twin(k, c) ==> Twin(d2, p) == Twin(k, p);
  }

  lemma CopyOne(s: State, s1: State, s2: State, p: int, c: int, k: int, j: int)
    requires Copying(s, s1, p, c, k, j) && Related(s.tasks, p, c) && 0 <= k < TASK_DIRS && 0 <= j < ENTRIES
    requires Duplicated(s1, s2, Twin(k, p), j, Twin(k, c))
    requires p == 0 ==> k == 0 && At(s.dir, 0, j).Present? && At(s.dir, 0, j).frame < LOW
    ensures Copying(s, s2, p, c, k, j + 1)
  {
    hide Core, Clean, Backing, View, Yields, Inherits, ParentOr, ChildOr;
    CopySource(s, s1, p, c, k, j);
    forall d2, i2 | IsUser(d2, i2) && !Owns(c, d2) ensures ParentOr(s, s2, p, k, j + 1, d2, i2) {
      CopyOneParent(s, s1, s2, p, c, k, j, d2, i2);
    }
    forall d2, i2 | IsUser(d2, i2) && Owns(c, d2) ensures ChildOr(s, s2, p, k, j + 1, d2, i2) {
      CopyOneChild(s, s1, s2, p, c, k, j, d2, i2);
    }
  }

  lemma CopyNothing(s: State, s1: State, p: int, c: int, k: int, j: int)
    requires Copying(s, s1, p, c, k, j) && Related(s.tasks, p, c) && 0 <= k < TASK_DIRS && 0 <= j < ENTRIES
    requires p > 0 && Entry(s1, Twin(k, p), j) == None
    ensures Copying(s, s1, p, c, k, j + 1)
  {
    hide Core, Clean, Backing;
    TwinBacking(s1, p, c, k, j);
    var d0, d := Twin(k, p), Twin(k, c);
    assert !Owns(c, d0) && Owns(c, d) && Owns(p, d0) && ParentOr(s, s1, p, k, j, d0, j);
    assert View(s1, d0, j) == View(s, d0, j);
    forall d2, i2 | IsUser(d2, i2) && Owns(c, d2)
      ensures ChildOr(s, s1, p, k, j + 1, d2, i2)
    {
      assert ChildOr(s, s1, p, k, j, d2, i2);
      assert d2 % TASK_DIRS == k ==> d2 == d;
    }
    forall d2, i2 | IsUser(d2, i2) && !Owns(c, d2) ensures ParentOr(s, s1, p, k, j + 1, d2, i2) {
      assert ParentOr(s, s1, p, k, j, d2, i2);
      assert Owns(p, d2) && d2 % TASK_DIRS == k ==> d2 == d0;
    }
  }

  /** A fresh table for the child changes no page. */
  lemma CopyAddsTable(s: State, s1: State, p: int, c: int, k: int, f: nat)
    requires Copying(s, s1, p, c, k, 0) && Related(s.tasks, p, c) && 0 <= k < s.tasks[c].dirs
    requires !HasTable(s1, Twin(k, c)) && IsFree(s1, f) && k < TASK_DIRS
    ensures IsFrame(f) && f < |s1.ram| && |s1.memMap| == PAGING_PAGES && Twin(k, c) < |s1.dir|
    ensures Copying(s, NewTable(Claim(s1, f), Twin(k, c), f), p, c, k, 0)
    ensures HasTable(NewTable(Claim(s1, f), Twin(k, c), f), Twin(k, c))
  {
    hide Core, Clean, Backing;
    var d := Twin(k, c);
    assert LiveDir(s1, d) && Owns(c, d);
    TableInKeeps(s1, d, f);
    var s2 := NewTable(Claim(s1, f), d, f);
    forall d2, i2 | IsUser(d2, i2)
      ensures View(s2, d2, i2) == View(s1, d2, i2) && Entry(s2, d2, i2) == Entry(s1, d2, i2)
    {
    }
    forall d2, i2 | IsUser(d2, i2)
      ensures if Owns(c, d2) then ChildOr(s, s2, p, k, 0, d2, i2) else ParentOr(s, s2, p, k, 0, d2, i2)
    {
      assert if Owns(c, d2) then ChildOr(s, s1, p, k, 0, d2, i2) else ParentOr(s, s1, p, k, 0, d2, i2);
    }
  }

  /** A missing table of the parent stands for pages never touched. */
  lemma CopySkipsTable(s: State, s1: State, p: int, c: int, k: int)
    requires Copying(s, s1, p, c, k, 0) && Related(s.tasks, p, c) && 0 <= k < TASK_DIRS && p > 0
    requires !HasTable(s1, Twin(k, p)) && !HasTable(s1, Twin(k, c))
    ensures Copying(s, s1, p, c, k + 1, 0)
  {
    hide Core, Clean, Backing;
    forall d2, i2 | IsUser(d2, i2) && Owns(c, d2)
      ensures ChildOr(s, s1, p, k + 1, 0, d2, i2)
    {
      assert ChildOr(s, s1, p, k, 0, d2, i2);
      if d2 % TASK_DIRS == k {
        assert d2 == Twin(k, c);
        TwinBacking(s1, p, c, k, i2);
        assert !Owns(c, Twin(k, p)) && View(s1, Twin(k, p), i2) == View(s, Twin(k, p), i2);
        assert ParentOr(s, s1, p, k, 0, Twin(k, p), i2);
      }
    }
    forall d2, i2 | IsUser(d2, i2) && !Owns(c, d2) ensures ParentOr(s, s1, p, k + 1, 0, d2, i2) {
      assert ParentOr(s, s1, p, k, 0, d2, i2);
      assert Owns(p, d2) && d2 % TASK_DIRS == k ==> d2 == Twin(k, p);
    }
  }

  lemma CopyNextTable(s: State, s1: State, p: int, c: int, k: int)
    requires Copying(s, s1, p, c, k, ENTRIES)
    ensures Copying(s, s1, p, c, k + 1, 0)
  {
    hide Core, Clean, Backing, View;
    forall d, i | IsUser(d, i)
      ensures if Owns(c, d) then ChildOr(s, s1, p, k + 1, 0, d, i) else ParentOr(s, s1, p, k + 1, 0, d, i)
    {
      assert if Owns(c, d) then ChildOr(s, s1, p, k, ENTRIES, d, i) else ParentOr(s, s1, p, k, ENTRIES, d, i);
    }
  }

  lemma CopyStarts(s: State, p: int, c: int)
    requires Inv(s) && forall d :: IsDir(d) && Owns(c, d) ==> !HasTable(s, d)
    ensures Copying(s, s, p, c, 0, 0)
  {
  }

  /** What the method needs to know to go on copying. */
  lemma CopyReadable(s: State, s1: State, p: int, c: int, k: int, j: int)
    requires Copying(s, s1, p, c, k, j) && Related(s.tasks, p, c) && 0 <= k < s.tasks[c].dirs && 0 <= j < ENTRIES
    requires k < TASK_DIRS && (p == 0 ==> k == 0 && j < 160)
    ensures |s1.dir| == ENTRIES && |s1.bitmap| == SWAP_BITS && Twin(k, p) < ENTRIES
    ensures Twin(k, c) < ENTRIES && Twin(k, p) != Twin(k, c)
    ensures HasTable(s1, Twin(k, c)) ==> |s1.dir[Twin(k, c)].ptes| == ENTRIES
    ensures HasTable(s1, Twin(k, p)) ==> |s1.dir[Twin(k, p)].ptes| == ENTRIES
    ensures IsUser(Twin(k, c), j) && Entry(s1, Twin(k, c), j) == None
    ensures p == 0 ==> HasTable(s1, 0) && s1.dir[0] == s.dir[0] && Entry(s1, 0, j).Present?
    ensures p == 0 ==> Entry(s1, 0, j).frame < LOW && Twin(k, p) == 0
    ensures p > 0 ==> IsUser(Twin(k, p), j) && Backing(s1, Twin(k, p), j) == Backing(s1, Twin(k, c), j)
    ensures SameOffset(Twin(k, c), j, Twin(k, p), j)
    ensures Entry(s1, Twin(k, p), j) == Entry(s, Twin(k, p), j)
    ensures HasTable(s1, Twin(k, p)) == HasTable(s, Twin(k, p))
  {
    hide Core, Clean, Backing, View;
    ShapeOf(s1);
    TableLength(s1, Twin(k, c));
    assert Owns(c, Twin(k, c));
    if p > 0 {
      TwinBacking(s1, p, c, k, j);
      TableLength(s1, Twin(k, p));
      assert Owns(p, Twin(k, p)) && !Owns(c, Twin(k, p)) && ParentOr(s, s1, p, k, j, Twin(k, p), j);
      assert SameTable(s, s1, Twin(k, p));
    }
  }

  lemma TableLength(s: State, d: int)
    requires Inv(s) && IsDir(d)
    ensures HasTable(s, d) ==> |s.dir[d].ptes| == ENTRIES
  {
  }

  /** The slot changes hands, so the bitmap stays as it is. */
  lemma CopyKeepsSlot(s: State, d0: int, i: int, d: int, f: nat)
    requires Inv(s) && IsUser(d0, i) && Entry(s, d0, i).Swapped?
    requires IsFrame(f) && |s.ram| == FRAMES && |s.memMap| == PAGING_PAGES
    requires CanDuplicateSwapped(Claim(s, f), d0, i, d, f)
    ensures DuplicateSwapped(Claim(s, f), d0, i, d, f).bitmap == s.bitmap
  {
    SlotIsTaken(s, d0, i);
    var n := Entry(s, d0, i).slot;
    assert s.bitmap[n := true][n := false] == s.bitmap;
  }

  lemma FrameInRange(s: State, d: int, i: int)
    requires Inv(s) && (IsUser(d, i) || (d == 0 && 0 <= i < 160)) && Entry(s, d, i).Present?
    ensures Entry(s, d, i).frame < FRAMES && |s.memMap| == PAGING_PAGES
  {
  }

  lemma DuplicatedTables(s: State, s': State, d0: int, i: int, d: int)
    requires Duplicated(s, s', d0, i, d) && IsDir(d) && (IsDir(d0) || d0 == 0)
    ensures HasTable(s', d) == HasTable(s, d) && HasTable(s', d0) == HasTable(s, d0)
  {
    hide Inv, View;
    assert SameTable(s, s', d) && (IsDir(d0) ==> SameTable(s, s', d0));
  }

  // ---------------------------------------------------------------- frames taken by copying one entry

  lemma DuplicateLowFrees(s: State, d: int, i: int, f: nat, dirty: bool)
    requires HasTable(s, d) && 0 <= i < |s.dir[d].ptes| && f < LOW
    ensures |FreeFrames(PutShared(s, d, i, f, dirty))| == |FreeFrames(s)|
  {
    SameFree(s, PutShared(s, d, i, f, dirty));
  }

  lemma DuplicateSharedFrees(s: State, d0: int, i: int, d: int)
    requires Inv(s) && IsUser(d0, i) && CanDuplicate(s, d0, i, d)
    ensures |FreeFrames(DuplicateShared(s, d0, i, d))| == |FreeFrames(s)|
  {
    PresentIsCounted(s, d0, i);
    EntryReadable(s, d0, i);
    hide Inv;
    var f := Entry(s, d0, i).frame;
    CountUp(s, DuplicateShared(s, d0, i, d), f);
  }

  /** One count that was not 0 has grown. */
  lemma CountUp(s: State, s': State, f: nat)
    requires s'.cfg == s.cfg && LOW <= f && f - LOW < |s.memMap| && Count(s, f) > 0
    requires s'.memMap == SetCount(s.memMap, f, Count(s, f) + 1)
    ensures |FreeFrames(s')| == |FreeFrames(s)|
  {
    SameFree(s, s');
  }

  lemma DuplicateSwappedFrees(s: State, d0: int, i: int, d: int, f: nat)
    requires IsFree(s, f) && IsFrame(f) && |s.ram| == FRAMES && |s.memMap| == PAGING_PAGES
    requires CanDuplicateSwapped(Claim(s, f), d0, i, d, f)
    ensures |FreeFrames(DuplicateSwapped(Claim(s, f), d0, i, d, f))| == |FreeFrames(s)| - 1
  {
    ClaimTakes(s, f);
    SameFree(Claim(s, f), DuplicateSwapped(Claim(s, f), d0, i, d, f));
  }

  lemma FreeTableGives(s: State, d: int)
    requires CanFreeTable(s, d) && Pool(s, s.dir[d].frame)
    ensures |FreeFrames(Drop(FreeTable(s, d), s.dir[d].frame))| > 0
  {
    DropGives(FreeTable(s, d), s.dir[d].frame);
  }

  lemma NewTableFrees(s: State, d: int, f: nat)
    requires IsFree(s, f) && LOW <= f < |s.ram| && f - LOW < |s.memMap| && 0 <= d < |s.dir|
    ensures |FreeFrames(NewTable(Claim(s, f), d, f))| == |FreeFrames(s)| - 1
  {
    ClaimTakes(s, f);
    SameFree(Claim(s, f), NewTable(Claim(s, f), d, f));
  }
}

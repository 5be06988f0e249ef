/** States that show what the memory manager does not promise: one task with one or two tables, the first of which
    holds at most two pages; and what the manager does from them. */
module PagingSamples {
  import opened Basics
  import opened PagingModel
  import opened PagingSteps
  import opened PagingTables
  import opened PagingTasks
  import opened PagingFaults
  import opened PagingFrames
  import opened PagingSwap
  import opened PagingScan
  import opened Memory

  /** The entries the first table may start with. Frame 258 is a page, slots 1 and 2 are in swap. */
  predicate Fits(e0: Pte, e1: Pte) {
    (e0 == Swapped(1) || e0 == Present(258, true, false)) && (e1 == None || e1 == Swapped(2))
  }

  function FirstTable(e0: Pte, e1: Pte): (t: seq<Pte>)
    ensures |t| == ENTRIES && t[0] == e0 && t[1] == e1 && forall i :: 2 <= i < ENTRIES ==> t[i] == None
  {
    EmptyTable()[0 := e0][1 := e1]
  }

  function KernelTable(): (t: seq<Pte>)
    ensures |t| == ENTRIES && forall i :: 0 <= i < ENTRIES ==> t[i] == Present(0, false, false)
  {
    seq(ENTRIES, _ => Present(0, false, false))
  }

  /** Frames 256 and 257 hold tables, 258 a page, 259 the task struct; the next `more` frames are free. */
  function Directory(e0: Pte, e1: Pte, two: bool): (dir: seq<Pde>)
    ensures |dir| == ENTRIES && dir[0] == Table(0, KernelTable()) && dir[16] == Table(256, FirstTable(e0, e1))
    ensures dir[17] == if two then Table(257, EmptyTable()) else NoTable
    ensures forall d :: 0 < d < ENTRIES && d != 16 && d != 17 ==> dir[d] == NoTable
  {
    seq(ENTRIES, d =>
      if d == 0 then Table(0, KernelTable()) else if d == 16 then Table(256, FirstTable(e0, e1))
      else if d == 17 && two then Table(257, EmptyTable()) else NoTable)
  }

  function Counts(e0: Pte, two: bool, more: nat): (c: seq<nat>)
    ensures |c| == PAGING_PAGES && c[0] == 1 && c[1] == Bit(two) && c[2] == Bit(e0.Present?) && c[3] == 1
    ensures forall f :: 4 <= f < PAGING_PAGES ==> c[f] == if f < 4 + more then 0 else USED
  {
    [1, Bit(two), Bit(e0.Present?), 1] + seq(PAGING_PAGES - 4, f => if f < more then 0 else USED)
  }

  function Sample(e0: Pte, e1: Pte, two: bool, more: nat): State {
    State(
      Directory(e0, e1, two),
      Counts(e0, two, more),
      seq(FRAMES, _ => ZeroPage()),
      seq(SWAP_BITS, n => n > 0 && e0 != Swapped(n) && e1 != Swapped(n)),
      seq(SWAP_BITS, _ => ZeroPage()),
      {259},
      seq(NR_TASKS, t => if t == 1 then Live(0, 0, 2) else Dead),
      seq(NR_TASKS, t => if t == 1 then 259 else 0),
      Config(256, 260 + more, seq(SWAP_BITS, n => n > 0), [File([], 0)]))
  }

  lemma SampleEntries(e0: Pte, e1: Pte, two: bool, more: nat, d: int, i: int)
    requires IsUser(d, i)
    ensures Entry(Sample(e0, e1, two, more), d, i) ==
            if (d, i) == (16, 0) then e0 else if (d, i) == (16, 1) then e1 else None
  {
  }

  lemma SampleFrame(e0: Pte, e1: Pte, two: bool, more: nat, f: int)
    requires Fits(e0, e1) && more <= 100 && IsFrame(f)
    ensures FrameOk(Sample(e0, e1, two, more), f)
  {
    var s := Sample(e0, e1, two, more);
    hide Sample, Directory;
    SampleRefs(e0, e1, two, more, f);
    RefsSize(s, f);
    SampleCount(e0, e1, two, more, f);
  }

  lemma SampleCount(e0: Pte, e1: Pte, two: bool, more: nat, f: int)
    requires IsFrame(f)
    ensures var s := Sample(e0, e1, two, more); s.cfg.lo == 256 && s.cfg.hi == 260 + more && s.held == {259}
    ensures Count(Sample(e0, e1, two, more), f) ==
      if f == 256 || f == 259 then 1 else if f == 257 then Bit(two) else if f == 258 then Bit(e0.Present?)
      else if f < 260 + more then 0 else USED
  {
  }

  lemma SampleRefs(e0: Pte, e1: Pte, two: bool, more: nat, f: int)
    requires Fits(e0, e1) && IsFrame(f)
    ensures PteRefs(Sample(e0, e1, two, more).dir, f) == if f == 258 && e0.Present? then {ByPte(16, 0)} else {}
    ensures DirRefs(Sample(e0, e1, two, more).dir, f) ==
            if f == 256 then {ByDir(16)} else if f == 257 && two then {ByDir(17)} else {}
  {
    var s := Sample(e0, e1, two, more);
    forall d, i | IsUser(d, i) ensures Names(Entry(s, d, i), f) <==> (d, i) == (16, 0) && f == 258 && e0.Present? {
      SampleEntries(e0, e1, two, more, d, i);
    }
  }

  lemma SampleSlot(e0: Pte, e1: Pte, two: bool, more: nat, n: int)
    requires Fits(e0, e1) && IsSlot(n)
    ensures SlotOk(Sample(e0, e1, two, more), n)
  {
    var s := Sample(e0, e1, two, more);
    forall d, i | IsUser(d, i)
      ensures Entry(s, d, i) == Swapped(n) <==>
                ((d, i) == (16, 0) && e0 == Swapped(n)) || ((d, i) == (16, 1) && e1 == Swapped(n))
    {
      SampleEntries(e0, e1, two, more, d, i);
    }
    assert SlotRefs(s.dir, n) ==
           if e0 == Swapped(n) then {Addr(16, 0)} else if e1 == Swapped(n) then {Addr(16, 1)} else {};
  }

  lemma SampleShape(e0: Pte, e1: Pte, two: bool, more: nat)
    requires Fits(e0, e1) && more <= 100
    ensures Shape(Sample(e0, e1, two, more)) && StructsOk(Sample(e0, e1, two, more))
    ensures CanFork(Sample(e0, e1, two, more).tasks, 1, 2)
    ensures forall d :: IsDir(d) ==> DirOk(Sample(e0, e1, two, more), d)
  {
    assert Sample(e0, e1, two, more).structs[1] == 259;
    assert StructFrames(Sample(e0, e1, two, more).structs) == {259};
    SampleCount(e0, e1, two, more, 256);
    SampleCount(e0, e1, two, more, 257);
  }

  lemma SampleInv(e0: Pte, e1: Pte, two: bool, more: nat)
    requires Fits(e0, e1) && more <= 100
    ensures Inv(Sample(e0, e1, two, more)) && StructsOk(Sample(e0, e1, two, more))
    ensures CanFork(Sample(e0, e1, two, more).tasks, 1, 2)
  {
    SampleShape(e0, e1, two, more);
    var s := Sample(e0, e1, two, more);
    forall f | IsFrame(f) ensures FrameOk(s, f) {
      SampleFrame(e0, e1, two, more, f);
    }
    forall n | IsSlot(n) ensures SlotOk(s, n) {
      SampleSlot(e0, e1, two, more, n);
    }
    forall d, i | IsUser(d, i) ensures EntryOk(s, d, i) && CleanAt(s, d, i) {
      SampleEntry(e0, e1, two, more, d, i);
    }
    hide FrameOk, SlotOk, DirOk, EntryOk, CleanAt, Shape, StructsOk, Sample;
  }

  lemma SampleEntry(e0: Pte, e1: Pte, two: bool, more: nat, d: int, i: int)
    requires Fits(e0, e1) && IsUser(d, i)
    ensures EntryOk(Sample(e0, e1, two, more), d, i) && CleanAt(Sample(e0, e1, two, more), d, i)
  {
    SampleEntries(e0, e1, two, more, d, i);
    SampleCount(e0, e1, two, more, 258);
  }

  // ---------------------------------------------------------------- a fork that keeps a page in

  /** Two pages in swap and three free frames: one goes to the task struct, one to the table and one to the first
      page; there is none for the second. Whatever the failed fork leaves, some frame is counted differently. */
  lemma FailedForkKeepsPage(s': State, k: int, j: int)
    requires ForkFailed(Sample(Swapped(1), Swapped(2), false, 1), s', 1, k, j)
    ensures exists f: nat :: Pool(Sample(Swapped(1), Swapped(2), false, 1), f) &&
              Count(s', f) != Count(Sample(Swapped(1), Swapped(2), false, 1), f)
  {
    var s := Sample(Swapped(1), Swapped(2), false, 1);
    hide Sample, Inv, ForkFailed;
    SampleInv(Swapped(1), Swapped(2), false, 1);
    SampleNeeds();
    FailedForkRestores(s, s', 1, k, j);
  }

  /** That fork does fail. */
  lemma SampleNeeds()
    ensures var s := Sample(Swapped(1), Swapped(2), false, 1);
      |FreeFrames(s)| == 3 && Need(s.dir, 1, ChildOf(s.tasks, 1).dirs) == 4 &&
      FirstSwapped(s.dir, 1, 0, 0) && Need(s.dir, 1, 0) == 1
  {
    var s := Sample(Swapped(1), Swapped(2), false, 1);
    ThreeFree();
    SampleUses(s.dir);
    hide FreeFrames;
    assert ChildOf(s.tasks, 1).dirs == 2;
  }

  lemma ThreeFree()
    ensures |FreeFrames(Sample(Swapped(1), Swapped(2), false, 1))| == 3
  {
    var s := Sample(Swapped(1), Swapped(2), false, 1);
    forall f ensures IsFree(s, f) <==> f in {257, 258, 260} {
      SampleCount(Swapped(1), Swapped(2), false, 1, if IsFrame(f) then f else LOW);
    }
    hide Sample;
    assert FreeFrames(s) == {257, 258, 260};
  }

  /** One frame for the table and two for its pages in swap. */
  lemma SampleUses(dir: seq<Pde>)
    requires dir == Directory(Swapped(1), Swapped(2), false)
    ensures Used(dir, 1, 2) == 3
  {
    assert At(dir, 16, 0) == Swapped(1) && At(dir, 16, 1) == Swapped(2);
    assert forall i :: 2 <= i < ENTRIES ==> !At(dir, 16, i).Swapped?;
    assert Tabled(dir, 16) && !Tabled(dir, 17) && Twin(0, 1) == 16 && Twin(1, 1) == 17;
    hide At, Tabled;
    assert SwapsIn(dir, 16, 0) == 0;
    assert SwapsIn(dir, 16, 1) == SwapsIn(dir, 16, 0) + Bit(At(dir, 16, 0).Swapped?);
    assert SwapsIn(dir, 16, 2) == SwapsIn(dir, 16, 1) + Bit(At(dir, 16, 1).Swapped?);
    SwapsRest(dir, 16, 2, ENTRIES);
    SwapsTabled(dir, 17, ENTRIES);
    assert Used(dir, 1, 1) == 3;
  }

  lemma {:induction false} SwapsRest(dir: seq<Pde>, d: int, a: nat, b: nat)
    requires a <= b && forall i :: a <= i < b ==> !At(dir, d, i).Swapped?
    ensures SwapsIn(dir, d, b) == SwapsIn(dir, d, a)
  {
    if a < b { SwapsRest(dir, d, a, b - 1); }
  }

  // ---------------------------------------------------------------- a page swap_out misses

  /** Two tables, and the only page lies under the mark: it could go, and swap_out from there reaches nothing. */
  lemma PageIsMissed()
    ensures var s := Sample(Present(258, true, false), None, true, 0);
      Inv(s) && NoneFree(s) && CanGo(s, 16, 0) && forall d, i :: !InReach(s, 16, 0, d, i)
  {
    var e := Present(258, true, false);
    var s := Sample(e, None, true, 0);
    SampleInv(e, None, true, 0);
    hide Inv;
    assert NoneFree(s) by {
      forall f ensures !IsFree(s, f) {
        if IsFrame(f) { SampleCount(e, None, true, 0, f); }
      }
    }
    forall d, i | IsUser(d, i) && CanGo(s, d, i) ensures (d, i) == (16, 0) {
      SampleEntries(e, None, true, 0, d, i);
    }
    SampleEntries(e, None, true, 0, 16, 0);
    assert TablesIn(s.dir, TASK_DIRS, 18) == 2 by { assert TablesIn(s.dir, TASK_DIRS, 17) == 1; }
    TablesRest(s.dir, TASK_DIRS, 18, ENTRIES);
    PassedIsMissed(s, 16, 0, 16, 0);
  }

  lemma {:induction false} TablesRest(dir: seq<Pde>, a: int, m: int, b: int)
    requires a <= m <= b && forall d :: m <= d < b ==> !Tabled(dir, d)
    ensures TablesIn(dir, a, b) == TablesIn(dir, a, m)
    decreases b - m
  {
    if m < b { TablesRest(dir, a, m, b - 1); }
  }

  // ---------------------------------------------------------------- a page write_verify loses

  lemma FourFree(e0: Pte, e1: Pte, two: bool, more: nat)
    requires 4 <= more <= 100
    ensures |FreeFrames(Sample(e0, e1, two, more))| >= 4
  {
    var s := Sample(e0, e1, two, more);
    var x := {260, 261, 262, 263};
    forall f | f in x ensures f in FreeFrames(s) {
      SampleCount(e0, e1, two, more, f);
    }
    SubsetSize(x, FreeFrames(s));
  }

  /** A task with a writable page and room to fork and copy. */
  lemma RoomToFork()
    ensures var s := Sample(Present(258, true, false), None, false, 9);
      Inv(s) && StructsOk(s) && CanFork(s.tasks, 1, 2) && s.structs[2] == 0 &&
      Entry(s, 16, 0) == Present(258, true, false) && Backing(s, 16, 0) == ZeroPage() &&
      |FreeFrames(s)| > Need(s.dir, 1, s.tasks[1].dirs)
  {
    var e := Present(258, true, false);
    var s := Sample(e, None, false, 9);
    SampleInv(e, None, false, 9);
    hide Inv, StructsOk;
    assert |FreeFrames(s)| >= 4 by { FourFree(e, None, false, 9); }
    var dir := s.dir;
    SwapsRest(dir, 16, 0, ENTRIES);
    SwapsTabled(dir, 17, ENTRIES);
    assert Used(dir, 1, 2) == Used(dir, 1, 1) && Used(dir, 1, 1) == 1;
  }

  // ---------------------------------------------------------------- what the manager does there

  /** The fork fails, and some frame is counted differently afterwards. */
  method ForkThatKeepsPage(m: Manager) returns (ok: bool)
    requires m.Abs() == Sample(Swapped(1), Swapped(2), false, 1)
    modifies m
    ensures !ok && exists f: nat :: Pool(old(m.Abs()), f) && Count(m.Abs(), f) != Count(old(m.Abs()), f)
  {
    SampleInv(Swapped(1), Swapped(2), false, 1);
    SampleNeeds();
    SampleStructs(Swapped(1), Swapped(2), false, 1);
    hide Sample, Inv, ForkFailed, Need, FreeFrames, Forked;
    var page;
    ghost var k, j;
    ok, page, k, j := m.Fork(1, 2);
    FailedForkKeepsPage(m.Abs(), k, j);
  }

  lemma SampleStructs(e0: Pte, e1: Pte, two: bool, more: nat)
    ensures |Sample(e0, e1, two, more).structs| == NR_TASKS && Sample(e0, e1, two, more).structs[2] == 0
    ensures Sample(e0, e1, two, more).tasks[1] == Live(0, 0, 2)
  {
  }

  /** swap_out gives up although a page could go. */
  method SwapOutThatMisses(m: Manager) returns (out: bool)
    requires m.Abs() == Sample(Present(258, true, false), None, true, 0) && m.dirEntry == 16 && m.pageEntry == 0
    modifies m
    ensures !out && CanGo(m.Abs(), 16, 0)
  {
    PageIsMissed();
    hide Sample, Inv, InReach, CanGo, WentOut, Distance;
    out := m.SwapOut();
  }

  /** Task 1 stores a 1, forks task 2, the kernel verifies task 2's page for writing and the page is swapped out: task 1
      still sees its 1, task 2 does not. */
  method StoreThatIsLost(m: Manager)
    requires m.Abs() == Sample(Present(258, true, false), None, false, 9)
    modifies m
    ensures View(m.Abs(), 16, 0)[0] == 1 && View(m.Abs(), 32, 0)[0] != 1
    ensures |m.tasks| == NR_TASKS && m.tasks[2] == m.tasks[1] == Live(0, 0, 2)
  {
    RoomToFork();
    SampleStructs(Present(258, true, false), None, false, 9);
    hide Sample, Inv, StructsOk, View, Need, FreeFrames, Backing;
    m.LoseStore(1, 2, 16, 0, 0, 1, false);
  }
}

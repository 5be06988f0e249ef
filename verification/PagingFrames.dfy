/** How many frames are free, and how many a fork takes: one for the task struct, one for each of the parent's
    tables and one for each of its pages in swap, in that order. */
module PagingFrames {
  import opened Basics
  import opened PagingModel
  import opened PagingSteps
  import opened PagingTables
  import opened PagingOps
  import opened PagingFaults

  ghost function FreeFrames(s: State): (r: set<int>)
    ensures forall f :: f in r <==> IsFree(s, f)
  {
    set f | s.cfg.lo <= f < s.cfg.hi && Count(s, f) == 0
  }

  lemma NoneFreeIs(s: State)
    ensures NoneFree(s) <==> |FreeFrames(s)| == 0
  {
    if |FreeFrames(s)| != 0 {
      var f :| f in FreeFrames(s);
      assert IsFree(s, f);
    } else {
      forall f ensures !IsFree(s, f) {
        assert f !in FreeFrames(s);
      }
    }
  }

  lemma ClaimTakes(s: State, f: nat)
    requires IsFree(s, f) && LOW <= f < |s.ram| && f - LOW < |s.memMap|
    ensures |FreeFrames(Claim(s, f))| == |FreeFrames(s)| - 1
  {
    assert FreeFrames(Claim(s, f)) == FreeFrames(s) - {f};
  }

  lemma DropGives(s: State, f: nat)
    requires Pool(s, f) && Count(s, f) > 0 && LOW <= f && f - LOW < |s.memMap|
    ensures |FreeFrames(Drop(s, f))| == |FreeFrames(s)| + 1 && f in FreeFrames(Drop(s, f))
    ensures FreeFrames(s) <= FreeFrames(Drop(s, f))
  {
    assert FreeFrames(Drop(s, f)) == FreeFrames(s) + {f};
  }

  /** No count has become 0 or ceased to be. */
  lemma SameFree(s: State, s': State)
    requires s'.cfg == s.cfg && forall f :: Pool(s, f) ==> (Count(s', f) == 0 <==> Count(s, f) == 0)
    ensures FreeFrames(s') == FreeFrames(s)
  {
    forall f ensures IsFree(s', f) <==> IsFree(s, f) {
      assert Pool(s, f) <==> Pool(s', f);
    }
  }

  // ---------------------------------------------------------------- what a load or a store takes

  /** Task p runs the file that page (d, i) comes from and has the page to lend. */
  predicate Lender(s: State, d: int, i: int, p: int) {
    IsUser(d, i) && 1 <= p < NR_TASKS && p != d / TASK_DIRS && d / TASK_DIRS < |s.tasks| &&
    SameFile(s.tasks, d, i, p, SourceInode(s.cfg.files, s.tasks[d / TASK_DIRS], Offset(d, i))) && Lends(s, d, i, p)
  }

  /** A fault on page (d, i) ends in share_page finding the page with another task. */
  ghost predicate Borrows(s: State, d: int, i: int, inUse: bool) {
    inUse && Entry(s, d, i) == None && IsUser(d, i) && d / TASK_DIRS < |s.tasks| &&
    SourceInode(s.cfg.files, s.tasks[d / TASK_DIRS], Offset(d, i)) != 0 && exists p :: Lender(s, d, i, p)
  }

  /** The frames a load from page (d, i) takes: for a missing table, and for a missing page nobody lends. */
  ghost function LoadNeed(s: State, d: int, i: int, inUse: bool): nat {
    if Entry(s, d, i).Present? then 0 else Bit(!HasTable(s, d)) + Bit(!Borrows(s, d, i, inUse))
  }

  /** A store takes a frame for a missing table, and one for a page the task does not have for itself. */
  function StoreNeed(s: State, d: int, i: int): nat {
    if Entry(s, d, i).Present? then Bit(!Sole(s, d, i)) else Bit(!HasTable(s, d)) + 1
  }

  lemma BorrowsSame(s: State, s': State, d: int, i: int, inUse: bool)
    requires SameEntries(s, s') && s'.tasks == s.tasks && s'.cfg == s.cfg && IsUser(d, i) && |s.tasks| == NR_TASKS
    ensures Borrows(s', d, i, inUse) <==> Borrows(s, d, i, inUse)
  {
    forall p ensures Lender(s', d, i, p) <==> Lender(s, d, i, p) {
      if 1 <= p < NR_TASKS { assert IsUser(Twin(d, p), i); }
    }
  }

  lemma PageInTakes(s: State, d: int, i: int, f: nat, p: Page, dirty: bool)
    requires IsFree(s, f) && LOW <= f < |s.ram| && f - LOW < |s.memMap| && CanInstall(Claim(s, f), d, i, f)
    ensures |FreeFrames(PageIn(Claim(s, f), d, i, f, p, dirty))| == |FreeFrames(s)| - 1
    ensures Entry(PageIn(Claim(s, f), d, i, f, p, dirty), d, i) == Present(f, true, dirty)
  {
    ClaimTakes(s, f);
    SameFree(Claim(s, f), PageIn(Claim(s, f), d, i, f, p, dirty));
  }

  lemma ShareTakesNone(s: State, d0: int, i: int, d: int)
    requires CanShare(s, d0, i, d) && Count(s, Entry(s, d0, i).frame) > 0
    ensures FreeFrames(ShareIn(s, d0, i, d)) == FreeFrames(s)
    ensures Entry(ShareIn(s, d0, i, d), d, i).Present? && !Sole(ShareIn(s, d0, i, d), d, i)
  {
    SameFree(s, ShareIn(s, d0, i, d));
  }

  lemma CopyTakes(s: State, d: int, i: int, f: nat)
    requires IsFree(s, f) && LOW <= f < |s.ram| && f - LOW < |s.memMap| && CanCopy(Claim(s, f), d, i, f)
    requires LOW <= Entry(s, d, i).frame ==> Count(s, Entry(s, d, i).frame) > 1
    ensures |FreeFrames(CopyPage(Claim(s, f), d, i, f))| == |FreeFrames(s)| - 1
  {
    ClaimTakes(s, f);
    SameFree(Claim(s, f), CopyPage(Claim(s, f), d, i, f));
  }

  // ---------------------------------------------------------------- what a fork takes

  /** How many entries of a table the fork of task p looks at. */
  function Width(p: int): nat {
    if p == 0 then 160 else ENTRIES
  }

  /** Pages in swap among the first j entries of table d. */
  function SwapsIn(dir: seq<Pde>, d: int, j: nat): nat {
    if j == 0 then 0 else SwapsIn(dir, d, j - 1) + Bit(At(dir, d, j - 1).Swapped?)
  }

  predicate Tabled(dir: seq<Pde>, d: int) {
    0 <= d < |dir| && dir[d].Table?
  }

  /** Frames taken for the first k tables of task p and their pages in swap. */
  function Used(dir: seq<Pde>, p: int, k: nat): nat {
    if k == 0 then 0
    else Used(dir, p, k - 1) + Bit(Tabled(dir, Twin(k - 1, p))) + SwapsIn(dir, Twin(k - 1, p), Width(p))
  }

  /** Frames taken when the copy comes to entry j of table k. */
  function UsedAt(dir: seq<Pde>, p: int, k: nat, j: nat): nat {
    Used(dir, p, k) + 1 + SwapsIn(dir, Twin(k, p), j)
  }

  /** What a fork of task p takes in all; n is the number of tables its segment spans. */
  function Need(dir: seq<Pde>, p: int, n: nat): nat {
    1 + Used(dir, p, n)
  }

  /** Whether entry i of the x-th table comes before entry j of the k-th. */
  predicate Before(x: int, i: int, k: int, j: int) {
    x < k || (x == k && i < j)
  }

  lemma {:induction false} SwapsGrow(dir: seq<Pde>, d: int, i: nat, j: nat)
    requires i <= j
    ensures SwapsIn(dir, d, i) <= SwapsIn(dir, d, j)
    ensures i < j && At(dir, d, i).Swapped? ==> SwapsIn(dir, d, i) < SwapsIn(dir, d, j)
  {
    if i < j { SwapsGrow(dir, d, i, j - 1); }
  }

  lemma {:induction false} UsedGrows(dir: seq<Pde>, p: int, x: nat, k: nat)
    requires x <= k
    ensures Used(dir, p, x) <= Used(dir, p, k)
    ensures x < k ==>
              Used(dir, p, x) + Bit(Tabled(dir, Twin(x, p))) + SwapsIn(dir, Twin(x, p), Width(p)) <= Used(dir, p, k)
  {
    if x < k { UsedGrows(dir, p, x, k - 1); }
  }

  /** The copy takes frames in the order of the entries. */
  lemma UsedInOrder(dir: seq<Pde>, p: int, x: nat, i: nat, k: nat, j: nat)
    requires i < Width(p) && j <= Width(p) && At(dir, Twin(x, p), i).Swapped?
    ensures Before(x, i, k, j) ==> UsedAt(dir, p, x, i) < UsedAt(dir, p, k, j)
    ensures x < k ==> UsedAt(dir, p, x, i) < Used(dir, p, k)
    ensures !Before(x, i, k, j) ==> UsedAt(dir, p, k, j) <= UsedAt(dir, p, x, i)
    ensures k <= x ==> Used(dir, p, k) + 1 <= UsedAt(dir, p, x, i)
  {
    if x < k {
      UsedGrows(dir, p, x, k);
      SwapsGrow(dir, Twin(x, p), i, Width(p));
    } else if x == k {
      SwapsGrow(dir, Twin(k, p), if i < j then i else j, if i < j then j else i);
    } else {
      UsedGrows(dir, p, k, x);
      SwapsTabled(dir, Twin(k, p), j);
      SwapsGrow(dir, Twin(k, p), j, Width(p));
    }
  }

  /** Where there is no table there is nothing in swap. */
  lemma {:induction false} SwapsTabled(dir: seq<Pde>, d: int, j: nat)
    ensures !Tabled(dir, d) ==> SwapsIn(dir, d, j) == 0
  {
    if j > 0 { SwapsTabled(dir, d, j - 1); }
  }

  /** With n frames the copy of tables ends at (k, j): for want of a table, or of a page for an entry in swap. */
  ghost predicate RunsOut(dir: seq<Pde>, p: int, k: int, j: int, n: nat) {
    0 <= k < TASK_DIRS && Tabled(dir, Twin(k, p)) &&
    ((j == 0 && n == Used(dir, p, k)) ||
     (0 <= j < Width(p) && At(dir, Twin(k, p), j).Swapped? && n == UsedAt(dir, p, k, j)))
  }

  /** Then it needed more, and an entry in swap was dealt with exactly if there was a frame for it. */
  lemma RunsOutMeans(dir: seq<Pde>, p: int, k: int, j: int, n: nat, dirs: nat)
    requires RunsOut(dir, p, k, j, n) && k < dirs
    ensures n < Used(dir, p, dirs)
    ensures forall x: nat, i: nat :: i < Width(p) && At(dir, Twin(x, p), i).Swapped? ==>
              (Before(x, i, k, j) <==> n > UsedAt(dir, p, x, i))
  {
    UsedGrows(dir, p, k, dirs);
    if j < Width(p) { SwapsGrow(dir, Twin(k, p), j, Width(p)); }
    forall x: nat, i: nat | i < Width(p) && At(dir, Twin(x, p), i).Swapped?
      ensures Before(x, i, k, j) <==> n > UsedAt(dir, p, x, i)
    {
      UsedInOrder(dir, p, x, i, k, j);
    }
  }

  // ---------------------------------------------------------------- the first page in swap

  /** (k, j) is the first entry of task p that is in swap: none of the frames so far went to a page. */
  ghost predicate FirstSwapped(dir: seq<Pde>, p: int, k: nat, j: nat) {
    k < TASK_DIRS && j < Width(p) && At(dir, Twin(k, p), j).Swapped? &&
    forall x: nat, i: nat :: i < Width(p) && Before(x, i, k, j) ==> !At(dir, Twin(x, p), i).Swapped?
  }

  lemma {:induction false} HasFirst(dir: seq<Pde>, p: int, k: nat, j: nat) returns (x: nat, i: nat)
    requires k < TASK_DIRS && j < Width(p) && At(dir, Twin(k, p), j).Swapped?
    ensures FirstSwapped(dir, p, x, i) && ((x, i) == (k, j) || Before(x, i, k, j))
    decreases k, j
  {
    if y: nat, l: nat :| l < Width(p) && Before(y, l, k, j) && At(dir, Twin(y, p), l).Swapped? {
      x, i := HasFirst(dir, p, y, l);
    } else {
      x, i := k, j;
    }
  }
}

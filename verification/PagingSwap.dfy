/** Swapping a page out: no task notices, and one page fewer is present, which is why
    get_free_page stops trying. */
module PagingSwap {
  import opened PagingModel
  import opened PagingSteps
  import opened PagingOps
  import opened PagingFaults

  ghost function PresentPages(dir: seq<Pde>): set<Addr> {
    set d, i | TASK_DIRS <= d < ENTRIES && 0 <= i < ENTRIES && At(dir, d, i).Present? :: Addr(d, i)
  }

  /** One page has left memory; nobody can tell. */
  ghost predicate PagedOut(s: State, s': State) {
    Unseen(s, s') && PresentPages(s'.dir) < PresentPages(s.dir)
  }

  /** What try_to_swap_out requires of an entry: a page in counted memory that is clean, or dirty with one user
      while there is a slot for it. */
  ghost predicate CanGo(s: State, d: int, i: int) {
    var e := Entry(s, d, i);
    e.Present? && e.frame >= LOW && (e.dirty ==> Count(s, e.frame) == 1 && exists n :: IsSlot(n) && Freed(s, n))
  }

  lemma RemovedIsFewer(s: State, s': State, d: int, i: int, e: Pte)
    requires IsUser(d, i) && HasTable(s, d) && i < |s.dir[d].ptes| && Entry(s, d, i).Present? && !e.Present?
    requires s'.dir == SetPte(s.dir, d, i, e)
    ensures PresentPages(s'.dir) < PresentPages(s.dir)
  {
    SetPteAt(s.dir, d, i, e);
    assert Addr(d, i) in PresentPages(s.dir) && Addr(d, i) !in PresentPages(s'.dir);
  }

  predicate CanPageOut(s: State, d: int, i: int, n: nat) {
    HasTable(s, d) && 0 <= i < |s.dir[d].ptes| && n < |s.bitmap| && n < |s.swap| && Entry(s, d, i).Present? &&
    Entry(s, d, i).frame < |s.ram| && Pool(s, Entry(s, d, i).frame) && LOW <= Entry(s, d, i).frame &&
    Entry(s, d, i).frame - LOW < |s.memMap| && Count(s, Entry(s, d, i).frame) > 0
  }

  /** What try_to_swap_out did: a dirty page went to the lowest free slot, a clean one was dropped. */
  ghost predicate WentOut(s: State, s': State, d: int, i: int) {
    Core(s') && CanPageOut(s, d, i, 0) &&
    if Entry(s, d, i).dirty
    then Entry(s', d, i).Swapped? && LowestSlot(s, Entry(s', d, i).slot) && CanPageOut(s, d, i, Entry(s', d, i).slot) &&
         s' == PageOut(s, d, i, Entry(s', d, i).slot)
    else s' == Unmap(s, d, i)
  }

  ghost predicate LowestSlot(s: State, n: int) {
    IsSlot(n) && Freed(s, n) && forall m :: 1 <= m < n ==> !Freed(s, m)
  }

  /** A page in counted memory can be taken out. */
  lemma OutReadable(s: State, d: int, i: int, n: nat)
    requires Core(s) && IsUser(d, i) && Entry(s, d, i).Present? && IsFrame(Entry(s, d, i).frame) && n < SWAP_BITS
    ensures CanPageOut(s, d, i, n) && |s.dir[d].ptes| == ENTRIES && |s.memMap| == PAGING_PAGES && s.cfg.hi <= FRAMES
  {
    PresentIsCounted(s, d, i);
    EntryReadable(s, d, i);
  }

  lemma PageOutUnseen(s: State, d: int, i: int, n: nat)
    requires Core(s) && IsUser(d, i) && Entry(s, d, i).Present? && IsFrame(Entry(s, d, i).frame) && Entry(s, d, i).dirty
    requires LowestSlot(s, n)
    ensures CanPageOut(s, d, i, n) && WentOut(s, PageOut(s, d, i, n), d, i)
    ensures Inv(s) ==> PagedOut(s, PageOut(s, d, i, n))
  {
    hide Core, Clean, SameViews, View, PresentPages, PageOut, SameWorld;
    SlotIsUsable(s, n);
    OutReadable(s, d, i, n);
    PageOutKeeps(s, d, i, n);
    PageOutDir(s, d, i, n);
    RemovedIsFewer(s, PageOut(s, d, i, n), d, i, Swapped(n));
    SetPteAt(s.dir, d, i, Swapped(n));
  }

  lemma PageOutDir(s: State, d: int, i: int, n: nat)
    requires CanPageOut(s, d, i, n) && IsDir(d)
    ensures PageOut(s, d, i, n).dir == SetPte(s.dir, d, i, Swapped(n)) && SameWorld(s, PageOut(s, d, i, n))
  {
    SetPteTwice(s.dir, d, i, None, Swapped(n));
  }

  lemma SlotIsUsable(s: State, n: nat)
    requires Core(s) && IsSlot(n) && Freed(s, n)
    ensures Usable(s, n)
  {
  }

  /** A page whose dirty bit is clear can be dropped, as long as clean pages keep their promise. */
  lemma DiscardUnseen(s: State, d: int, i: int)
    requires Core(s) && IsUser(d, i) && Entry(s, d, i).Present? && IsFrame(Entry(s, d, i).frame)
    requires !Entry(s, d, i).dirty
    ensures CanPageOut(s, d, i, 0) && WentOut(s, Unmap(s, d, i), d, i)
    ensures Inv(s) ==> PagedOut(s, Unmap(s, d, i))
  {
    hide Core, Clean, SameViews, View, PresentPages, Unmap, SameWorld, Backing, SameElsewhere;
    OutReadable(s, d, i, 0);
    UnmapSeen(s, d, i);
    CleanIsBacking(s, d, i);
    DiscardIsSafe(s, d, i);
    UnmapDir(s, d, i);
    RemovedIsFewer(s, Unmap(s, d, i), d, i, None);
  }

  lemma UnmapDir(s: State, d: int, i: int)
    requires CanPageOut(s, d, i, 0) && IsDir(d)
    ensures Unmap(s, d, i).dir == SetPte(s.dir, d, i, None) && SameWorld(s, Unmap(s, d, i))
  {
  }

  lemma CleanIsBacking(s: State, d: int, i: int)
    requires IsUser(d, i) && Entry(s, d, i).Present? && LOW <= Entry(s, d, i).frame < |s.ram| && !Entry(s, d, i).dirty
    ensures Clean(s) ==> View(s, d, i) == Backing(s, d, i)
  {
    assert Clean(s) ==> CleanAt(s, d, i);
  }

  /** The page was present and is not now. */
  predicate Left(s: State, s': State, d: int, i: int) {
    IsUser(d, i) && Entry(s, d, i).Present? && !Entry(s', d, i).Present?
  }

  /** Pages have only gone. */
  ghost predicate OnlyOut(s: State, s': State) {
    forall d, i :: IsUser(d, i) && Entry(s', d, i).Present? ==> Entry(s, d, i).Present?
  }

  lemma StillOut(s: State, s1: State, s2: State, d: int, i: int)
    requires OnlyOut(s, s1) && WentOut(s1, s2, d, i) && IsUser(d, i)
    ensures OnlyOut(s, s2) && Left(s, s2, d, i)
  {
    hide Core;
    var e := if Entry(s1, d, i).dirty then Swapped(Entry(s2, d, i).slot) else None;
    if Entry(s1, d, i).dirty { PageOutDir(s1, d, i, Entry(s2, d, i).slot); } else { UnmapDir(s1, d, i); }
    SetPteAt(s1.dir, d, i, e);
  }

  lemma LeftDir(s: State, s1: State, s2: State, d: int, i: int)
    requires s2.dir == s1.dir
    ensures Left(s, s1, d, i) ==> Left(s, s2, d, i)
  {
  }

  lemma CoreShape(s: State)
    requires Core(s)
    ensures Shape(s)
  {
  }

  lemma ClaimSeen(s: State, s1: State, f: nat)
    requires Unseen(s, s1) && IsFree(s1, f)
    ensures IsFrame(f) && |s1.ram| == FRAMES && |s1.memMap| == PAGING_PAGES
    ensures Inv(Claim(s1, f)) && SameViews(s, Claim(s1, f))
  {
    ClaimKeeps(s1, f);
  }
}

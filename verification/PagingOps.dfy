/** What the operations of the memory manager do to the state as a whole, put together from the
    elementary steps. */
module PagingOps {
  import opened PagingModel
  import opened PagingSteps

  /** Every page but (d, i) looks the same, and is still clean if it was. */
  ghost predicate SameElsewhere(s: State, s': State, d: int, i: int) {
    forall d2, i2 :: IsUser(d2, i2) ==> (d2, i2) != (d, i) ==> SameView(s, s', d2, i2)
  }

  ghost predicate CleanElsewhere(s: State, d: int, i: int) {
    forall d2, i2 :: IsUser(d2, i2) ==> (d2, i2) != (d, i) ==> CleanAt(s, d2, i2)
  }

  /** The entry a fault is about can be read. */
  lemma EntryReadable(s: State, d: int, i: int)
    requires Core(s) && IsUser(d, i)
    ensures ConfigOk(s.cfg) && |s.dir| == ENTRIES && |s.memMap| == PAGING_PAGES && |s.ram| == FRAMES
    ensures HasTable(s, d) ==> |s.dir[d].ptes| == ENTRIES && Entry(s, d, i) == s.dir[d].ptes[i]
    ensures Entry(s, d, i).Present? ==> HasTable(s, d) && Entry(s, d, i).frame < FRAMES
    ensures Entry(s, d, i).Present? && LOW <= Entry(s, d, i).frame ==> Pool(s, Entry(s, d, i).frame)
    ensures Entry(s, d, i).Present? && LOW <= Entry(s, d, i).frame ==>
      Count(s, Entry(s, d, i).frame) == s.memMap[Entry(s, d, i).frame - LOW]
  {
    assert IsDir(d) && DirOk(s, d) && EntryOk(s, d, i);
  }

  // ---------------------------------------------------------------- filling a page in

  /** The page a frame receives while it is still in the kernel's hands. */
  function Fill(s: State, f: nat, p: Page): State
    requires f < |s.ram|
  {
    s.(ram := s.ram[f := p])
  }

  lemma FillKeeps(s: State, f: nat, p: Page)
    requires Core(s) && f in s.held
    ensures f < |s.ram| && Core(Fill(s, f, p)) && SameViews(s, Fill(s, f, p)) && (Clean(s) ==> Clean(Fill(s, f, p)))
  {
    HeldIsUnmapped(s, f);
    RamKeepsCore(s, s.ram[f := p], s.swap);
    RamChangeUnseen(s, Fill(s, f, p), f);
  }

  /** Mapping a frame that already holds what the page should show. */
  lemma InstallSeen(s: State, d: int, i: int, f: nat, dirty: bool)
    requires Core(s) && IsUser(d, i) && HasTable(s, d) && f in s.held && !Entry(s, d, i).Present?
    requires f < |s.ram| && s.ram[f] == View(s, d, i)
    requires dirty || Entry(s, d, i) == None
    ensures |s.dir[d].ptes| == ENTRIES && Core(Install(s, d, i, f, dirty))
    ensures Entry(Install(s, d, i, f, dirty), d, i) == Present(f, true, dirty)
    ensures SameViews(s, Install(s, d, i, f, dirty))
    ensures Clean(s) ==> Clean(Install(s, d, i, f, dirty))
  {
    InstallKeeps(s, d, i, f, dirty);
    var s' := Install(s, d, i, f, dirty);
    PteChangeUnseen(s, s', d, i, Present(f, true, dirty));
    assert Backing(s', d, i) == Backing(s, d, i);
    forall d2, i2 | IsUser(d2, i2) ensures SameView(s, s', d2, i2) {
    }
  }

  // ---------------------------------------------------------------- copy on write

  lemma SetPteTwice(dir: seq<Pde>, d: int, i: int, e1: Pte, e2: Pte)
    requires 0 <= d < |dir| && dir[d].Table? && 0 <= i < |dir[d].ptes|
    ensures SetPte(SetPte(dir, d, i, e1), d, i, e2) == SetPte(dir, d, i, e2)
  {
    assert dir[d].ptes[i := e1][i := e2] == dir[d].ptes[i := e2];
  }

  lemma UnmapSeen(s: State, d: int, i: int)
    requires Core(s) && IsUser(d, i) && HasTable(s, d)
    ensures |s.dir[d].ptes| == ENTRIES && Core(Unmap(s, d, i)) && HasTable(Unmap(s, d, i), d)
    ensures Entry(Unmap(s, d, i), d, i) == None
    ensures View(Unmap(s, d, i), d, i) == Backing(s, d, i)
    ensures SameElsewhere(s, Unmap(s, d, i), d, i)
    ensures Clean(s) ==> Clean(Unmap(s, d, i))
  {
    UnmapKeeps(s, d, i);
    PteChangeUnseen(s, Unmap(s, d, i), d, i, None);
    assert Backing(Unmap(s, d, i), d, i) == Backing(s, d, i);
  }

  /** The end of un_wp_page: entry (d, i) moves from its shared frame to the private copy f. */
  function Split(s: State, d: int, i: int, f: nat): State
    requires HasTable(s, d) && 0 <= i < |s.dir[d].ptes|
  {
    Install(Unmap(s, d, i), d, i, f, false)
  }

  lemma SplitKeeps(s: State, d: int, i: int, f: nat)
    requires Core(s) && IsUser(d, i) && Entry(s, d, i).Present?
    requires f in s.held && f < |s.ram| && s.ram[f] == View(s, d, i)
    ensures HasTable(s, d) && |s.dir[d].ptes| == ENTRIES
    ensures Core(Split(s, d, i, f)) && SameViews(s, Split(s, d, i, f))
    ensures Entry(Split(s, d, i, f), d, i) == Present(f, true, false)
    ensures CleanElsewhere(s, d, i) ==> CleanElsewhere(Split(s, d, i, f), d, i)
  {
    var s1 := Unmap(s, d, i);
    UnmapSeen(s, d, i);
    InstallKeeps(s1, d, i, f, false);
    var s' := Install(s1, d, i, f, false);
    PteChangeUnseen(s1, s', d, i, Present(f, true, false));
    forall d2, i2 | IsUser(d2, i2) && (d2, i2) != (d, i) ensures SameView(s, s', d2, i2) {
      assert SameView(s, s1, d2, i2) && SameView(s1, s', d2, i2);
    }
  }

  /** Nothing but tables, counts and the contents of memory differs. */
  ghost predicate SameWorld(s: State, s': State) {
    s'.held == s.held && s'.tasks == s.tasks && s'.structs == s.structs && s'.cfg == s.cfg && KernelSame(s, s')
  }

  /** What un_wp_page achieves for the entry (d, i). */
  ghost predicate Unprotected(s: State, s': State, d: int, i: int) {
    Core(s') && SameViews(s, s') && CleanElsewhere(s', d, i) && SameWorld(s, s') &&
    Entry(s', d, i).Present? && Entry(s', d, i).rw
  }

  /** The entry names a counted frame that nobody else names. */
  predicate Sole(s: State, d: int, i: int) {
    Entry(s, d, i).Present? && LOW <= Entry(s, d, i).frame && Count(s, Entry(s, d, i).frame) == 1
  }

  lemma WritableIsSole(s: State, d: int, i: int)
    requires Core(s) && IsUser(d, i) && Entry(s, d, i).Present?
    ensures Entry(s, d, i).rw ==> Sole(s, d, i)
  {
    assert EntryOk(s, d, i);
  }

  lemma SharedIsCounted(s: State, d: int, i: int)
    requires Core(s) && IsUser(d, i) && Entry(s, d, i).Present? && !Sole(s, d, i)
    ensures LOW <= Entry(s, d, i).frame ==> Count(s, Entry(s, d, i).frame) > 1
  {
    EntryReadable(s, d, i);
    PresentIsCounted(s, d, i);
  }

  predicate CanCopy(s: State, d: int, i: int, f: nat) {
    HasTable(s, d) && 0 <= i < |s.dir[d].ptes| && Entry(s, d, i).Present? &&
    Entry(s, d, i).frame < |s.ram| && f < |s.ram| &&
    (LOW <= Entry(s, d, i).frame ==> Entry(s, d, i).frame - LOW < |s.memMap| && Count(s, Entry(s, d, i).frame) > 0)
  }

  /** un_wp_page when the frame is shared or below LOW_MEM: the entry gets frame f, holding a copy, and the clean
      bits 7. */
  function CopyPage(s: State, d: int, i: int, f: nat): State
    requires CanCopy(s, d, i, f)
  {
    var old_page := Entry(s, d, i).frame;
    s.(dir := SetPte(s.dir, d, i, Present(f, true, false)),
       memMap := if LOW <= old_page
                 then SetCount(s.memMap, old_page, Count(s, old_page) - 1) else s.memMap,
       ram := s.ram[f := s.ram[old_page]],
       held := s.held - {f})
  }

  lemma CopyPageIsSplit(s: State, d: int, i: int, f: nat)
    requires CanCopy(s, d, i, f) && ConfigOk(s.cfg)
    requires Entry(s, d, i).frame < LOW || Pool(s, Entry(s, d, i).frame)
    ensures CopyPage(s, d, i, f) == Split(Fill(s, f, s.ram[Entry(s, d, i).frame]), d, i, f)
  {
    SetPteTwice(s.dir, d, i, None, Present(f, true, false));
  }

  lemma CopyPageKeeps(s: State, d: int, i: int, f: nat)
    requires Core(s) && IsUser(d, i) && Entry(s, d, i).Present? && f in s.held && CleanElsewhere(s, d, i)
    ensures CanCopy(s, d, i, f) && Unprotected(s.(held := s.held - {f}), CopyPage(s, d, i, f), d, i)
  {
    hide Core;
    EntryReadable(s, d, i);
    var p := s.ram[Entry(s, d, i).frame];
    PresentIsCounted(s, d, i);
    HeldIsUnmapped(s, f);
    RamKeepsCore(s, s.ram[f := p], s.swap);
    FillSeen(s, f, p, d, i);
    SplitKeeps(Fill(s, f, p), d, i, f);
    CopyPageIsSplit(s, d, i, f);
    SplitWorld(Fill(s, f, p), d, i, f);
  }

  lemma SplitWorld(s: State, d: int, i: int, f: nat)
    requires IsDir(d) && HasTable(s, d) && 0 <= i < |s.dir[d].ptes|
    ensures SameWorld(s.(held := s.held - {f}), Split(s, d, i, f))
  {
  }

  /** A free frame taken and then made the private copy. */
  lemma CopyOnWrite(s: State, d: int, i: int, f: nat)
    requires Core(s) && IsUser(d, i) && Entry(s, d, i).Present? && IsFree(s, f) && CleanElsewhere(s, d, i)
    ensures IsFrame(f) && CanCopy(Claim(s, f), d, i, f)
    ensures Unprotected(s, CopyPage(Claim(s, f), d, i, f), d, i)
  {
    hide Core;
    EntryReadable(s, d, i);
    FreeIsUnnamed(s, f);
    ClaimKeeps(s, f);
    var s1 := Claim(s, f);
    forall d2, i2 | IsUser(d2, i2) ensures SameView(s, s1, d2, i2) {
      SameViewAt(s, s1, d2, i2);
    }
    CopyPageKeeps(s1, d, i, f);
  }

  lemma FillSeen(s: State, f: nat, p: Page, d: int, i: int)
    requires f < |s.ram| && IsUser(d, i)
    requires forall d, i :: IsUser(d, i) ==> !Names(Entry(s, d, i), f)
    ensures SameViews(s, Fill(s, f, p)) && SameElsewhere(s, Fill(s, f, p), d, i)
  {
    forall d2, i2 | IsUser(d2, i2) ensures SameView(s, Fill(s, f, p), d2, i2) {
      SameViewAt(s, Fill(s, f, p), d2, i2);
    }
  }

  /** Making the entry of a page with a single user writable. */
  lemma UnprotectKeeps(s: State, d: int, i: int)
    requires Core(s) && IsUser(d, i) && Entry(s, d, i).Present? && Pool(s, Entry(s, d, i).frame)
    requires Count(s, Entry(s, d, i).frame) == 1 && CleanElsewhere(s, d, i)
    ensures HasTable(s, d) && |s.dir[d].ptes| == ENTRIES
    ensures Unprotected(s, SetBits(s, d, i, true, Entry(s, d, i).dirty), d, i)
  {
    SetBitsKeeps(s, d, i, true, Entry(s, d, i).dirty);
    SetBitsSeen(s, d, i, true, Entry(s, d, i).dirty);
  }

  lemma SetBitsSeen(s: State, d: int, i: int, rw: bool, dirty: bool)
    requires IsUser(d, i) && Entry(s, d, i).Present? && HasTable(s, d) && i < |s.dir[d].ptes|
    ensures Entry(SetBits(s, d, i, rw, dirty), d, i) == Present(Entry(s, d, i).frame, rw, dirty)
    ensures SameViews(s, SetBits(s, d, i, rw, dirty)) && SameElsewhere(s, SetBits(s, d, i, rw, dirty), d, i)
    ensures dirty == Entry(s, d, i).dirty ==> (Clean(s) ==> Clean(SetBits(s, d, i, rw, dirty)))
  {
    var s' := SetBits(s, d, i, rw, dirty);
    PteChangeUnseen(s, s', d, i, Present(Entry(s, d, i).frame, rw, dirty));
    assert Backing(s', d, i) == Backing(s, d, i);
    assert dirty == Entry(s, d, i).dirty ==> SameView(s, s', d, i);
  }

  // ---------------------------------------------------------------- storing

  /** A store that the hardware lets through: the page changes and the entry becomes dirty. */
  function WriteThrough(s: State, d: int, i: int, p: Page): State
    requires HasTable(s, d) && 0 <= i < |s.dir[d].ptes| && Entry(s, d, i).Present? && Entry(s, d, i).frame < |s.ram|
  {
    Fill(SetBits(s, d, i, true, true), Entry(s, d, i).frame, p)
  }

  lemma WriteKeeps(s: State, d: int, i: int, p: Page)
    requires Core(s) && IsUser(d, i) && Entry(s, d, i).Present? && Entry(s, d, i).rw && CleanElsewhere(s, d, i)
    ensures HasTable(s, d) && |s.dir[d].ptes| == ENTRIES && Entry(s, d, i).frame < |s.ram|
    ensures Inv(WriteThrough(s, d, i, p)) && View(WriteThrough(s, d, i, p), d, i) == p
    ensures LOW <= Entry(s, d, i).frame
    ensures SameElsewhere(s, WriteThrough(s, d, i, p), d, i)
  {
    WriterIsAlone(s, d, i);
    var f := Entry(s, d, i).frame;
    SetBitsKeeps(s, d, i, true, true);
    SetBitsSeen(s, d, i, true, true);
    var s1 := SetBits(s, d, i, true, true);
    var s' := WriteThrough(s, d, i, p);
    RamKeepsCore(s1, s1.ram[f := p], s1.swap);
    SetPteAt(s.dir, d, i, Present(f, true, true));
    forall d2, i2 | IsUser(d2, i2) && (d2, i2) != (d, i) ensures SameView(s, s', d2, i2) {
      SameViewAt(s1, s', d2, i2);
      assert SameView(s, s1, d2, i2);
    }
  }

  // ---------------------------------------------------------------- swapping out

  function SwapWrite(s: State, n: nat, p: Page): State
    requires n < |s.swap|
  {
    s.(swap := s.swap[n := p])
  }

  lemma SwapWriteKeeps(s: State, n: nat, p: Page)
    requires Core(s) && IsSlot(n) && Usable(s, n) && Freed(s, n)
    ensures Core(SwapWrite(s, n, p)) && SameViews(s, SwapWrite(s, n, p)) && (Clean(s) ==> Clean(SwapWrite(s, n, p)))
  {
    FreeSlotIsUnnamed(s, n);
    RamKeepsCore(s, s.ram, s.swap[n := p]);
    SwapChangeUnseen(s, SwapWrite(s, n, p), n);
  }

  /** Taking a free slot shows the slot's contents, and nothing else. */
  lemma PutSlotSeen(s: State, d: int, i: int, n: nat)
    requires Core(s) && IsUser(d, i) && HasTable(s, d) && Entry(s, d, i) == None
    requires IsSlot(n) && Usable(s, n) && Freed(s, n)
    ensures |s.dir[d].ptes| == ENTRIES && Core(PutSlot(s, d, i, n))
    ensures Entry(PutSlot(s, d, i, n), d, i) == Swapped(n) && View(PutSlot(s, d, i, n), d, i) == s.swap[n]
    ensures SameElsewhere(s, PutSlot(s, d, i, n), d, i)
    ensures Clean(s) ==> Clean(PutSlot(s, d, i, n))
  {
    PutSlotKeeps(s, d, i, n);
    PteChangeUnseen(s, PutSlot(s, d, i, n), d, i, Swapped(n));
  }

  /** try_to_swap_out of a dirty page: its contents go to slot n. */
  function PageOut(s: State, d: int, i: int, n: nat): State
    requires HasTable(s, d) && 0 <= i < |s.dir[d].ptes| && n < |s.bitmap| && n < |s.swap|
  {
    PutSlot(SwapWrite(Unmap(s, d, i), n, View(s, d, i)), d, i, n)
  }

  lemma PageOutKeeps(s: State, d: int, i: int, n: nat)
    requires Core(s) && IsUser(d, i) && Entry(s, d, i).Present? && IsSlot(n) && Usable(s, n) && Freed(s, n)
    ensures HasTable(s, d) && |s.dir[d].ptes| == ENTRIES
    ensures Core(PageOut(s, d, i, n)) && SameViews(s, PageOut(s, d, i, n))
    ensures Clean(s) ==> Clean(PageOut(s, d, i, n))
  {
    var s1 := Unmap(s, d, i);
    UnmapSeen(s, d, i);
    var s2 := SwapWrite(s1, n, View(s, d, i));
    SwapWriteKeeps(s1, n, View(s, d, i));
    PutSlotSeen(s2, d, i, n);
    var s' := PageOut(s, d, i, n);
    forall d2, i2 | IsUser(d2, i2) && (d2, i2) != (d, i) ensures View(s', d2, i2) == View(s, d2, i2) {
      assert SameView(s, s1, d2, i2) && SameView(s2, s', d2, i2);
    }
  }

  /** try_to_swap_out of a clean page just drops it: exactly those pages survive that show what a
      fault would read in again. */
  lemma DiscardIsSafe(s: State, d: int, i: int)
    requires Core(s) && IsUser(d, i) && HasTable(s, d)
    ensures |s.dir[d].ptes| == ENTRIES
    ensures SameViews(s, Unmap(s, d, i)) <==> View(s, d, i) == Backing(s, d, i)
  {
    UnmapSeen(s, d, i);
    var s' := Unmap(s, d, i);
    if View(s, d, i) == Backing(s, d, i) {
      forall d2, i2 | IsUser(d2, i2) ensures View(s', d2, i2) == View(s, d2, i2) {
        assert (d2, i2) != (d, i) ==> SameView(s, s', d2, i2);
      }
    }
  }
}

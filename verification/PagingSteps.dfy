/** The elementary updates from which every operation on the page tables is made. Each one keeps
    the invariant, and says what it does to the views. */
module PagingSteps {
  import opened Basics
  import opened PagingModel

  // ---------------------------------------------------------------- writing one entry

  function SetPte(dir: seq<Pde>, d: int, i: int, e: Pte): seq<Pde>
    requires 0 <= d < |dir| && dir[d].Table? && 0 <= i < |dir[d].ptes|
  {
    dir[d := dir[d].(ptes := dir[d].ptes[i := e])]
  }

  lemma SetPteAt(dir: seq<Pde>, d: int, i: int, e: Pte)
    requires 0 <= d < |dir| && dir[d].Table? && 0 <= i < |dir[d].ptes|
    ensures forall d2, i2 :: At(SetPte(dir, d, i, e), d2, i2) == if d2 == d && i2 == i then e else At(dir, d2, i2)
  {
  }

  lemma SetPteDirs(dir: seq<Pde>, d: int, i: int, e: Pte, f: nat)
    requires 0 <= d < |dir| && dir[d].Table? && 0 <= i < |dir[d].ptes|
    ensures DirRefs(SetPte(dir, d, i, e), f) == DirRefs(dir, f)
  {
  }

  lemma SetPteRefs(dir: seq<Pde>, d: int, i: int, e: Pte, f: nat)
    requires |dir| == ENTRIES && IsUser(d, i) && dir[d].Table? && i < |dir[d].ptes|
    ensures |PteRefs(SetPte(dir, d, i, e), f)| == |PteRefs(dir, f)| - Bit(Names(At(dir, d, i), f)) + Bit(Names(e, f))
  {
    SetPteAt(dir, d, i, e);
    hide SetPte, At, Names;
    var a, b, x := PteRefs(dir, f), PteRefs(SetPte(dir, d, i, e), f), ByPte(d, i);
    assert x in a <==> Names(At(dir, d, i), f);
    assert x in b <==> Names(e, f);
    assert a - {x} == b - {x};
    hide PteRefs;
    OneApart(a, b, x);
  }

  lemma SetPteSlots(dir: seq<Pde>, d: int, i: int, e: Pte, n: nat)
    requires |dir| == ENTRIES && IsUser(d, i) && dir[d].Table? && i < |dir[d].ptes|
    ensures |SlotRefs(SetPte(dir, d, i, e), n)| ==
            |SlotRefs(dir, n)| - Bit(At(dir, d, i) == Swapped(n)) + Bit(e == Swapped(n))
  {
    SetPteAt(dir, d, i, e);
    hide SetPte, At;
    var a, b, x := SlotRefs(dir, n), SlotRefs(SetPte(dir, d, i, e), n), Addr(d, i);
    assert x in a <==> At(dir, d, i) == Swapped(n);
    assert x in b <==> e == Swapped(n);
    assert a - {x} == b - {x};
    hide SlotRefs;
    OneApart(a, b, x);
  }

  lemma RefsSize(s: State, f: nat)
    ensures |Refs(s, f)| == |PteRefs(s.dir, f)| + |DirRefs(s.dir, f)| + Bit(f in s.held)
  {
  }

  /** s' is s with entry (d, i) rewritten to e, and the counts, the bitmap and the set of frames
      in the kernel's hands adjusted to match. */
  ghost predicate PteStep(s: State, s': State, d: int, i: int, e: Pte) {
    IsUser(d, i) && HasTable(s, d) && i < |s.dir[d].ptes| &&
    s'.dir == SetPte(s.dir, d, i, e) && s'.tasks == s.tasks && s'.structs == s.structs && s'.cfg == s.cfg &&
    |s'.memMap| == |s.memMap| && |s'.ram| == |s.ram| && |s'.bitmap| == |s.bitmap| && |s'.swap| == |s.swap| &&
    s'.held <= s.held &&
    (forall g :: IsFrame(g) ==> CountFollows(s, s', Entry(s, d, i), e, g)) &&
    (forall n :: IsSlot(n) ==> SlotFollows(s, s', Entry(s, d, i), e, n)) &&
    (forall d2, i2 :: IsUser(d2, i2) ==> (d2, i2) != (d, i) ==> Compatible(s, e, d, i, d2, i2))
  }

  ghost predicate CountFollows(s: State, s': State, was: Pte, e: Pte, g: int)
    requires IsFrame(g)
  {
    if Pool(s, g) then
      Count(s', g) == Count(s, g) - Bit(Names(was, g)) + Bit(Names(e, g)) - Bit(g in s.held) + Bit(g in s'.held)
    else Count(s', g) == Count(s, g)
  }

  ghost predicate SlotFollows(s: State, s': State, was: Pte, e: Pte, n: int)
    requires IsSlot(n)
  {
    if Usable(s, n) then Bit(!Freed(s', n)) == Bit(!Freed(s, n)) - Bit(was == Swapped(n)) + Bit(e == Swapped(n))
    else Freed(s', n) == Freed(s, n)
  }

  /** The new entry e at (d, i) names no frame that another entry may write or has at another offset, and
      no frame holding a table. */
  ghost predicate Compatible(s: State, e: Pte, d: int, i: int, d2: int, i2: int) {
    e.Present? && LOW <= e.frame ==>
      (Names(Entry(s, d2, i2), e.frame) ==> !Entry(s, d2, i2).rw && SameOffset(d, i, d2, i2)) &&
      (HasTable(s, d2) ==> s.dir[d2].frame != e.frame)
  }

  lemma PteStepOffset(s: State, s': State, d: int, i: int, e: Pte, g: nat)
    requires PteStep(s, s', d, i, e) && LOW <= g && OneOffset(PteRefs(s.dir, g)) && |s.dir| == ENTRIES
    ensures OneOffset(PteRefs(s'.dir, g))
  {
    SetPteAt(s.dir, d, i, e);
    forall a, b | a in PteRefs(s'.dir, g) && b in PteRefs(s'.dir, g) && a.ByPte? && b.ByPte?
      ensures SameOffset(a.d, a.i, b.d, b.i)
    {
      assert IsUser(a.d, a.i) && IsUser(b.d, b.i);
      assert a != ByPte(d, i) ==> a in PteRefs(s.dir, g) && Compatible(s, e, d, i, a.d, a.i);
      assert b != ByPte(d, i) ==> b in PteRefs(s.dir, g) && Compatible(s, e, d, i, b.d, b.i);
    }
  }

  lemma PteStepFrames(s: State, s': State, d: int, i: int, e: Pte)
    requires Core(s) && PteStep(s, s', d, i, e)
    requires forall g :: g in s'.held ==> !Names(e, g)
    ensures forall g :: IsFrame(g) ==> FrameOk(s', g)
  {
    forall g | IsFrame(g) ensures FrameOk(s', g) {
      assert FrameOk(s, g) && CountFollows(s, s', Entry(s, d, i), e, g);
      SetPteDirs(s.dir, d, i, e, g);
      SetPteRefs(s.dir, d, i, e, g);
      if Pool(s, g) { PteStepOffset(s, s', d, i, e, g); }
      RefsSize(s, g);
      RefsSize(s', g);
    }
  }

  lemma PteStepSlots(s: State, s': State, d: int, i: int, e: Pte)
    requires Core(s) && PteStep(s, s', d, i, e)
    ensures forall n :: IsSlot(n) ==> SlotOk(s', n)
  {
    forall n | IsSlot(n) ensures SlotOk(s', n) {
      assert SlotOk(s, n) && SlotFollows(s, s', Entry(s, d, i), e, n);
      SetPteSlots(s.dir, d, i, e, n);
    }
  }

  /** A page some other entry may write is not the one this step is about. */
  lemma PteStepOthers(s: State, s': State, d: int, i: int, e: Pte, d2: int, i2: int)
    requires Core(s) && PteStep(s, s', d, i, e) && IsUser(d2, i2) && (d2, i2) != (d, i)
    ensures EntryOk(s', d2, i2)
  {
    SetPteAt(s.dir, d, i, e);
    assert EntryOk(s, d2, i2) && Compatible(s, e, d, i, d2, i2);
    var e2 := Entry(s, d2, i2);
    if e2.Present? && e2.rw {
      var f := e2.frame;
      assert IsFrame(f) && FrameOk(s, f) && CountFollows(s, s', Entry(s, d, i), e, f);
      assert ByPte(d2, i2) in Refs(s, f);
      if Names(Entry(s, d, i), f) {
        OnlyUser(s, f, ByPte(d2, i2), ByPte(d, i));
      }
      if f in s.held {
        OnlyUser(s, f, ByPte(d2, i2), ByKernel);
      }
    }
  }

  lemma PteStepTables(s: State, s': State, d: int, i: int, e: Pte, d2: int)
    requires Core(s) && PteStep(s, s', d, i, e) && IsDir(d2)
    requires d2 == d && e.Present? ==> e.frame != s.dir[d].frame
    ensures DirOk(s', d2)
  {
    assert DirOk(s, d2);
    if HasTable(s, d2) {
      var f := s.dir[d2].frame;
      assert IsFrame(f) && FrameOk(s, f) && CountFollows(s, s', Entry(s, d, i), e, f);
      assert ByDir(d2) in Refs(s, f);
      if d2 != d {
        assert IsUser(d2, i) && Compatible(s, e, d, i, d2, i);
      }
      if Names(Entry(s, d, i), f) {
        OnlyUser(s, f, ByDir(d2), ByPte(d, i));
      }
      if f in s.held {
        OnlyUser(s, f, ByDir(d2), ByKernel);
      }
    }
  }

  /** Rewriting one entry this way keeps the invariant. */
  lemma PteStepKeeps(s: State, s': State, d: int, i: int, e: Pte)
    requires Core(s) && PteStep(s, s', d, i, e)
    requires forall g :: g in s'.held ==> !Names(e, g)
    requires e.Present? ==> e.frame != s.dir[d].frame
    requires EntryOk(s', d, i)
    ensures Core(s')
  {
    PteStepFrames(s, s', d, i, e);
    PteStepSlots(s, s', d, i, e);
    forall d2 | IsDir(d2) ensures DirOk(s', d2) {
      PteStepTables(s, s', d, i, e, d2);
    }
    forall d2, i2 | IsUser(d2, i2) ensures EntryOk(s', d2, i2) {
      if (d2, i2) != (d, i) {
        PteStepOthers(s, s', d, i, e, d2, i2);
      }
    }
    SetPteAt(s.dir, d, i, e);
  }

  // ---------------------------------------------------------------- frames in the kernel's hands

  function SetCount(memMap: seq<nat>, f: int, c: nat): seq<nat>
    requires LOW <= f && f - LOW < |memMap|
  {
    memMap[f - LOW := c]
  }

  /** get_free_page: the frame is counted once and cleared. */
  function Claim(s: State, f: nat): State
    requires LOW <= f < |s.ram| && f - LOW < |s.memMap|
  {
    s.(memMap := SetCount(s.memMap, f, 1), ram := s.ram[f := ZeroPage()], held := s.held + {f})
  }

  /** Frame f passes between the free pool and the kernel's hands; nothing else is named anew. */
  ghost predicate HoldStep(s: State, s': State, f: nat) {
    s'.dir == s.dir && s'.tasks == s.tasks && s'.structs == s.structs && s'.cfg == s.cfg && s'.bitmap == s.bitmap &&
    |s'.memMap| == |s.memMap| && |s'.ram| == |s.ram| && |s'.swap| == |s.swap| &&
    (forall g :: g != f ==> (g in s'.held <==> g in s.held) && Count(s', g) == Count(s, g)) &&
    Count(s', f) == Bit(f in s'.held)
  }

  lemma HoldStepKeeps(s: State, s': State, f: nat)
    requires Core(s) && HoldStep(s, s', f) && Pool(s, f)
    requires PteRefs(s.dir, f) == {} && DirRefs(s.dir, f) == {}
    requires forall d, i :: IsUser(d, i) ==> !Names(Entry(s, d, i), f)
    requires forall d :: IsDir(d) && HasTable(s, d) ==> s.dir[d].frame != f
    ensures Core(s')
  {
  }

  lemma ClaimStep(s: State, f: nat)
    requires IsFrame(f) && |s.ram| == FRAMES && |s.memMap| == PAGING_PAGES
    ensures HoldStep(s, Claim(s, f), f)
  {
  }

  lemma ClaimKeeps(s: State, f: nat)
    requires Core(s) && IsFree(s, f)
    ensures Core(Claim(s, f)) && SameViews(s, Claim(s, f))
    ensures Clean(s) ==> Clean(Claim(s, f))
  {
    FreeIsUnnamed(s, f);
    ClaimStep(s, f);
    HoldStepKeeps(s, Claim(s, f), f);
    RamChangeUnseen(s, Claim(s, f), f);
  }

  ghost predicate SameView(s: State, s': State, d: int, i: int) {
    View(s', d, i) == View(s, d, i) && (CleanAt(s, d, i) ==> CleanAt(s', d, i))
  }

  /** A page looks the same as long as its entry and the one page it names do. */
  lemma SameViewAt(s: State, s': State, d: int, i: int)
    requires s'.tasks == s.tasks && s'.cfg == s.cfg && |s'.ram| == |s.ram| && |s'.swap| == |s.swap|
    requires Entry(s', d, i) == Entry(s, d, i)
    requires Entry(s, d, i).Present? && Entry(s, d, i).frame < |s.ram| ==>
      s'.ram[Entry(s, d, i).frame] == s.ram[Entry(s, d, i).frame]
    requires Entry(s, d, i).Swapped? && Entry(s, d, i).slot < |s.swap| ==>
      s'.swap[Entry(s, d, i).slot] == s.swap[Entry(s, d, i).slot]
    ensures SameView(s, s', d, i)
  {
  }

  /** Frames nobody maps can change without any task noticing. */
  lemma RamChangeUnseen(s: State, s': State, f: nat)
    requires s'.dir == s.dir && s'.swap == s.swap && s'.tasks == s.tasks && s'.cfg == s.cfg
    requires |s'.ram| == |s.ram| && forall g :: 0 <= g < |s.ram| && g != f ==> s'.ram[g] == s.ram[g]
    requires forall d, i :: IsUser(d, i) ==> !Names(Entry(s, d, i), f)
    ensures SameViews(s, s')
    ensures Clean(s) ==> Clean(s')
  {
  }

  /** Swap slots nobody names can change without any task noticing. */
  lemma SwapChangeUnseen(s: State, s': State, n: nat)
    requires s'.dir == s.dir && s'.ram == s.ram && s'.tasks == s.tasks && s'.cfg == s.cfg
    requires |s'.swap| == |s.swap| && forall m :: 0 <= m < |s.swap| && m != n ==> s'.swap[m] == s.swap[m]
    requires forall d, i :: IsUser(d, i) ==> Entry(s, d, i) != Swapped(n)
    ensures SameViews(s, s')
    ensures Clean(s) ==> Clean(s')
  {
  }

  /** Rewriting one entry leaves the other pages as they look. */
  lemma PteChangeUnseen(s: State, s': State, d: int, i: int, e: Pte)
    requires IsUser(d, i) && HasTable(s, d) && i < |s.dir[d].ptes| && s'.dir == SetPte(s.dir, d, i, e)
    requires s'.ram == s.ram && s'.swap == s.swap && s'.tasks == s.tasks && s'.cfg == s.cfg
    ensures Entry(s', d, i) == e
    ensures forall d2, i2 :: IsUser(d2, i2) ==> (d2, i2) != (d, i) ==>
      Entry(s', d2, i2) == Entry(s, d2, i2) && SameView(s, s', d2, i2)
  {
  }

  lemma HeldIsUnmapped(s: State, f: nat)
    requires Core(s) && f in s.held
    ensures IsFrame(f) && Pool(s, f) && Count(s, f) == 1
    ensures PteRefs(s.dir, f) == {} && DirRefs(s.dir, f) == {}
    ensures forall d, i :: IsUser(d, i) ==> !Names(Entry(s, d, i), f)
    ensures forall d :: IsDir(d) && HasTable(s, d) ==> s.dir[d].frame != f
  {
    assert FrameOk(s, f);
    assert ByKernel in Refs(s, f);
    RefsSize(s, f);
    forall d, i | IsUser(d, i) ensures !Names(Entry(s, d, i), f) {
      if Names(Entry(s, d, i), f) { OnlyUser(s, f, ByKernel, ByPte(d, i)); }
    }
    forall d | IsDir(d) && HasTable(s, d) ensures s.dir[d].frame != f {
      if s.dir[d].frame == f { OnlyUser(s, f, ByKernel, ByDir(d)); }
    }
  }

  /** free_page of a frame the kernel holds. */
  function Drop(s: State, f: nat): State
    requires LOW <= f && f - LOW < |s.memMap|
  {
    s.(memMap := SetCount(s.memMap, f, 0), held := s.held - {f})
  }

  lemma DropStep(s: State, f: nat)
    requires IsFrame(f) && |s.memMap| == PAGING_PAGES
    ensures HoldStep(s, Drop(s, f), f)
  {
  }

  lemma DropKeeps(s: State, f: nat)
    requires Core(s) && f in s.held
    ensures IsFrame(f) && Core(Drop(s, f)) && SameViews(s, Drop(s, f))
    ensures Clean(s) ==> Clean(Drop(s, f))
  {
    HeldIsUnmapped(s, f);
    DropStep(s, f);
    HoldStepKeeps(s, Drop(s, f), f);
    RamChangeUnseen(s, Drop(s, f), f);
  }

  // ---------------------------------------------------------------- mapping and unmapping

  function ReleaseSlot(bitmap: seq<bool>, e: Pte): seq<bool> {
    if e.Swapped? && e.slot < |bitmap| then bitmap[e.slot := true] else bitmap
  }

  /** put_page and swap_in: a frame in the kernel's hands becomes the page (d, i). */
  function Install(s: State, d: int, i: int, f: nat, dirty: bool): State
    requires HasTable(s, d) && 0 <= i < |s.dir[d].ptes|
  {
    s.(dir := SetPte(s.dir, d, i, Present(f, true, dirty)),
       bitmap := ReleaseSlot(s.bitmap, Entry(s, d, i)),
       held := s.held - {f})
  }

  lemma SlotIsTaken(s: State, d: int, i: int)
    requires Core(s) && IsUser(d, i) && Entry(s, d, i).Swapped?
    ensures IsSlot(Entry(s, d, i).slot) && Usable(s, Entry(s, d, i).slot) && !Freed(s, Entry(s, d, i).slot)
  {
    assert EntryOk(s, d, i);
    var n := Entry(s, d, i).slot;
    assert SlotOk(s, n);
    assert Addr(d, i) in SlotRefs(s.dir, n);
  }

  lemma InstallStep(s: State, d: int, i: int, f: nat, dirty: bool)
    requires IsUser(d, i) && HasTable(s, d) && |s.dir[d].ptes| == ENTRIES && |s.bitmap| == SWAP_BITS
    requires f in s.held && IsFrame(f) && Pool(s, f) && !Entry(s, d, i).Present?
    requires forall d, i :: IsUser(d, i) ==> !Names(Entry(s, d, i), f)
    requires forall d :: IsDir(d) && HasTable(s, d) ==> s.dir[d].frame != f
    requires Entry(s, d, i).Swapped? ==> Usable(s, Entry(s, d, i).slot) && !Freed(s, Entry(s, d, i).slot)
    ensures PteStep(s, Install(s, d, i, f, dirty), d, i, Present(f, true, dirty))
  {
  }

  lemma InstallKeeps(s: State, d: int, i: int, f: nat, dirty: bool)
    requires Core(s) && IsUser(d, i) && HasTable(s, d) && f in s.held && !Entry(s, d, i).Present?
    ensures |s.dir[d].ptes| == ENTRIES && Core(Install(s, d, i, f, dirty))
  {
    assert DirOk(s, d);
    HeldIsUnmapped(s, f);
    if Entry(s, d, i).Swapped? { SlotIsTaken(s, d, i); }
    InstallStep(s, d, i, f, dirty);
    PteStepKeeps(s, Install(s, d, i, f, dirty), d, i, Present(f, true, dirty));
  }

  /** free_page or swap_free of whatever the entry names. */
  function Unmap(s: State, d: int, i: int): State
    requires HasTable(s, d) && 0 <= i < |s.dir[d].ptes|
  {
    var e := Entry(s, d, i);
    s.(dir := SetPte(s.dir, d, i, None),
       memMap := if e.Present? && Pool(s, e.frame) && Count(s, e.frame) > 0
                 then SetCount(s.memMap, e.frame, Count(s, e.frame) - 1) else s.memMap,
       bitmap := ReleaseSlot(s.bitmap, e))
  }

  lemma UnmapStep(s: State, d: int, i: int)
    requires IsUser(d, i) && HasTable(s, d) && |s.dir[d].ptes| == ENTRIES
    requires |s.bitmap| == SWAP_BITS && |s.memMap| == PAGING_PAGES && ConfigOk(s.cfg)
    requires Entry(s, d, i).Present? && Pool(s, Entry(s, d, i).frame) ==> Count(s, Entry(s, d, i).frame) > 0
    requires Entry(s, d, i).Swapped? ==> Usable(s, Entry(s, d, i).slot) && !Freed(s, Entry(s, d, i).slot)
    ensures PteStep(s, Unmap(s, d, i), d, i, None)
  {
  }

  lemma UnmapKeeps(s: State, d: int, i: int)
    requires Core(s) && IsUser(d, i) && HasTable(s, d)
    ensures |s.dir[d].ptes| == ENTRIES && Core(Unmap(s, d, i))
  {
    assert DirOk(s, d);
    if Entry(s, d, i).Swapped? { SlotIsTaken(s, d, i); }
    if Entry(s, d, i).Present? { PresentIsCounted(s, d, i); }
    UnmapStep(s, d, i);
    PteStepKeeps(s, Unmap(s, d, i), d, i, None);
  }

  lemma PresentIsCounted(s: State, d: int, i: int)
    requires Core(s) && IsUser(d, i) && Entry(s, d, i).Present?
    ensures Entry(s, d, i).frame !in s.held
    ensures Pool(s, Entry(s, d, i).frame) ==>
      Count(s, Entry(s, d, i).frame) == |Refs(s, Entry(s, d, i).frame)| > 0
  {
    var f := Entry(s, d, i).frame;
    if f in s.held { HeldIsUnmapped(s, f); }
    if Pool(s, f) {
      assert IsFrame(f) && FrameOk(s, f);
      assert ByPte(d, i) in Refs(s, f);
    }
  }

  /** Whoever shares the frame of entry (d, i) may only read it. */
  lemma NoOtherWriter(s: State, d: int, i: int)
    requires Core(s) && IsUser(d, i) && Entry(s, d, i).Present? && Pool(s, Entry(s, d, i).frame)
    ensures forall d2, i2 :: IsUser(d2, i2) ==> (d2, i2) != (d, i) ==> Compatible(s, Entry(s, d, i), d, i, d2, i2)
    ensures HasTable(s, d) && s.dir[d].frame != Entry(s, d, i).frame
  {
    hide Core, Compatible;
    forall d2, i2 | IsUser(d2, i2) && (d2, i2) != (d, i) ensures Compatible(s, Entry(s, d, i), d, i, d2, i2) {
      NotWriter(s, d, i, d2, i2);
    }
    TableIsAlone(s, d, d, i);
  }

  lemma NotWriter(s: State, d: int, i: int, d2: int, i2: int)
    requires Core(s) && IsUser(d, i) && Entry(s, d, i).Present? && Pool(s, Entry(s, d, i).frame)
    requires IsUser(d2, i2) && (d2, i2) != (d, i)
    ensures Compatible(s, Entry(s, d, i), d, i, d2, i2)
  {
    var f := Entry(s, d, i).frame;
    assert IsFrame(f) && FrameOk(s, f) && EntryOk(s, d2, i2);
    assert ByPte(d, i) in PteRefs(s.dir, f);
    hide SlotOk, DirOk, Clean;
    if Names(Entry(s, d2, i2), f) {
      assert ByPte(d2, i2) in PteRefs(s.dir, f);
      if Entry(s, d2, i2).rw { OnlyUser(s, f, ByPte(d, i), ByPte(d2, i2)); }
    }
    if HasTable(s, d2) { TableIsAlone(s, d2, d, i); }
  }

  // ---------------------------------------------------------------- protection bits and stores

  /** The entry with its R/W and dirty bits rewritten. */
  function SetBits(s: State, d: int, i: int, rw: bool, dirty: bool): State
    requires HasTable(s, d) && 0 <= i < |s.dir[d].ptes| && Entry(s, d, i).Present?
  {
    s.(dir := SetPte(s.dir, d, i, Present(Entry(s, d, i).frame, rw, dirty)))
  }

  lemma SetBitsKeeps(s: State, d: int, i: int, rw: bool, dirty: bool)
    requires Core(s) && IsUser(d, i) && Entry(s, d, i).Present? && Pool(s, Entry(s, d, i).frame)
    requires rw ==> Count(s, Entry(s, d, i).frame) == 1
    ensures HasTable(s, d) && |s.dir[d].ptes| == ENTRIES && Core(SetBits(s, d, i, rw, dirty))
  {
    assert IsDir(d) && DirOk(s, d);
    NoOtherWriter(s, d, i);
    PresentIsCounted(s, d, i);
    SetBitsStep(s, d, i, rw, dirty);
    PteStepKeeps(s, SetBits(s, d, i, rw, dirty), d, i, Present(Entry(s, d, i).frame, rw, dirty));
  }

  lemma SetBitsStep(s: State, d: int, i: int, rw: bool, dirty: bool)
    requires IsUser(d, i) && Entry(s, d, i).Present? && HasTable(s, d) && |s.dir[d].ptes| == ENTRIES
    requires forall d2, i2 :: IsUser(d2, i2) ==> (d2, i2) != (d, i) ==> Compatible(s, Entry(s, d, i), d, i, d2, i2)
    ensures PteStep(s, SetBits(s, d, i, rw, dirty), d, i, Present(Entry(s, d, i).frame, rw, dirty))
  {
  }

  /** The contents of memory are not part of the bookkeeping. */
  lemma RamKeepsCore(s: State, ram: seq<Page>, swap: seq<Page>)
    requires Core(s) && |ram| == |s.ram| && |swap| == |s.swap|
    ensures Core(s.(ram := ram, swap := swap))
  {
  }

  /** A page that is written through one entry is named by no other. */
  lemma WriterIsAlone(s: State, d: int, i: int)
    requires Core(s) && IsUser(d, i) && Entry(s, d, i).Present? && Entry(s, d, i).rw
    ensures Pool(s, Entry(s, d, i).frame) && Count(s, Entry(s, d, i).frame) == 1
    ensures forall d2, i2 :: IsUser(d2, i2) ==> (d2, i2) != (d, i) ==> !Names(Entry(s, d2, i2), Entry(s, d, i).frame)
  {
    assert EntryOk(s, d, i);
    var f := Entry(s, d, i).frame;
    assert IsFrame(f);
    assert ByPte(d, i) in Refs(s, f);
    forall d2, i2 | IsUser(d2, i2) && (d2, i2) != (d, i) ensures !Names(Entry(s, d2, i2), f) {
      if Names(Entry(s, d2, i2), f) { OnlyUser(s, f, ByPte(d, i), ByPte(d2, i2)); }
    }
  }

  // ---------------------------------------------------------------- one more user of a frame or slot

  /** Entry (d, i) becomes one more read-only name for frame f. */
  function PutShared(s: State, d: int, i: int, f: nat, dirty: bool): State
    requires HasTable(s, d) && 0 <= i < |s.dir[d].ptes|
  {
    s.(dir := SetPte(s.dir, d, i, Present(f, false, dirty)),
       memMap := if LOW <= f && f - LOW < |s.memMap| then SetCount(s.memMap, f, Count(s, f) + 1) else s.memMap)
  }

  lemma PutSharedStep(s: State, d: int, i: int, f: nat, dirty: bool)
    requires IsUser(d, i) && HasTable(s, d) && |s.dir[d].ptes| == ENTRIES && Entry(s, d, i) == None
    requires |s.memMap| == PAGING_PAGES && (f < LOW || (IsFrame(f) && Pool(s, f)))
    requires forall d2, i2 :: IsUser(d2, i2) ==> (d2, i2) != (d, i) ==>
               Compatible(s, Present(f, false, dirty), d, i, d2, i2)
    ensures PteStep(s, PutShared(s, d, i, f, dirty), d, i, Present(f, false, dirty))
  {
  }

  lemma PutSharedKeeps(s: State, d: int, i: int, f: nat, dirty: bool, d0: int, i0: int)
    requires Core(s) && IsUser(d, i) && HasTable(s, d) && Entry(s, d, i) == None
    requires f < LOW || (IsUser(d0, i0) && Entry(s, d0, i0) == Present(f, false, dirty) && SameOffset(d, i, d0, i0))
    ensures |s.dir[d].ptes| == ENTRIES && Core(PutShared(s, d, i, f, dirty))
  {
    assert IsDir(d) && DirOk(s, d);
    if LOW <= f {
      assert EntryOk(s, d0, i0);
      NoOtherWriter(s, d0, i0);
      PresentIsCounted(s, d0, i0);
      forall d2, i2 | IsUser(d2, i2) && (d2, i2) != (d, i)
        ensures Compatible(s, Present(f, false, dirty), d, i, d2, i2)
      {
        assert (d2, i2) != (d0, i0) ==> Compatible(s, Entry(s, d0, i0), d0, i0, d2, i2);
      }
      TableIsAlone(s, d, d0, i0);
    }
    PutSharedStep(s, d, i, f, dirty);
    PteStepKeeps(s, PutShared(s, d, i, f, dirty), d, i, Present(f, false, dirty));
  }

  lemma TableIsAlone(s: State, d: int, d0: int, i0: int)
    requires Core(s) && IsDir(d) && HasTable(s, d) && IsUser(d0, i0)
    ensures !Names(Entry(s, d0, i0), s.dir[d].frame)
  {
    assert DirOk(s, d);
    var f := s.dir[d].frame;
    assert ByDir(d) in Refs(s, f);
    if Names(Entry(s, d0, i0), f) { OnlyUser(s, f, ByDir(d), ByPte(d0, i0)); }
  }

  /** Entry (d, i) takes swap slot n. */
  function PutSlot(s: State, d: int, i: int, n: nat): State
    requires HasTable(s, d) && 0 <= i < |s.dir[d].ptes| && n < |s.bitmap|
  {
    s.(dir := SetPte(s.dir, d, i, Swapped(n)), bitmap := s.bitmap[n := false])
  }

  lemma PutSlotStep(s: State, d: int, i: int, n: nat)
    requires IsUser(d, i) && HasTable(s, d) && |s.dir[d].ptes| == ENTRIES && Entry(s, d, i) == None
    requires |s.bitmap| == SWAP_BITS && IsSlot(n) && Usable(s, n) && Freed(s, n)
    ensures PteStep(s, PutSlot(s, d, i, n), d, i, Swapped(n))
  {
  }

  lemma PutSlotKeeps(s: State, d: int, i: int, n: nat)
    requires Core(s) && IsUser(d, i) && HasTable(s, d) && Entry(s, d, i) == None
    requires IsSlot(n) && Usable(s, n) && Freed(s, n)
    ensures |s.dir[d].ptes| == ENTRIES && Core(PutSlot(s, d, i, n))
  {
    assert IsDir(d) && DirOk(s, d);
    PutSlotStep(s, d, i, n);
    PteStepKeeps(s, PutSlot(s, d, i, n), d, i, Swapped(n));
  }

  lemma FreeSlotIsUnnamed(s: State, n: nat)
    requires Core(s) && IsSlot(n) && Usable(s, n) && Freed(s, n)
    ensures forall d, i :: IsUser(d, i) ==> Entry(s, d, i) != Swapped(n)
  {
    assert SlotOk(s, n);
    forall d, i | IsUser(d, i) ensures Entry(s, d, i) != Swapped(n) {
      assert Addr(d, i) !in SlotRefs(s.dir, n);
    }
  }
}

/** The memory manager of mm/memory.c and mm/swap.c: its tables are updated in place, entry by
    entry. `Abs` gives the whole as a value, about which the invariant and the views speak. */
module Memory {
  import opened Basics
  import opened PagingModel
  import opened PagingSteps
  import opened PagingTables
  import opened PagingOps
  import opened PagingFaults
  import opened PagingSwap
  import opened PagingFrames
  import opened PagingScan
  import opened PagingFork
  import opened PagingTasks
  import opened PagingExec
  import opened PagingImage
  import opened AddressSpaces
  import opened PagingLaws

  class Manager {
    const cfg: Config
    var dir: seq<Pde>
    var memMap: seq<nat>
    var ram: seq<Page>
    var bitmap: seq<bool>
    var swap: seq<Page>
    var tasks: seq<Task>
    var structs: seq<nat>
    var dirEntry: int      // where swap_out left off
    var pageEntry: int
    ghost var held: set<nat>

    ghost function Abs(): State
      reads this
    {
      State(dir, memMap, ram, bitmap, swap, held, tasks, structs, cfg)
    }

    ghost predicate Valid()
      reads this
    {
      Inv(Abs()) && StructsOk(Abs()) && TASK_DIRS <= dirEntry && -1 <= pageEntry < ENTRIES
    }

    /** mem_init: all frames set aside, then those of main memory freed one by one. */
    constructor (cfg: Config, kernel: Pde, ram: seq<Page>, swap: seq<Page>)
      requires ConfigOk(cfg) && !cfg.usable[0] && KernelOk(kernel) && |ram| == FRAMES && |swap| == SWAP_BITS
      ensures Valid() && Booted(Abs()) && this.cfg == cfg && this.ram == ram
      ensures Seen(Abs()).pages == map[] && Seen(Abs()).used == {}
    {
      this.cfg := cfg;
      this.ram := ram;
      this.swap := swap;
      bitmap := cfg.usable;
      dir := [kernel] + seq(ENTRIES - 1, _ => NoTable);
      tasks := seq(NR_TASKS, _ => Dead);
      structs := seq(NR_TASKS, _ => 0);
      dirEntry, pageEntry := ENTRIES, -1;
      held := {};
      var map_ := seq(PAGING_PAGES, _ => USED);
      var i := cfg.lo - LOW;
      while i < cfg.hi - LOW
        invariant cfg.lo - LOW <= i <= cfg.hi - LOW && |map_| == PAGING_PAGES
        invariant forall k :: 0 <= k < PAGING_PAGES ==> map_[k] == if cfg.lo - LOW <= k < i then 0 else USED
      {
        map_ := map_[i := 0];
        i := i + 1;
      }
      memMap := map_;
      new;
      BootedInv(Abs());
      assert LivePages(tasks) == {} && UsedSlots(structs) == {};
    }

    /** The scan of get_free_page: from the last byte of mem_map down to the first zero; 0 if there is none. */
    method FindFree() returns (f: nat)
      requires |memMap| == PAGING_PAGES
      ensures f == 0 || (IsFrame(f) && memMap[f - LOW] == 0)
      ensures forall k :: 0 <= k < PAGING_PAGES && (f == 0 || f - LOW < k) ==> memMap[k] != 0
    {
      var i := PAGING_PAGES;
      while i > 0 && memMap[i - 1] != 0
        invariant 0 <= i <= PAGING_PAGES
        invariant forall k :: i <= k < PAGING_PAGES ==> memMap[k] != 0
      {
        i := i - 1;
      }
      f := if i == 0 then 0 else LOW + i - 1;
    }

    /** get_free_page when it need not swap: the highest free frame, now counted and cleared. */
    method TakeFree() returns (f: nat)
      requires Core(Abs())
      modifies `memMap, `ram, `held
      ensures f == 0 ==> Abs() == old(Abs()) && NoneFree(Abs())
      ensures f != 0 ==> IsFree(old(Abs()), f) && (forall g :: f < g ==> !IsFree(old(Abs()), g)) &&
                         Abs() == Claim(old(Abs()), f) && f !in old(held)
      ensures Core(Abs()) && SameViews(old(Abs()), Abs()) && (Clean(old(Abs())) ==> Clean(Abs()))
    {
      ghost var s := Abs();
      f := FindFree();
      ScanFindsFree(s, f);
      if f != 0 {
        FreeIsUnnamed(s, f);
        ClaimKeeps(s, f);
        memMap := memMap[f - LOW := 1];
        ram := ram[f := ZeroPage()];
        held := held + {f};
        assert Abs() == Claim(s, f);
      }
    }

    method WritePte(d: int, i: int, e: Pte)
      requires 0 <= d < |dir| && dir[d].Table? && 0 <= i < |dir[d].ptes|
      modifies `dir
      ensures Abs() == old(Abs()).(dir := SetPte(old(dir), d, i, e))
    {
      dir := dir[d := dir[d].(ptes := dir[d].ptes[i := e])];
    }

    /** The second half of un_wp_page, with the new page at hand. */
    method CopyToFrame(d: int, i: int, f: nat)
      requires CanCopy(Abs(), d, i, f)
      modifies `dir, `memMap, `ram, `bitmap, `swap, `held
      ensures Abs() == CopyPage(old(Abs()), d, i, f)
    {
      var oldPage := dir[d].ptes[i].frame;
      if oldPage >= LOW {
        memMap := memMap[oldPage - LOW := memMap[oldPage - LOW] - 1];
      }
      ram := ram[f := ram[oldPage]];
      WritePte(d, i, Present(f, true, false));
      held := held - {f};
    }

    /** un_wp_page: give the faulting entry a page it may write. The copy starts out clean. */
    method UnWpPage(d: int, i: int) returns (ok: bool)
      requires Core(Abs()) && IsUser(d, i) && Entry(Abs(), d, i).Present? && CleanElsewhere(Abs(), d, i)
      modifies `dir, `memMap, `ram, `bitmap, `swap, `held
      ensures ok ==> Unprotected(old(Abs()), Abs(), d, i) && Entry(Abs(), d, i).frame >= LOW
      ensures ok ==> Entry(Abs(), d, i).dirty == (Sole(old(Abs()), d, i) && old(Entry(Abs(), d, i)).dirty)
      ensures !ok ==> Abs() == old(Abs()) && NoneFree(Abs()) && !Sole(Abs(), d, i)
      ensures ok ==> |FreeFrames(Abs())| == |FreeFrames(old(Abs()))| - Bit(!Sole(old(Abs()), d, i))
    {
      hide Core, Clean, SameViews, CleanElsewhere, Unprotected, FreeFrames;
      ghost var s := Abs();
      EntryReadable(s, d, i);
      var e := dir[d].ptes[i];
      if e.frame >= LOW && memMap[e.frame - LOW] == 1 {
        UnprotectKeeps(s, d, i);
        assert Sole(s, d, i);
        WritePte(d, i, Present(e.frame, true, e.dirty));
        SameFree(s, Abs());
        return true;
      }
      var f := TakeFree();
      if f == 0 {
        return false;
      }
      CopyOnWrite(s, d, i, f);
      SharedIsCounted(s, d, i);
      CopyTakes(s, d, i, f);
      CopyToFrame(d, i, f);
      ok := true;
    }

    // -------------------------------------------------------------- faults

    /** Fill a frame in the kernel's hands and map it, releasing the swap slot the entry named, if any. */
    method MapPage(d: int, i: int, f: nat, p: Page, dirty: bool)
      requires CanInstall(Abs(), d, i, f)
      requires Entry(Abs(), d, i).Swapped? ==> Entry(Abs(), d, i).slot < |bitmap|
      modifies `dir, `memMap, `ram, `bitmap, `swap, `held
      ensures Abs() == PageIn(old(Abs()), d, i, f, p, dirty)
    {
      ram := ram[f := p];
      var e := dir[d].ptes[i];
      if e.Swapped? {
        bitmap := bitmap[e.slot := true];
      }
      WritePte(d, i, Present(f, true, dirty));
      held := held - {f};
    }

    /** A free frame, filled with p, becomes page (d, i): the common end of swap_in, get_empty_page and do_no_page. */
    method BringIn(d: int, i: int, p: Page, dirty: bool) returns (ok: bool)
      requires Inv(Abs()) && IsUser(d, i) && LiveDir(Abs(), d) && HasTable(Abs(), d) && !Entry(Abs(), d, i).Present?
      requires p == View(Abs(), d, i) && (dirty || Entry(Abs(), d, i) == None)
      modifies `dir, `memMap, `ram, `bitmap, `swap, `held
      ensures Unseen(old(Abs()), Abs())
      ensures ok ==> Entry(Abs(), d, i).Present? && Sole(Abs(), d, i)
      ensures ok ==> |FreeFrames(Abs())| == |FreeFrames(old(Abs()))| - 1
      ensures !ok ==> Abs() == old(Abs()) && NoneFree(Abs())
    {
      hide Core, Clean, SameViews, FreeFrames;
      ghost var s := Abs();
      TaskReadable(s, d, i);
      var f := TakeFree();
      if f == 0 {
        UnseenRefl(s);
        return false;
      }
      PageInKeeps(s, d, i, f, p, dirty);
      EntryReadable(s, d, i);
      PageInTakes(s, d, i, f, p, dirty);
      MapPage(d, i, f, p, dirty);
      WritableIsSole(Abs(), d, i);
      ok := true;
    }

    method ShareEntry(d0: int, i: int, d: int)
      requires CanShare(Abs(), d0, i, d)
      modifies `dir, `memMap
      ensures Abs() == ShareIn(old(Abs()), d0, i, d)
    {
      var f := dir[d0].ptes[i].frame;
      WritePte(d0, i, Present(f, false, false));
      WritePte(d, i, Present(f, false, false));
      memMap := memMap[f - LOW := memMap[f - LOW] + 1];
    }

    /** try_to_share: use task p's copy of the page if it is there, clean and in counted memory. */
    method TryToShare(d: int, i: int, p: int, inode: nat) returns (shared: bool)
      requires Inv(Abs()) && IsUser(d, i) && LiveDir(Abs(), d) && HasTable(Abs(), d) && Entry(Abs(), d, i) == None
      requires 1 <= p < NR_TASKS && p != d / TASK_DIRS && SameFile(tasks, d, i, p, inode) && inode != 0
      requires inode == SourceInode(cfg.files, tasks[d / TASK_DIRS], Offset(d, i))
      modifies `dir, `memMap, `ram, `bitmap, `swap, `held
      ensures Unseen(old(Abs()), Abs())
      ensures shared ==> Entry(Abs(), d, i).Present? && !Sole(Abs(), d, i)
      ensures shared ==> FreeFrames(Abs()) == FreeFrames(old(Abs()))
      ensures !shared ==> Abs() == old(Abs())
      ensures shared <==> Lends(old(Abs()), d, i, p)
      ensures var e := old(Entry(Abs(), p * 16 + d % 16, i));
        shared <==> e.Present? && !e.dirty && 256 <= e.frame < cfg.hi
    {
      hide Core, Clean, SameViews, FreeFrames;
      ghost var s := Abs();
      UnseenRefl(s);
      TaskReadable(s, d, i);
      var from := Twin(d, p);
      assert IsUser(from, i);
      EntryReadable(s, from, i);
      if dir[from].NoTable? {
        return false;
      }
      var e := dir[from].ptes[i];
      if !e.Present? || e.dirty || e.frame >= cfg.hi || e.frame < LOW {
        return false;
      }
      TwinKeeps(s, d, i, p, inode);
      PresentIsCounted(s, from, i);
      ShareTakesNone(s, from, i, d);
      ShareEntry(from, i, d);
      shared := true;
    }

    /** share_page: look for another task that runs the same file, from the last task down. */
    method SharePage(d: int, i: int, inode: nat) returns (shared: bool)
      requires Inv(Abs()) && IsUser(d, i) && LiveDir(Abs(), d) && HasTable(Abs(), d) && Entry(Abs(), d, i) == None
      requires inode == SourceInode(cfg.files, tasks[d / TASK_DIRS], Offset(d, i)) && inode != 0
      modifies `dir, `memMap, `ram, `bitmap, `swap, `held
      ensures Unseen(old(Abs()), Abs())
      ensures shared ==> Entry(Abs(), d, i).Present? && !Sole(Abs(), d, i)
      ensures shared ==> FreeFrames(Abs()) == FreeFrames(old(Abs()))
      ensures !shared ==> Abs() == old(Abs())
      ensures shared <==> exists p :: Lender(old(Abs()), d, i, p)
    {
      hide Core, Clean, SameViews, FreeFrames;
      UnseenRefl(Abs());
      TaskReadable(Abs(), d, i);
      var p := NR_TASKS - 1;
      while p > 0
        invariant 0 <= p < NR_TASKS
        invariant Abs() == old(Abs())
        invariant forall q :: p < q ==> !Lender(Abs(), d, i, q)
      {
        if p != d / TASK_DIRS && SameFile(tasks, d, i, p, inode) {
          shared := TryToShare(d, i, p, inode);
          if shared {
            assert Lender(old(Abs()), d, i, p);
            return;
          }
        }
        p := p - 1;
      }
      shared := false;
    }

    /** The directory part of do_no_page: a table for the address, in a fresh frame if need be. */
    method EnsureTable(d: int, i: int) returns (ok: bool)
      requires Inv(Abs()) && IsUser(d, i) && LiveDir(Abs(), d)
      modifies `dir, `memMap, `ram, `bitmap, `swap, `held
      ensures Unseen(old(Abs()), Abs()) && SameEntries(old(Abs()), Abs())
      ensures ok ==> HasTable(Abs(), d)
      ensures ok ==> |FreeFrames(Abs())| == |FreeFrames(old(Abs()))| - Bit(!HasTable(old(Abs()), d))
      ensures !ok ==> NoneFree(Abs()) && Abs() == old(Abs()) && !HasTable(Abs(), d)
    {
      hide Core, Clean, SameViews, FreeFrames;
      ghost var s := Abs();
      UnseenRefl(s);
      TaskReadable(s, d, i);
      if dir[d].Table? {
        return true;
      }
      var f := TakeFree();
      if f == 0 {
        return false;
      }
      TableInKeeps(s, d, f);
      NewTableFrees(s, d, f);
      dir := dir[d := Table(f, EmptyTable())];
      held := held - {f};
      assert Abs() == NewTable(Claim(s, f), d, f);
      ok := true;
    }

    /** do_no_page: swap the page in, or supply an empty page, another task's copy or the file's.
        `inUse` is share_page's test that the file has another user. */
    method DoNoPage(d: int, i: int, inUse: bool) returns (ok: bool)
      requires Inv(Abs()) && IsUser(d, i) && LiveDir(Abs(), d) && !Entry(Abs(), d, i).Present?
      modifies `dir, `memMap, `ram, `bitmap, `swap, `held
      ensures Unseen(old(Abs()), Abs())
      ensures ok <==> |FreeFrames(old(Abs()))| >= LoadNeed(old(Abs()), d, i, inUse)
      ensures ok ==> Entry(Abs(), d, i).Present? && Sole(Abs(), d, i) == !Borrows(old(Abs()), d, i, inUse)
      ensures ok ==> |FreeFrames(Abs())| == |FreeFrames(old(Abs()))| - LoadNeed(old(Abs()), d, i, inUse)
      ensures old(Entry(Abs(), d, i)) == None ==>
                LiveDir(Abs(), d) && ShowsImage(cfg.files, tasks[d / TASK_DIRS], d, i, View(Abs(), d, i))
      ensures !ok ==> NoneFree(Abs())
    {
      hide Core, Clean, SameViews, View, Backing, Borrows, Sole, FreeFrames, ShowsImage;
      ghost var s := Abs();
      if Entry(s, d, i) == None { MissingShows(s, d, i); }
      ok := EnsureTable(d, i);
      NoneFreeIs(s);
      if !ok {
        return;
      }
      ghost var s1 := Abs();
      TaskReadable(s1, d, i);
      BorrowsSame(s, s1, d, i, inUse);
      ok := FillMissing(d, i, inUse);
      UnseenTrans(s, s1, Abs());
    }

    /** The rest of do_no_page, with the table in place. */
    method FillMissing(d: int, i: int, inUse: bool) returns (ok: bool)
      requires Inv(Abs()) && IsUser(d, i) && LiveDir(Abs(), d) && HasTable(Abs(), d) && !Entry(Abs(), d, i).Present?
      modifies `dir, `memMap, `ram, `bitmap, `swap, `held
      ensures Unseen(old(Abs()), Abs())
      ensures ok <==> Borrows(old(Abs()), d, i, inUse) || |FreeFrames(old(Abs()))| > 0
      ensures ok ==> Entry(Abs(), d, i).Present? && Sole(Abs(), d, i) == !Borrows(old(Abs()), d, i, inUse)
      ensures ok ==> |FreeFrames(Abs())| == |FreeFrames(old(Abs()))| - Bit(!Borrows(old(Abs()), d, i, inUse))
      ensures old(Entry(Abs(), d, i)) == None ==>
                LiveDir(Abs(), d) && ShowsImage(cfg.files, tasks[d / TASK_DIRS], d, i, View(Abs(), d, i))
      ensures !ok ==> NoneFree(Abs())
    {
      hide Core, Clean, SameViews, Backing, ClearTail, FilePage, FreeFrames, ShowsImage;
      ghost var s := Abs();
      TaskReadable(s, d, i);
      NoneFreeIs(s);
      if Entry(s, d, i) == None { MissingShows(s, d, i); }
      if dir[d].ptes[i].Swapped? {
        ok := BringIn(d, i, swap[dir[d].ptes[i].slot], true);
        return;
      }
      MissingPage(s, d, i);
      var t := tasks[d / TASK_DIRS];
      var inode := SourceInode(cfg.files, t, Offset(d, i));
      if inode == 0 {
        ok := BringIn(d, i, ZeroPage(), false);
        UnseenAt(s, Abs(), d, i);
        return;
      }
      if inUse {
        ok := SharePage(d, i, inode);
        if ok {
          UnseenAt(s, Abs(), d, i);
          return;
        }
      }
      var p := ReadPage(cfg.files, inode, Offset(d, i), EndData(cfg.files, t.exe));
      ok := BringIn(d, i, p, false);
      UnseenAt(s, Abs(), d, i);
    }

    // -------------------------------------------------------------- loads and stores

    /** A load from linear page (d, i), with the fault it may take. */
    method Load(d: int, i: int, inUse: bool) returns (ok: bool, p: Page)
      requires Inv(Abs()) && IsUser(d, i) && LiveDir(Abs(), d)
      modifies `dir, `memMap, `ram, `bitmap, `swap, `held
      ensures Unseen(old(Abs()), Abs())
      ensures ok ==> p == old(View(Abs(), d, i)) && Entry(Abs(), d, i).Present?
      ensures ok <==> |FreeFrames(old(Abs()))| >= LoadNeed(old(Abs()), d, i, inUse)
      ensures ok ==> |FreeFrames(Abs())| == |FreeFrames(old(Abs()))| - LoadNeed(old(Abs()), d, i, inUse)
      ensures !ok ==> NoneFree(Abs())
      ensures old(Entry(Abs(), d, i)).Present? ==> ok && Abs() == old(Abs())
      ensures ok && old(Entry(Abs(), d, i)) == None ==>
                LiveDir(Abs(), d) && ShowsImage(cfg.files, tasks[d / TASK_DIRS], d, i, p)
      ensures ok && !old(Entry(Abs(), d, i)).Present? ==> Sole(Abs(), d, i) == !Borrows(old(Abs()), d, i, inUse)
    {
      hide Core, Clean, Backing, Borrows, Sole, FreeFrames, ShowsImage;
      ghost var s := Abs();
      UnseenRefl(s);
      TaskReadable(s, d, i);
      if dir[d].NoTable? || !dir[d].ptes[i].Present? {
        ok := DoNoPage(d, i, inUse);
        if !ok {
          return false, ZeroPage();
        }
      }
      assert View(Abs(), d, i) == View(s, d, i);
      EntryReadable(Abs(), d, i);
      return true, ram[dir[d].ptes[i].frame];
    }

    /** do_wp_page, unless the entry already allows writing. */
    method MakeWritable(d: int, i: int) returns (ok: bool)
      requires Inv(Abs()) && IsUser(d, i) && Entry(Abs(), d, i).Present?
      modifies `dir, `memMap, `ram, `bitmap, `swap, `held
      ensures ok ==> Unprotected(old(Abs()), Abs(), d, i)
      ensures !ok ==> Abs() == old(Abs()) && NoneFree(Abs())
      ensures ok <==> |FreeFrames(old(Abs()))| >= Bit(!Sole(old(Abs()), d, i))
      ensures ok ==> |FreeFrames(Abs())| == |FreeFrames(old(Abs()))| - Bit(!Sole(old(Abs()), d, i))
      ensures old(Entry(Abs(), d, i)).rw ==> ok && Abs() == old(Abs())
    {
      hide Core, SameViews, FreeFrames;
      ghost var s := Abs();
      EntryReadable(s, d, i);
      WritableIsSole(s, d, i);
      NoneFreeIs(s);
      if dir[d].ptes[i].rw {
        AlreadyWritable(s, d, i);
        return true;
      }
      ok := UnWpPage(d, i);
    }

    method WriteFrame(d: int, i: int, p: Page)
      requires CanWrite(Abs(), d, i)
      modifies `dir, `memMap, `ram, `bitmap, `swap, `held
      ensures Abs() == WriteThrough(old(Abs()), d, i, p)
    {
      var f := dir[d].ptes[i].frame;
      ram := ram[f := p];
      WritePte(d, i, Present(f, true, true));
    }

    /** A store of one byte into linear page (d, i), with the faults it may take. */
    method Store(d: int, i: int, offset: nat, b: Byte, inUse: bool) returns (ok: bool)
      requires Inv(Abs()) && IsUser(d, i) && LiveDir(Abs(), d) && offset < PAGE_SIZE
      modifies `dir, `memMap, `ram, `bitmap, `swap, `held
      ensures ok ==> Stored(old(Abs()), Abs(), d, i, old(View(Abs(), d, i))[offset := b])
      ensures !ok ==> Unseen(old(Abs()), Abs()) && NoneFree(Abs())
      ensures ok <==> |FreeFrames(old(Abs()))| >= StoreNeed(old(Abs()), d, i)
      ensures ok ==> |FreeFrames(Abs())| == |FreeFrames(old(Abs()))| - StoreNeed(old(Abs()), d, i)
      ensures old(Entry(Abs(), d, i)).Present? && old(Entry(Abs(), d, i)).rw ==>
                ok && CanWrite(old(Abs()), d, i) &&
                Abs() == WriteThrough(old(Abs()), d, i, old(View(Abs(), d, i))[offset := b])
    {
      hide Core, Clean, Backing, Unprotected, CleanElsewhere, SameWorld, Borrows, Sole, FreeFrames;
      ghost var s := Abs();
      var was: Page;
      ok, was := Load(d, i, inUse);
      if !ok {
        return;
      }
      ghost var s1 := Abs();
      ok := MakeWritable(d, i);
      if !ok {
        return;
      }
      StoreAfterLoad(s, s1, Abs(), d, i, was[offset := b]);
      SameFree(Abs(), WriteThrough(Abs(), d, i, was[offset := b]));
      WriteFrame(d, i, was[offset := b]);
    }

    // -------------------------------------------------------------- swapping

    /** free_page on a counted frame. */
    method FreePage(f: nat)
      requires |memMap| == PAGING_PAGES
      modifies `memMap
      ensures Abs() == if LOW <= f < cfg.hi && f < FRAMES && Count(old(Abs()), f) > 0
                       then old(Abs()).(memMap := SetCount(old(memMap), f, Count(old(Abs()), f) - 1)) else old(Abs())
    {
      if f < LOW {
        return;
      }
      if f < cfg.hi && f < FRAMES {
        if memMap[f - LOW] > 0 {
          memMap := memMap[f - LOW := memMap[f - LOW] - 1];
        }
      }
    }

    /** get_swap_page: the lowest free slot, now taken; 0 if there is none. */
    method GetSwapPage() returns (n: nat)
      requires |bitmap| == SWAP_BITS
      modifies `bitmap
      ensures n == 0 || (IsSlot(n) && old(bitmap)[n] && bitmap == old(bitmap)[n := false])
      ensures n == 0 ==> bitmap == old(bitmap)
      ensures forall k :: 1 <= k < SWAP_BITS && (n == 0 || k < n) ==> !old(bitmap)[k]
    {
      n := 1;
      while n < SWAP_BITS && !bitmap[n]
        invariant 1 <= n <= SWAP_BITS
        invariant forall k :: 1 <= k < n ==> !bitmap[k]
      {
        n := n + 1;
      }
      if n == SWAP_BITS {
        return 0;
      }
      bitmap := bitmap[n := false];
    }

    /** The rest of try_to_swap_out for a dirty page, its slot n taken. */
    method WriteOut(d: int, i: int, n: nat, ghost s: State)
      requires CanPageOut(s, d, i, n) && |memMap| == PAGING_PAGES && cfg.hi <= FRAMES
      requires Abs() == s.(bitmap := s.bitmap[n := false])
      modifies `dir, `memMap, `ram, `swap, `held
      ensures Abs() == PageOut(s, d, i, n)
    {
      var f := dir[d].ptes[i].frame;
      WritePte(d, i, Swapped(n));
      swap := swap[n := ram[f]];
      FreePage(f);
      SetPteTwice(old(dir), d, i, None, Swapped(n));
    }

    method Discard(d: int, i: int)
      requires CanPageOut(Abs(), d, i, 0) && |memMap| == PAGING_PAGES && cfg.hi <= FRAMES
      modifies `dir, `memMap
      ensures Abs() == Unmap(old(Abs()), d, i)
    {
      var f := dir[d].ptes[i].frame;
      WritePte(d, i, None);
      FreePage(f);
    }

    /** try_to_swap_out: a dirty page with a single user goes to a free slot, a clean one is dropped. */
    method TryToSwapOut(d: int, i: int) returns (out: bool)
      requires Core(Abs()) && IsUser(d, i) && HasTable(Abs(), d)
      modifies `dir, `memMap, `ram, `bitmap, `swap, `held
      ensures out ==> WentOut(old(Abs()), Abs(), d, i)
      ensures out && Inv(old(Abs())) ==> PagedOut(old(Abs()), Abs())
      ensures !out ==> Abs() == old(Abs())
      ensures out <==> CanGo(old(Abs()), d, i)
      ensures var e := old(Entry(Abs(), d, i));
        out <==> e.Present? && e.frame >= 256 &&
                 (!e.dirty || (old(Count(Abs(), e.frame)) == 1 && exists n :: 1 <= n < |old(bitmap)| && old(bitmap)[n]))
    {
      hide Core, Clean, SameViews, PresentPages, WentOut, PageOut;
      ghost var s := Abs();
      CoreShape(s);
      EntryReadable(s, d, i);
      var e := dir[d].ptes[i];
      if !e.Present? || e.frame < LOW {
        return false;
      }
      OutReadable(s, d, i, 0);
      if e.dirty {
        if memMap[e.frame - LOW] != 1 {
          return false;
        }
        var n := GetSwapPage();
        if n == 0 {
          assert forall k :: IsSlot(k) ==> !Freed(s, k);
          return false;
        }
        assert IsSlot(n) && Freed(s, n) && LowestSlot(s, n);
        PageOutUnseen(s, d, i, n);
        WriteOut(d, i, n, s);
        return true;
      }
      DiscardUnseen(s, d, i);
      Discard(d, i);
      out := true;
    }

    /** swap_out: resume the round over all tables where the last call left off. The first page in reach goes; there
        may be none in reach although some page could go. */
    method SwapOut() returns (out: bool)
      requires Inv(Abs()) && TASK_DIRS <= dirEntry && -1 <= pageEntry < ENTRIES
      modifies this
      ensures TASK_DIRS <= dirEntry && -1 <= pageEntry < ENTRIES
      ensures out <==> exists d, i :: InReach(old(Abs()), old(dirEntry), old(pageEntry), d, i)
      ensures Marked(old(Abs()), old((dirEntry, pageEntry)), out, Abs(), (dirEntry, pageEntry))
      ensures if out then PagedOut(old(Abs()), Abs()) && IsUser(dirEntry, pageEntry) else Abs() == old(Abs())
    {
      hide Core, Clean, SameViews, PagedOut, WentOut, CanGo, Scanned, InReach, Distance;
      ghost var s, de0, pe0 := Abs(), dirEntry, pageEntry;
      ShapeOf(s);
      ScanStarts(s, de0, pe0);
      var counter: int := VM_PAGES;
      while counter >= 0
        invariant TASK_DIRS <= dirEntry && -1 <= pageEntry < ENTRIES && Abs() == s
        invariant Scanned(s, de0, pe0, dirEntry, pageEntry, VM_PAGES - counter)
        invariant Halt(dir, dirEntry, pageEntry, counter) == Halt(s.dir, de0, pe0, VM_PAGES)
        decreases counter
      {
        if dirEntry >= ENTRIES {
          ScanWraps(s, de0, pe0, dirEntry, pageEntry, VM_PAGES - counter);
          dirEntry := TASK_DIRS;
        }
        if dir[dirEntry].NoTable? {
          ScanGap(s, de0, pe0, dirEntry, pageEntry, VM_PAGES - counter);
          counter := counter - ENTRIES;
          dirEntry := dirEntry + 1;
        } else if pageEntry + 1 >= ENTRIES {
          ScanEnd(s, de0, pe0, dirEntry, VM_PAGES - counter);
          counter := counter - 1;
          pageEntry := -1;
          dirEntry := dirEntry + 1;
        } else {
          ScanOn(s, de0, pe0, dirEntry, pageEntry, VM_PAGES - counter);
          out := TryToSwapOut(dirEntry, pageEntry + 1);
          if out {
            ScanFinds(s, de0, pe0, dirEntry, pageEntry, VM_PAGES - counter);
            pageEntry := pageEntry + 1;
            return;
          }
          counter := counter - 1;
          pageEntry := pageEntry + 1;
        }
      }
      ScanOver(s, de0, pe0, dirEntry, pageEntry, VM_PAGES - counter);
      out := false;
    }

    /** get_free_page: swap pages out until a frame is free or nothing more is in swap_out's reach from its mark, which
        is where it was or at the last page that went. */
    method GetFreePage() returns (f: nat, ghost de: int, ghost pe: int)
      requires Valid()
      modifies this
      ensures TASK_DIRS <= dirEntry && -1 <= pageEntry < ENTRIES
      ensures Inv(Abs()) && SameViews(old(Abs()), Abs()) && tasks == old(tasks)
      ensures f == 0 ==> held == old(held) && NoneFree(Abs()) && forall d, i :: !InReach(Abs(), de, pe, d, i)
      ensures (de, pe) == old((dirEntry, pageEntry)) || Left(old(Abs()), Abs(), de, pe)
      ensures f != 0 ==> f !in old(held) && held == old(held) + {f} && f < |ram| && ram[f] == ZeroPage()
    {
      hide Core, Clean, SameViews, InReach, Left, WentOut, Distance;
      ghost var s := Abs();
      UnseenRefl(s);
      de, pe := dirEntry, pageEntry;
      while true
        invariant TASK_DIRS <= dirEntry && -1 <= pageEntry < ENTRIES && (de, pe) == (dirEntry, pageEntry)
        invariant Unseen(s, Abs()) && OnlyOut(s, Abs())
        invariant (de, pe) == old((dirEntry, pageEntry)) || Left(s, Abs(), de, pe)
        decreases PresentPages(dir)
      {
        ghost var s1 := Abs();
        f := TakeFree();
        if f != 0 {
          ClaimSeen(s, s1, f);
          LeftDir(s, s1, Abs(), de, pe);
          return;
        }
        var out := SwapOut();
        if !out {
          return;
        }
        StillOut(s, s1, Abs(), dirEntry, pageEntry);
        de, pe := dirEntry, pageEntry;
        UnseenTrans(s, s1, Abs());
      }
    }

    // -------------------------------------------------------------- free_page_tables

    /** swap_free: slot n becomes free; bad says that it was so already, or is no slot at all. */
    method SwapFree(n: nat) returns (bad: bool)
      requires |bitmap| == SWAP_BITS
      modifies `bitmap
      ensures bitmap == if 0 < n < SWAP_BITS then old(bitmap)[n := true] else old(bitmap)
      ensures bad <==> n != 0 && (n >= SWAP_BITS || old(bitmap)[n])
    {
      if n == 0 {
        return false;
      }
      if n < SWAP_BITS {
        bad := bitmap[n];
        bitmap := bitmap[n := true];
        return;
      }
      bad := true;
    }

    method FreeEntry(d: int, i: int)
      requires CanUnmap(Abs(), d, i)
      modifies `dir, `memMap, `bitmap
      ensures Abs() == Unmap(old(Abs()), d, i)
    {
      var page := dir[d].ptes[i];
      WritePte(d, i, None);
      if page.Present? {
        FreePage(page.frame);
      } else if page.Swapped? {
        var bad := SwapFree(page.slot);
        assert !bad;
      }
    }

    /** The inner loop of free_page_tables, and the table's own frame. */
    method FreeTableOf(ghost s0: State, ghost t: int, d: int)
      requires OnlyTask(s0, Abs(), t) && IsDir(d) && Owns(t, d) && HasTable(Abs(), d)
      modifies `dir, `memMap, `bitmap
      ensures OnlyTask(s0, Abs(), t) && !HasTable(Abs(), d)
      ensures forall d2 :: IsDir(d2) && d2 != d ==> (HasTable(Abs(), d2) <==> old(HasTable(Abs(), d2)))
      ensures |FreeFrames(Abs())| > 0
    {
      hide Core, Clean, View, OnlyTask, FreeFrames;
      var nr := 0;
      while nr < ENTRIES
        invariant 0 <= nr <= ENTRIES
        invariant OnlyTask(s0, Abs(), t) && HasTable(Abs(), d)
        invariant forall i :: 0 <= i < nr ==> Entry(Abs(), d, i) == None
        invariant forall d2 :: IsDir(d2) ==> (HasTable(Abs(), d2) <==> old(HasTable(Abs(), d2)))
      {
        UnmapOne(s0, Abs(), t, d, nr);
        FreeEntry(d, nr);
        nr := nr + 1;
      }
      ghost var s := Abs();
      FreeTableOne(s0, s, t, d);
      var f := dir[d].frame;
      FreeTableGives(s, d);
      dir := dir[d := NoTable];
      FreePage(f);
      assert Abs() == Drop(FreeTable(s, d), f);
    }

    /** free_page_tables over the whole segment of task t. */
    method FreePageTables(t: int)
      requires Inv(Abs()) && 1 <= t < NR_TASKS && tasks[t].Live?
      modifies `dir, `memMap, `bitmap
      ensures OnlyTask(old(Abs()), Abs(), t)
      ensures forall d :: IsDir(d) && Owns(t, d) ==> !HasTable(Abs(), d)
      ensures if HasSome(old(dir), t) then |FreeFrames(Abs())| > 0 else Abs() == old(Abs())
    {
      hide Core, Clean, View, OnlyTask, FreeFrames;
      ghost var s0 := Abs();
      OnlyTaskRefl(s0, t);
      ShapeOf(s0);
      assert IsTask(t) && TaskOk(cfg, tasks[t]);
      var k := 0;
      while k < tasks[t].dirs
        invariant 0 <= k <= TASK_DIRS && tasks == old(tasks)
        invariant OnlyTask(s0, Abs(), t)
        invariant forall d :: IsDir(d) && Owns(t, d) && d % TASK_DIRS < k ==> !HasTable(Abs(), d)
        invariant Abs() == s0 || (|FreeFrames(Abs())| > 0 && HasSome(s0.dir, t))
        invariant forall d :: IsDir(d) && Owns(t, d) && d % TASK_DIRS >= k ==> HasTable(Abs(), d) == HasTable(s0, d)
      {
        var d := Twin(k, t);
        OnlyTaskReadable(s0, Abs(), t, d);
        if dir[d].Table? {
          assert IsDir(d) && Owns(t, d) && HasTable(s0, d);
          FreeTableOf(s0, t, d);
        }
        k := k + 1;
      }
      NoTableBeyond(s0, Abs(), t);
    }

    // -------------------------------------------------------------- copy_page_tables

    method CopyPresent(d0: int, i: int, d: int)
      requires HasTable(Abs(), d0) && HasTable(Abs(), d) && d0 != d && 0 <= i < |dir[d0].ptes| && i < |dir[d].ptes|
      requires dir[d0].ptes[i].Present? && dir[d0].ptes[i].frame < FRAMES && |memMap| == PAGING_PAGES
      modifies `dir, `memMap
      ensures old(dir[d0].ptes[i].frame) < LOW ==>
        Abs() == PutShared(old(Abs()), d, i, old(dir[d0].ptes[i].frame), old(dir[d0].ptes[i].dirty))
      ensures old(dir[d0].ptes[i].frame) >= LOW ==> Abs() == DuplicateShared(old(Abs()), d0, i, d)
    {
      var e := dir[d0].ptes[i];
      var thisPage := Present(e.frame, false, e.dirty);
      if e.frame >= LOW {
        WritePte(d0, i, thisPage);
        memMap := memMap[e.frame - LOW := memMap[e.frame - LOW] + 1];
      }
      WritePte(d, i, thisPage);
    }

    method CopySwapped(d0: int, i: int, d: int, f: nat)
      requires CanDuplicateSwapped(Abs(), d0, i, d, f)
      modifies `dir, `ram, `held
      ensures Abs() == DuplicateSwapped(old(Abs()), d0, i, d, f).(bitmap := old(bitmap))
    {
      var n := dir[d0].ptes[i].slot;
      ram := ram[f := swap[n]];
      WritePte(d0, i, Present(f, true, true));
      WritePte(d, i, Swapped(n));
      held := held - {f};
    }

    /** The body of the inner loop of copy_page_tables. */
    method CopyEntry(ghost s0: State, p: int, c: int, k: int, j: int) returns (ok: bool)
      requires Copying(s0, Abs(), p, c, k, j) && Related(s0.tasks, p, c) && 0 <= k < s0.tasks[c].dirs && k < TASK_DIRS
      requires 0 <= j < ENTRIES && (p == 0 ==> k == 0 && j < 160)
      requires HasTable(Abs(), Twin(k, p)) && HasTable(Abs(), Twin(k, c))
      modifies `dir, `memMap, `ram, `held
      ensures Copying(s0, Abs(), p, c, k, if ok then j + 1 else j)
      ensures HasTable(Abs(), Twin(k, p)) && HasTable(Abs(), Twin(k, c))
      ensures |FreeFrames(Abs())| == |FreeFrames(old(Abs()))| - if ok then Bit(Entry(s0, Twin(k, p), j).Swapped?) else 0
      ensures !ok ==> Entry(s0, Twin(k, p), j).Swapped? && |FreeFrames(Abs())| == 0
    {
      hide Core, Clean, View, Backing, Duplicated, EntriesKept, Copying, FreeFrames;
      hide DuplicateSwapped, DuplicateShared, PutShared;
      ghost var s := Abs();
      CopyReadable(s0, s, p, c, k, j);
      CopyInv(s0, s, p, c, k, j);
      var d0, d := Twin(k, p), Twin(k, c);
      var e := dir[d0].ptes[j];
      if e == None {
        CopyNothing(s0, s, p, c, k, j);
        return true;
      }
      if e.Swapped? {
        var f := TakeFree();
        if f == 0 {
          NoneFreeIs(s);
          return false;
        }
        DuplicateSwappedKeeps(s, d0, j, d, f);
        CopyKeepsSlot(s, d0, j, d, f);
        CopyOne(s0, s, DuplicateSwapped(Claim(s, f), d0, j, d, f), p, c, k, j);
        DuplicateSwappedFrees(s, d0, j, d, f);
        DuplicatedTables(s, DuplicateSwapped(Claim(s, f), d0, j, d, f), d0, j, d);
        CopySwapped(d0, j, d, f);
      } else {
        FrameInRange(s, d0, j);
        if e.frame < LOW {
          DuplicateLow(s, d0, j, d);
          CopyOne(s0, s, PutShared(s, d, j, e.frame, e.dirty), p, c, k, j);
          DuplicateLowFrees(s, d, j, e.frame, e.dirty);
          DuplicatedTables(s, PutShared(s, d, j, e.frame, e.dirty), d0, j, d);
        } else {
          DuplicateSharedKeeps(s, d0, j, d);
          CopyOne(s0, s, DuplicateShared(s, d0, j, d), p, c, k, j);
          DuplicateSharedFrees(s, d0, j, d);
          DuplicatedTables(s, DuplicateShared(s, d0, j, d), d0, j, d);
        }
        CopyPresent(d0, j, d);
      }
      ok := true;
    }

    /** The inner loop of copy_page_tables: all entries of the parent's k-th table, or the first 160 of task 0's; j is
        where it ended. */
    method CopyTable(ghost s0: State, p: int, c: int, k: int) returns (ok: bool, ghost j: nat)
      requires Copying(s0, Abs(), p, c, k, 0) && Related(s0.tasks, p, c) && 0 <= k < s0.tasks[c].dirs && k < TASK_DIRS
      requires (p == 0 ==> k == 0) && HasTable(Abs(), Twin(k, p)) && HasTable(Abs(), Twin(k, c))
      modifies `dir, `memMap, `ram, `held
      ensures Copying(s0, Abs(), p, c, k, j) && (if ok then j == Width(p) else j < Width(p))
      ensures |FreeFrames(old(Abs()))| == |FreeFrames(Abs())| + SwapsIn(s0.dir, Twin(k, p), j)
      ensures !ok ==> Entry(s0, Twin(k, p), j).Swapped? && |FreeFrames(Abs())| == 0
    {
      hide Core, Clean, View, Copying, FreeFrames;
      var nr := if p == 0 then 160 else ENTRIES;
      var n := 0;
      ok := true;
      while n < nr && ok
        invariant 0 <= n <= nr
        invariant Copying(s0, Abs(), p, c, k, n)
        invariant HasTable(Abs(), Twin(k, p)) && HasTable(Abs(), Twin(k, c))
        invariant |FreeFrames(old(Abs()))| == |FreeFrames(Abs())| + SwapsIn(s0.dir, Twin(k, p), n)
        invariant !ok ==> n < nr && Entry(s0, Twin(k, p), n).Swapped? && |FreeFrames(Abs())| == 0
        decreases ok, nr - n
      {
        ok := CopyEntry(s0, p, c, k, n);
        if ok {
          n := n + 1;
        }
      }
      j := n;
    }

    /** copy_page_tables. It goes through if and only if there is a frame for each table and each page in swap; else
        (k, j) is where it stopped. */
    method CopyPageTables(p: int, c: int) returns (ok: bool, ghost k: int, ghost j: int)
      requires Inv(Abs()) && Related(tasks, p, c) && (p == 0 ==> tasks[c].dirs == 1)
      requires forall d :: IsDir(d) && Owns(c, d) ==> !HasTable(Abs(), d)
      modifies `dir, `memMap, `ram, `held
      ensures ok <==> |FreeFrames(old(Abs()))| >= Used(old(dir), p, tasks[c].dirs)
      ensures ok ==> Copied(old(Abs()), Abs(), p, c)
      ensures ok ==> |FreeFrames(old(Abs()))| == |FreeFrames(Abs())| + Used(old(dir), p, tasks[c].dirs)
      ensures !ok ==> CopyStopped(old(Abs()), Abs(), p, c, k, j) && RunsOut(old(dir), p, k, j, |FreeFrames(old(Abs()))|)
      ensures !ok ==> k < tasks[c].dirs
    {
      hide Core, Clean, View, CopyStopped, Copied, FreeFrames;
      ghost var s0 := Abs();
      CopyStarts(s0, p, c);
      ShapeOf(s0);
      assert IsTask(c) && TaskOk(cfg, tasks[c]);
      var x := 0;
      k, j := 0, 0;
      while x < tasks[c].dirs
        invariant 0 <= x <= tasks[c].dirs <= TASK_DIRS
        invariant if p == 0 && x > 0 then Copying(s0, Abs(), p, c, 0, 160) else Copying(s0, Abs(), p, c, x, 0)
        invariant forall d :: IsDir(d) && Owns(c, d) && d % TASK_DIRS >= x ==> !HasTable(Abs(), d)
        invariant |FreeFrames(s0)| == |FreeFrames(Abs())| + Used(s0.dir, p, x)
      {
        ok, j := CopyDir(s0, p, c, x);
        if !ok {
          k := x;
          RunsOutMeans(s0.dir, p, k, j, |FreeFrames(s0)|, tasks[c].dirs);
          return;
        }
        x := x + 1;
      }
      FinishCopying(s0, Abs(), p, c);
      ok := true;
    }

    /** One turn of the outer loop: nothing to do if the parent has no table, else a fresh table and its entries. */
    method CopyDir(ghost s0: State, p: int, c: int, k: int) returns (ok: bool, ghost j: nat)
      requires Copying(s0, Abs(), p, c, k, 0) && Related(s0.tasks, p, c) && 0 <= k < s0.tasks[c].dirs && k < TASK_DIRS
      requires p == 0 ==> k == 0
      requires forall d :: IsDir(d) && Owns(c, d) && d % TASK_DIRS >= k ==> !HasTable(Abs(), d)
      modifies `dir, `memMap, `ram, `held
      ensures ok ==> if p == 0 then Copying(s0, Abs(), p, c, 0, 160) else Copying(s0, Abs(), p, c, k + 1, 0)
      ensures ok ==> forall d :: IsDir(d) && Owns(c, d) && d % TASK_DIRS > k ==> !HasTable(Abs(), d)
      ensures ok ==> |FreeFrames(old(Abs()))| == |FreeFrames(Abs())| + Used(s0.dir, p, k + 1) - Used(s0.dir, p, k)
      ensures !ok ==> CopyStopped(s0, Abs(), p, c, k, j)
      ensures !ok ==> RunsOut(s0.dir, p, k, j, |FreeFrames(old(Abs()))| + Used(s0.dir, p, k))
    {
      hide Core, Clean, View, Copying, CopyStopped, Twin, Owns, FreeFrames;
      ghost var s := Abs();
      TwinOwned(k, c);
      CopyReadable(s0, s, p, c, k, 0);
      CopyInv(s0, s, p, c, k, 0);
      j := 0;
      var d0, d := Twin(k, p), Twin(k, c);
      if dir[d0].NoTable? {
        CopySkipsTable(s0, s, p, c, k);
        SwapsTabled(s0.dir, d0, Width(p));
        return true, 0;
      }
      var f := TakeFree();
      if f == 0 {
        NoneFreeIs(s);
        StopCopying(s0, s, p, c, k, 0);
        return false, 0;
      }
      CopyAddsTable(s0, s, p, c, k, f);
      NewTableFrees(s, d, f);
      dir := dir[d := Table(f, EmptyTable())];
      held := held - {f};
      assert Abs() == NewTable(Claim(s, f), d, f);
      ok, j := CopyTable(s0, p, c, k);
      StopCopying(s0, Abs(), p, c, k, j);
      if ok {
        CopyInv(s0, Abs(), p, c, k, j);
        if p > 0 {
          CopyNextTable(s0, Abs(), p, c, k);
        }
      }
    }

    // -------------------------------------------------------------- tasks

    /** The memory part of sys_fork: a page for the task struct, then the tables; on failure everything goes back. It
        succeeds if and only if there is a frame for the struct, for each table and for each page in swap. */
    method Fork(p: int, c: int) returns (ok: bool, page: nat, ghost k: int, ghost j: int)
      requires Inv(Abs()) && CanFork(tasks, p, c) && structs[c] == 0
      modifies `dir, `memMap, `ram, `bitmap, `held, `tasks, `structs
      ensures ok <==> |FreeFrames(old(Abs()))| >= Need(old(dir), p, ChildOf(old(tasks), p).dirs)
      ensures ok ==> Forked(old(Abs()), Abs(), p, c, page)
      ensures !ok ==> ForkFailed(old(Abs()), Abs(), p, k, j)
    {
      hide Core, Clean, View, CopyStopped, Copied, Undone, Forked, FreeFrames, RunsOut;
      ghost var s := Abs();
      ShapeOf(s);
      k, j := 0, 0;
      page := TakeFree();
      if page == 0 {
        NothingDone(s, p);
        NoneFreeIs(s);
        return false, 0, 0, 0;
      }
      ForkBegins(s, p, c, page);
      structs := structs[c := page];
      tasks := tasks[c := if p == 0 then Live(0, 0, 1) else tasks[p]];
      assert Abs() == ForkStart(s, p, c, page);
      ok, k, j := CopyPageTables(p, c);
      if ok {
        ForkEnds(s, Abs(), p, c, page);
        return;
      }
      ghost var s3 := Abs();
      StoppedInv(ForkStart(s, p, c, page), s3, p, c, k, j);
      FreePageTables(c);
      ForkUndone(s, s3, Abs(), p, c, page, k, j);
      GiveBack(c, page);
    }

    method GiveBack(c: int, page: nat)
      requires 0 <= c < |tasks| && c < |structs| && |memMap| == PAGING_PAGES
      requires LOW <= page < FRAMES && page < cfg.hi && Count(Abs(), page) == 1
      modifies `tasks, `structs, `memMap, `held
      ensures Abs() == ForkBack(old(Abs()), c, page)
    {
      tasks := tasks[c := Dead];
      structs := structs[c := 0];
      FreePage(page);
      held := held - {page};
    }

    /** The memory part of release. */
    method Reap(t: int)
      requires Inv(Abs()) && StructsOk(Abs()) && IsTask(t) && tasks[t].Dead? && structs[t] != 0
      modifies `structs, `memMap, `held
      ensures Reaped(old(Abs()), Abs(), t) && StructsOk(Abs())
    {
      hide Core, Clean, View, Reaped, StructsOk;
      StructsSized(Abs());
      ReapKeeps(Abs(), t);
      var page := structs[t];
      structs := structs[t := 0];
      FreePage(page);
      held := held - {page};
    }

    /** The memory part of do_exit. */
    method Exit(t: int)
      requires Inv(Abs()) && 1 <= t < NR_TASKS && tasks[t].Live?
      modifies `dir, `memMap, `bitmap, `tasks
      ensures Replaced(old(Abs()), Abs(), t, Dead)
    {
      hide Core, Clean, View, OnlyTask, Replaced;
      FreePageTables(t);
      ReplaceTask(old(Abs()), Abs(), t, Dead);
      tasks := tasks[t := Dead];
      assert IsTask(t);
    }

    /** The pages that copy_strings fills, taken one by one; on failure those it has got go back. */
    method Gather(args: seq<Page>) returns (ok: bool, fs: seq<nat>)
      requires Inv(Abs())
      modifies `memMap, `ram, `held
      ensures ok <==> |FreeFrames(old(Abs()))| >= |args|
      ensures ok ==> |fs| == |args| && Gathered(old(Abs()), Abs(), fs, args)
      ensures !ok ==> Unseen(old(Abs()), Abs()) && dir == old(dir)
    {
      hide Core, Clean, View, FreeFrames, Gathered;
      ghost var s := Abs();
      NoneGathered(s, args);
      fs := [];
      while |fs| < |args|
        invariant |fs| <= |args| && Gathered(s, Abs(), fs, args) && dir == s.dir
      {
        ghost var s1 := Abs();
        GatheredInv(s, s1, fs, args);
        var f := TakeFree();
        if f == 0 {
          NoneFreeIs(s1);
          GiveBackAll(s, fs, args);
          return false, [];
        }
        GatherOne(s, s1, fs, args, f);
        ram := ram[f := args[|fs|]];
        fs := fs + [f];
      }
      GatheredInv(s, Abs(), fs, args);
      ok := true;
    }

    method GiveBackAll(ghost s: State, fs: seq<nat>, ghost args: seq<Page>)
      requires Gathered(s, Abs(), fs, args)
      modifies `memMap, `held
      ensures Unseen(s, Abs())
    {
      hide Core, Clean, View, FreeFrames, Gathered;
      var k := |fs|;
      assert fs[..k] == fs;
      while k > 0
        invariant 0 <= k <= |fs| && Gathered(s, Abs(), fs[..k], args)
      {
        assert fs[..k][..k - 1] == fs[..k - 1];
        GiveOne(s, Abs(), fs[..k], args);
        FreePage(fs[k - 1]);
        held := held - {fs[k - 1]};
        k := k - 1;
      }
      assert fs[..0] == [];
      AllGiven(s, Abs(), args);
    }

    /** The memory part of do_execve: pages for the arguments, the old image goes, the segment becomes 64MB, and
        change_ldt puts the pages in place. It fails if there are not enough frames for the arguments. Their table is
        taken after the old tables have gone, so for a task that had a table there is always a frame for it. */
    method Exec(t: int, exe: nat, args: seq<Page>) returns (ok: bool, placed: bool)
      requires Inv(Abs()) && 1 <= t < NR_TASKS && tasks[t].Live? && exe < |cfg.files| && |args| <= MAX_ARG_PAGES
      modifies `dir, `memMap, `ram, `bitmap, `held, `tasks
      ensures ok <==> |FreeFrames(old(Abs()))| >= |args|
      ensures !ok ==> Unseen(old(Abs()), Abs())
      ensures ok ==>
                Executed(old(Abs()), Abs(), t, Live(exe, old(tasks[t].lib), TASK_DIRS), if placed then args else [])
      ensures ok ==> (placed <==> args == [] || HasSome(old(dir), t) || |FreeFrames(old(Abs()))| > |args|)
      ensures ok && placed ==> held == old(held)
      ensures ok ==> Starts(Abs(), t, exe, old(tasks[t].lib), if placed then args else [])
    {
      hide Core, Clean, View, OnlyTask, FreeFrames, Gathered, Executed, Cleared, HasSome, Starts;
      ghost var s := Abs();
      assert IsTask(t) && TaskOk(cfg, tasks[t]) && |tasks| == NR_TASKS by { ShapeOf(s); }
      var task := Live(exe, tasks[t].lib, TASK_DIRS);
      var fs: seq<nat>;
      ok, fs := Gather(args);
      if !ok {
        return false, false;
      }
      ghost var s1 := Abs();
      GatheredInv(s, s1, fs, args);
      FreePageTables(t);
      ghost var s2 := Abs();
      ClearTask(s, s1, s2, t, task, fs, args);
      tasks := tasks[t := task];
      ghost var s3 := Abs();
      ClearedFrees(s, s1, s2, s3, t, fs, args);
      placed := PlaceArgs(s, t, fs, args, task);
      ExecutedStarts(s, Abs(), t, exe, task.lib, if placed then args else []);
    }

    /** The loop of change_ldt. */
    method PlaceArgs(ghost s: State, t: int, fs: seq<nat>, ghost args: seq<Page>, ghost task: Task)
      returns (placed: bool)
      requires Cleared(s, Abs(), t, task, fs, args) && |fs| == |args| <= MAX_ARG_PAGES && 1 <= t < NR_TASKS
      requires task.Live? && task.dirs == TASK_DIRS
      modifies `dir, `memMap, `ram, `bitmap, `held
      ensures Executed(s, Abs(), t, task, if placed then args else []) && (placed ==> held == s.held)
      ensures placed <==> args == [] || |FreeFrames(old(Abs()))| > 0
    {
      hide Core, Clean, View, FreeFrames, Executed, Cleared, Placing;
      ghost var s1 := Abs();
      ClearedReadable(s, s1, t, task, fs, args);
      NonePlaced(s1, t, fs, args);
      var d := Twin(ARG_DIR, t);
      var k := |fs|;
      while k > 0
        invariant 0 <= k <= |fs| && Placing(s1, Abs(), t, fs, args, k)
        invariant Inv(Abs()) && tasks == s1.tasks && |dir| == ENTRIES
        invariant if k == |fs| then Abs() == s1 else HasTable(Abs(), d) && |FreeFrames(s1)| > 0
      {
        ArgPlace(t, |args|, k);
        if dir[d].NoTable? {
          ghost var s2 := Abs();
          var f := TakeFree();
          NoneFreeIs(s2);
          if f == 0 {
            NoArgs(s, s1, t, task, fs, args);
            return false;
          }
          PlaceTable(s1, s2, t, fs, args, k, f);
          dir := dir[d := Table(f, EmptyTable())];
          held := held - {f};
          assert Abs() == NewTable(Claim(s2, f), d, f);
        }
        PlaceOne(s1, Abs(), t, fs, args, k);
        PutDirtyPage(d, ENTRIES - |fs| + k - 1, fs[k - 1]);
        k := k - 1;
        PlacingInv(s1, Abs(), t, fs, args, k);
      }
      AllPlaced(s, s1, Abs(), t, task, fs, args);
      placed := true;
    }

    /** The end of put_dirty_page. */
    method PutDirtyPage(d: int, i: int, f: nat)
      requires HasTable(Abs(), d) && 0 <= i < |dir[d].ptes| && Entry(Abs(), d, i) == None
      modifies `dir, `held
      ensures Abs() == Install(old(Abs()), d, i, f, true)
    {
      WritePte(d, i, Present(f, true, true));
      held := held - {f};
    }

    // -------------------------------------------------------------- write_verify

    /** write_verify: before the kernel stores into a task's page, a page the task may not write is unprotected. No view
        changes; but the promise about clean pages is kept only under VerifyKeeps. */
    method WriteVerify(d: int, i: int) returns (ok: bool)
      requires Inv(Abs()) && IsUser(d, i)
      modifies `dir, `memMap, `ram, `bitmap, `swap, `held
      ensures ok ==> Core(Abs()) && SameViews(old(Abs()), Abs()) && SameWorld(old(Abs()), Abs())
      ensures ok ==> (Inv(Abs()) <==> VerifyKeeps(old(Abs()), d, i))
      ensures ok && Copies(old(Abs()), d, i) ==>
                Entry(Abs(), d, i).Present? && Entry(Abs(), d, i).frame >= LOW && !Entry(Abs(), d, i).dirty
      ensures !ok ==> Abs() == old(Abs()) && NoneFree(Abs()) && Copies(old(Abs()), d, i)
    {
      hide Core, Clean, SameViews, CleanElsewhere, NoneFree;
      ghost var s := Abs();
      UnseenRefl(s);
      EntryReadable(s, d, i);
      if dir[d].NoTable? {
        return true;
      }
      var e := dir[d].ptes[i];
      if e.Present? && !e.rw {
        CleanAround(s, d, i);
        ok := UnWpPage(d, i);
        if ok {
          VerifiedInv(s, Abs(), d, i);
        }
        return;
      }
      ok := true;
    }

    /** Whatever the state: task p stores to a page it may write and forks, the kernel verifies the child's page for
        writing, and swap_out comes by. All four go ahead, and the child has lost what its parent stored. */
    method LoseStore(p: int, c: int, d: int, i: int, offset: nat, b: Byte, inUse: bool)
      requires Inv(Abs()) && CanFork(tasks, p, c) && p > 0 && structs[c] == 0 && IsUser(d, i) && Owns(p, d)
      requires Entry(Abs(), d, i).Present? && Entry(Abs(), d, i).rw
      requires offset < PAGE_SIZE && b != Backing(Abs(), d, i)[offset]
      requires |FreeFrames(Abs())| > Need(dir, p, tasks[p].dirs)
      modifies this
      ensures IsUser(Twin(d, c), i) && Owns(c, Twin(d, c)) && tasks == old(tasks)[c := old(tasks)[p]]
      ensures View(Abs(), d, i)[offset] == b && View(Abs(), Twin(d, c), i)[offset] != b
    {
      hide Core, Clean, SameViews, View, FreeFrames, Used, WriteThrough, Forked, CleanElsewhere, Unprotected;
      ghost var s := Abs();
      PresentIsLive(s, d, i);
      var ok := Store(d, i, offset, b, inUse);
      ghost var s1 := Abs();
      StoreFrees(s, d, i, View(s, d, i)[offset := b], p, s.tasks[p].dirs);
      StoreEntry(s, d, i, View(s, d, i)[offset := b]);
      var page;
      ghost var k, j;
      ok, page, k, j := Fork(p, c);
      ghost var s2 := Abs();
      ForkedFrees(s1, s2, p, c, page, d, i);
      InheritedIsShared(s1, s2, p, c, page, d, i);
      var x := Twin(d, c);
      NoneFreeIs(s2);
      ok := WriteVerify(x, i);
      ghost var s3 := Abs();
      EntryReadable(s3, x, i);
      var out := TryToSwapOut(x, i);
      WentClean(s2, s3, Abs(), d, x, i);
    }

    // -------------------------------------------------------------- whole runs

    /** One request of a task or of the kernel. */
    method Carry(r: Request) returns (a: Reply)
      requires Valid()
      modifies this
      ensures Valid() && Carried(cfg.files, old(Seen(Abs())), Seen(Abs()), r, a)
      ensures a.Failed? <==> Refused(old(Abs()), old((dirEntry, pageEntry)), r)
      ensures Moved(old(Abs()), old((dirEntry, pageEntry)), r, a, Abs(), (dirEntry, pageEntry))
      ensures Charged(old(Abs()), r, a, Abs())
    {
      hide Core, Clean, View, Seen, Next, Stored, Forked, Undone, Replaced, Reaped, FreeFrames;
      hide NoneFree, StructsOk, Need, LoadNeed, StoreNeed;
      hide Executed, HasSome;
      hide InReach, Marked, RunsOut, Refused;
      ghost var s := Abs();
      a := Failed;
      StructsSized(s);
      RefusedIs(s, (dirEntry, pageEntry), r);
      if !Allowed(cfg.files, dir, tasks, UsedSlots(structs), r) {
        return;
      }
      match r {
        case Read(d, i, inUse) =>
          var ok, p := Load(d, i, inUse);
          SeenSame(s, Abs());
          StructsSame(s, Abs());
          NextSame(cfg.files, s, r);
          SeenPage(s, d, i);
          a := if ok then Value(p) else Failed;
        case Write(d, i, offset, b, inUse) =>
          var ok := Store(d, i, offset, b, inUse);
          if ok {
            SeenStore(s, Abs(), d, i, offset, b, inUse);
            StoredInv(s, Abs(), d, i, View(s, d, i)[offset := b]);
            a := Done;
          } else {
            SeenSame(s, Abs());
          }
          StructsSame(s, Abs());
        case Spawn(p, c) =>
          var ok, page;
          ghost var k, j;
          ok, page, k, j := Fork(p, c);
          if ok {
            SeenFork(s, Abs(), p, c, page);
            ForkedInv(s, Abs(), p, c, page);
            StructsForked(s, Abs(), p, c, page);
            a := Done;
          } else {
            SeenUndone(s, Abs(), p, k, j);
            UndoneInv(s, Abs(), p, k, j);
            StructsSame(s, Abs());
          }
        case Quit(t) =>
          Exit(t);
          SeenReplaced(s, Abs(), t, r);
          ReplacedInv(s, Abs(), t, Dead);
          StructsSame(s, Abs());
          a := Done;
        case Reap(t) =>
          this.Reap(t);
          SeenReaped(s, Abs(), t);
          ReapedInv(s, Abs(), t);
          a := Done;
        case Exec(t, exe, args) =>
          var ok, placed := this.Exec(t, exe, args);
          if ok {
            SeenReplaced(s, Abs(), t, r);
            ExecutedInv(s, Abs(), t, Live(exe, s.tasks[t].lib, TASK_DIRS), args);
            a := Done;
          } else {
            SeenSame(s, Abs());
          }
          StructsSame(s, Abs());
        case Reclaim =>
          var out := SwapOut();
          if out {
            SeenSame(s, Abs());
            StructsSame(s, Abs());
            NextSame(cfg.files, s, r);
            a := Done;
          }
      }
    }

    /** Any run of requests does to the tasks' pages what it would do if every task had memory of its own, at every
        point of the run; the kernel never holds a frame but for task structs, so none leaks; and a request fails if
        and only if the state it meets has not what it takes. marks are swap_out's. */
    method Run(rs: seq<Request>) returns (as_: seq<Reply>, ghost trace: seq<State>, ghost marks: seq<(int, int)>)
      requires Valid()
      modifies this
      ensures Valid() && |as_| == |rs| && |marks| == |rs| + 1
      ensures marks[0] == old((dirEntry, pageEntry)) && marks[|rs|] == (dirEntry, pageEntry)
      ensures |trace| == |rs| + 1 && trace[0] == old(Abs()) && trace[|rs|] == Abs()
      ensures forall k :: 0 <= k <= |rs| ==> Inv(trace[k]) && StructsOk(trace[k])
      ensures forall k :: 0 <= k <= |rs| ==> Seen(trace[k]) == Replay(cfg.files, old(Seen(Abs())), rs[..k], as_[..k])
      ensures forall k :: 0 <= k < |rs| ==> (as_[k].Failed? <==> Refused(trace[k], marks[k], rs[k]))
      ensures forall k :: 0 <= k < |rs| ==> Moved(trace[k], marks[k], rs[k], as_[k], trace[k + 1], marks[k + 1])
      ensures forall k :: 0 <= k < |rs| ==> Charged(trace[k], rs[k], as_[k], trace[k + 1])
      ensures Answered(cfg.files, old(Seen(Abs())), rs, as_)
    {
      hide Core, Clean, View, Seen, Next, Refused, Moved, Charged, Answered, Replay, StructsOk, Inv;
      ghost var m := Seen(Abs());
      EmptyRun(cfg.files, m);
      as_, trace, marks := [], [Abs()], [(dirEntry, pageEntry)];
      assert rs[..0] == [] && as_[..0] == [];
      for k := 0 to |rs|
        invariant Valid() && |as_| == k && |marks| == k + 1 && |trace| == k + 1
        invariant trace[0] == old(Abs()) && trace[k] == Abs()
        invariant marks[0] == old((dirEntry, pageEntry)) && marks[k] == (dirEntry, pageEntry)
        invariant forall j :: 0 <= j <= k ==> Inv(trace[j]) && StructsOk(trace[j])
        invariant forall j :: 0 <= j <= k ==> Seen(trace[j]) == Replay(cfg.files, m, rs[..j], as_[..j])
        invariant forall j :: 0 <= j < k ==> (as_[j].Failed? <==> Refused(trace[j], marks[j], rs[j]))
        invariant forall j :: 0 <= j < k ==> Moved(trace[j], marks[j], rs[j], as_[j], trace[j + 1], marks[j + 1])
        invariant forall j :: 0 <= j < k ==> Charged(trace[j], rs[j], as_[j], trace[j + 1])
        invariant Answered(cfg.files, m, rs[..k], as_)
      {
        assert as_[..k] == as_;
        var a := Carry(rs[k]);
        RunGrows(cfg.files, m, Seen(Abs()), rs[..k], as_, rs[k], a);
        assert rs[..k] + [rs[k]] == rs[..k + 1];
        ghost var was := as_;
        as_, trace, marks := as_ + [a], trace + [Abs()], marks + [(dirEntry, pageEntry)];
        assert as_[..k + 1] == as_;
        forall j | 0 <= j <= k ensures as_[..j] == was[..j] { }
      }
      assert rs[..|rs|] == rs;
    }
  }

  /** bread_page and the loop that clears what lies past end_data. */
  method ReadPage(files: seq<File>, inode: nat, offset: nat, endData: nat) returns (p: Page)
    ensures p == ClearTail(FilePage(files, inode, SourceBlock(offset)), offset + PAGE_SIZE - endData)
    ensures offset % 4096 == 0 ==> ReadIn(files, inode, offset, endData, p)
  {
    var block := SourceBlock(offset);
    var bytes: seq<Byte> := [];
    for k := 0 to 4
      invariant bytes == Blocks(files, inode, block, k)
    {
      bytes := bytes + FileBlock(files, inode, block + k);
    }
    p := bytes;
    var i := offset + PAGE_SIZE - endData;
    if i > PAGE_SIZE - 1 {
      i := 0;
    }
    var end := PAGE_SIZE;
    ghost var n := if i > 0 then i else 0;
    while i > 0
      invariant i <= end <= PAGE_SIZE && n == PAGE_SIZE - end + (if i > 0 then i else 0) && n < PAGE_SIZE
      invariant p[..end] == bytes[..end]
      invariant forall k :: end <= k < PAGE_SIZE ==> p[k] == 0
    {
      end := end - 1;
      p := p[end := 0];
      i := i - 1;
    }
    assert p == bytes[..end] + ZeroPage()[..PAGE_SIZE - end];
    if offset % 4096 == 0 { ReadBytes(files, inode, offset, endData, p); }
  }

  lemma ScanFindsFree(s: State, f: nat)
    requires Core(s)
    requires f == 0 || (IsFrame(f) && s.memMap[f - LOW] == 0)
    requires forall k :: 0 <= k < PAGING_PAGES && (f == 0 || f - LOW < k) ==> s.memMap[k] != 0
    ensures f != 0 ==> IsFree(s, f)
    ensures forall g :: (f == 0 || f < g) ==> !IsFree(s, g)
  {
    if f != 0 { assert FrameOk(s, f); }
    forall g | f == 0 || f < g ensures !IsFree(s, g) {
      if Pool(s, g) { assert Count(s, g) == s.memMap[g - LOW]; }
    }
  }

  lemma StructsSized(s: State)
    requires StructsOk(s)
    ensures |s.structs| == NR_TASKS && |s.tasks| == NR_TASKS
  {
  }

  lemma CleanAround(s: State, d: int, i: int)
    requires Inv(s)
    ensures CleanElsewhere(s, d, i)
  {
  }

  lemma PresentIsLive(s: State, d: int, i: int)
    requires Inv(s) && IsUser(d, i) && Entry(s, d, i).Present?
    ensures LiveDir(s, d) && CanWrite(s, d, i)
  {
    EntryReadable(s, d, i);
    assert IsDir(d) && DirOk(s, d);
  }

  lemma StoreEntry(s: State, d: int, i: int, page: Page)
    requires Inv(s) && IsUser(d, i) && CanWrite(s, d, i) && Entry(s, d, i).rw
    ensures var s1 := WriteThrough(s, d, i, page);
      Entry(s1, d, i) == Present(Entry(s, d, i).frame, true, true) && LOW <= Entry(s, d, i).frame &&
      s1.tasks == s.tasks && s1.structs == s.structs && Backing(s1, d, i) == Backing(s, d, i)
  {
    WriterIsAlone(s, d, i);
    SetPteAt(s.dir, d, i, Present(Entry(s, d, i).frame, true, true));
  }

  lemma ForkedFrees(s: State, s': State, p: int, c: int, page: nat, d: int, i: int)
    requires Forked(s, s', p, c, page) && CanFork(s.tasks, p, c) && p > 0 && IsUser(d, i) && Owns(p, d)
    ensures Inv(s') && |FreeFrames(s')| == |FreeFrames(s)| - Need(s.dir, p, s.tasks[p].dirs)
    ensures View(s', d, i) == View(s, d, i) && s'.tasks == s.tasks[c := s.tasks[p]]
  {
  }

  /** A clean page dropped shows what a fault would read in. */
  lemma WentClean(s: State, s1: State, s2: State, d: int, x: int, i: int)
    requires Core(s1) && IsUser(d, i) && IsUser(x, i) && d != x && SameViews(s, s1) && SameWorld(s, s1)
    requires Entry(s1, x, i).Present? && !Entry(s1, x, i).dirty && WentOut(s1, s2, x, i)
    ensures View(s2, x, i) == Backing(s, x, i) && View(s2, d, i) == View(s, d, i) && s2.tasks == s.tasks
  {
    UnmapSeen(s1, x, i);
    hide Core;
    assert SameView(s1, s2, d, i);
  }
}

/** What a page fault does: reading a page in, sharing one, and the store that follows. */
module PagingFaults {
  import opened Basics
  import opened PagingModel
  import opened PagingSteps
  import opened PagingTables
  import opened PagingOps

  /** Every page of every task still shows what it showed. */
  ghost predicate Unseen(s: State, s': State) {
    Inv(s') && SameViews(s, s') && SameWorld(s, s')
  }

  lemma UnseenAt(s: State, s': State, d: int, i: int)
    requires Unseen(s, s') && IsUser(d, i)
    ensures View(s', d, i) == View(s, d, i)
  {
  }

  lemma UnseenRefl(s: State)
    requires Inv(s)
    ensures Unseen(s, s)
  {
  }

  lemma UnseenTrans(s: State, s1: State, s2: State)
    requires Unseen(s, s1) && Unseen(s1, s2)
    ensures Unseen(s, s2)
  {
  }

  /** What a fault handler reads from the task and the tables. */
  lemma TaskReadable(s: State, d: int, i: int)
    requires Inv(s) && IsUser(d, i) && LiveDir(s, d)
    ensures |s.tasks| == NR_TASKS && |s.dir| == ENTRIES && |s.swap| == SWAP_BITS && |s.bitmap| == SWAP_BITS
    ensures HasTable(s, d) ==> |s.dir[d].ptes| == ENTRIES && Entry(s, d, i) == s.dir[d].ptes[i]
    ensures s.tasks[d / TASK_DIRS].Live? && TaskOk(s.cfg, s.tasks[d / TASK_DIRS])
    ensures Entry(s, d, i).Swapped? ==> IsSlot(Entry(s, d, i).slot)
    ensures Backing(s, d, i) == Fresh(s.cfg.files, s.tasks[d / TASK_DIRS], d, i)
  {
    assert IsDir(d) && DirOk(s, d) && EntryOk(s, d, i) && IsTask(d / TASK_DIRS);
  }

  // ---------------------------------------------------------------- a fresh page

  predicate CanInstall(s: State, d: int, i: int, f: nat) {
    HasTable(s, d) && 0 <= i < |s.dir[d].ptes| && f < |s.ram|
  }

  /** Frame f, already claimed, is filled and mapped at (d, i). */
  function PageIn(s: State, d: int, i: int, f: nat, p: Page, dirty: bool): State
    requires CanInstall(s, d, i, f)
  {
    Install(Fill(s, f, p), d, i, f, dirty)
  }

  lemma PageInKeeps(s: State, d: int, i: int, f: nat, p: Page, dirty: bool)
    requires Inv(s) && IsUser(d, i) && HasTable(s, d) && !Entry(s, d, i).Present? && IsFree(s, f)
    requires p == View(s, d, i) && (dirty || Entry(s, d, i) == None)
    ensures IsFrame(f) && CanInstall(Claim(s, f), d, i, f)
    ensures Unseen(s, PageIn(Claim(s, f), d, i, f, p, dirty))
    ensures Entry(PageIn(Claim(s, f), d, i, f, p, dirty), d, i).Present?
  {
    hide Core;
    EntryReadable(s, d, i);
    FreeIsUnnamed(s, f);
    ClaimKeeps(s, f);
    var s1 := Claim(s, f);
    FillKeeps(s1, f, p);
    InstallSeen(Fill(s1, f, p), d, i, f, dirty);
    PageInWorld(s, d, i, f, p, dirty);
  }

  lemma PageInWorld(s: State, d: int, i: int, f: nat, p: Page, dirty: bool)
    requires IsFrame(f) && |s.ram| == FRAMES && |s.memMap| == PAGING_PAGES
    requires CanInstall(s, d, i, f) && f !in s.held && IsDir(d)
    ensures SameWorld(s, PageIn(Claim(s, f), d, i, f, p, dirty))
  {
  }

  /** do_no_page gives the task a table first. */
  lemma TableInKeeps(s: State, d: int, f: nat)
    requires Inv(s) && LiveDir(s, d) && !HasTable(s, d) && IsFree(s, f)
    ensures IsFrame(f) && f < |s.ram| && |s.memMap| == PAGING_PAGES && d < |s.dir|
    ensures Unseen(s, NewTable(Claim(s, f), d, f)) && HasTable(NewTable(Claim(s, f), d, f), d)
    ensures SameEntries(s, NewTable(Claim(s, f), d, f))
  {
    hide Core;
    EntryReadable(s, d, 0);
    FreeIsUnnamed(s, f);
    ClaimKeeps(s, f);
    NewTableKeeps(Claim(s, f), d, f);
  }

  /** The page do_no_page reads, by cases on where the address lies. */
  lemma MissingPage(s: State, d: int, i: int)
    requires IsUser(d, i) && Entry(s, d, i) == None && |s.tasks| == NR_TASKS
    ensures var t := s.tasks[d / TASK_DIRS];
            var inode := SourceInode(s.cfg.files, t, Offset(d, i));
            if inode == 0 then View(s, d, i) == ZeroPage()
            else t.Live? && View(s, d, i) == ClearTail(FilePage(s.cfg.files, inode, SourceBlock(Offset(d, i))),
                                          Offset(d, i) + PAGE_SIZE - EndData(s.cfg.files, t.exe))
  {
  }

  // ---------------------------------------------------------------- sharing

  /** Two tasks that run the same file see the same fresh page at the same offset: for library pages
      because no image reaches as far up as the library. */
  lemma SharedBacking(s: State, d0: int, d: int, i: int)
    requires Shape(s) && IsUser(d0, i) && IsUser(d, i) && d0 % TASK_DIRS == d % TASK_DIRS
    requires s.tasks[d / TASK_DIRS].Live? && s.tasks[d0 / TASK_DIRS].Live?
    requires SourceInode(s.cfg.files, s.tasks[d / TASK_DIRS], Offset(d, i)) != 0
    requires SourceInode(s.cfg.files, s.tasks[d / TASK_DIRS], Offset(d, i)) ==
             if Offset(d, i) < LIBRARY_OFFSET then s.tasks[d0 / TASK_DIRS].exe else s.tasks[d0 / TASK_DIRS].lib
    ensures Backing(s, d0, i) == Backing(s, d, i)
  {
  }

  /** try_to_share: the clean page at (d0, i) becomes read-only there and is named at (d, i) too. */
  function ShareIn(s: State, d0: int, i: int, d: int): State
    requires CanShare(s, d0, i, d)
  {
    var f := Entry(s, d0, i).frame;
    PutShared(SetBits(s, d0, i, false, false), d, i, f, false)
  }

  predicate CanShare(s: State, d0: int, i: int, d: int) {
    HasTable(s, d0) && HasTable(s, d) && 0 <= i < |s.dir[d0].ptes| && i < |s.dir[d].ptes| && d0 != d &&
    Entry(s, d0, i).Present? && LOW <= Entry(s, d0, i).frame && Entry(s, d0, i).frame - LOW < |s.memMap|
  }

  lemma ShareKeeps(s: State, d0: int, i: int, d: int)
    requires Inv(s) && IsUser(d0, i) && IsUser(d, i) && HasTable(s, d) && d0 != d
    requires Entry(s, d, i) == None && Entry(s, d0, i).Present? && !Entry(s, d0, i).dirty
    requires LOW <= Entry(s, d0, i).frame && Backing(s, d0, i) == Backing(s, d, i) && SameOffset(d, i, d0, i)
    ensures CanShare(s, d0, i, d) && Unseen(s, ShareIn(s, d0, i, d)) && Entry(ShareIn(s, d0, i, d), d, i).Present?
  {
    hide Core;
    EntryReadable(s, d0, i);
    EntryReadable(s, d, i);
    var f := Entry(s, d0, i).frame;
    assert CleanAt(s, d0, i);
    SetBitsKeeps(s, d0, i, false, false);
    SetBitsSeen(s, d0, i, false, false);
    var s1 := SetBits(s, d0, i, false, false);
    SetPteAt(s.dir, d0, i, Present(f, false, false));
    SharePutKeeps(s1, d0, i, d, f);
  }

  lemma SharePutKeeps(s: State, d0: int, i: int, d: int, f: nat)
    requires Inv(s) && IsUser(d0, i) && IsUser(d, i) && HasTable(s, d) && d0 != d && LOW <= f < FRAMES
    requires Entry(s, d, i) == None && Entry(s, d0, i) == Present(f, false, false)
    requires s.ram[f] == View(s, d, i) && Backing(s, d0, i) == Backing(s, d, i) && SameOffset(d, i, d0, i)
    ensures |s.dir[d].ptes| == ENTRIES && Unseen(s, PutShared(s, d, i, f, false))
    ensures Entry(PutShared(s, d, i, f, false), d, i).Present?
  {
    hide Core;
    EntryReadable(s, d, i);
    PutSharedKeeps(s, d, i, f, false, d0, i);
    var s' := PutShared(s, d, i, f, false);
    PteChangeUnseen(s, s', d, i, Present(f, false, false));
    assert Backing(s', d, i) == Backing(s, d, i);
  }

  /** share_page's test that task p runs the file the missing page comes from. */
  predicate SameFile(tasks: seq<Task>, d: int, i: int, p: int, inode: nat)
    requires IsUser(d, i)
  {
    0 <= p < |tasks| && tasks[p].Live? && inode == if Offset(d, i) < LIBRARY_OFFSET then tasks[p].exe else tasks[p].lib
  }

  /** The directory entry of task p at the offset of d. */
  function Twin(d: int, p: int): int {
    p * TASK_DIRS + d % TASK_DIRS
  }

  /** Task p has the page to lend: present, clean and in counted memory. */
  predicate Lends(s: State, d: int, i: int, p: int) {
    var e := Entry(s, Twin(d, p), i);
    e.Present? && !e.dirty && LOW <= e.frame < s.cfg.hi
  }

  lemma TwinKeeps(s: State, d: int, i: int, p: int, inode: nat)
    requires Inv(s) && IsUser(d, i) && LiveDir(s, d) && HasTable(s, d) && Entry(s, d, i) == None
    requires 1 <= p < NR_TASKS && p != d / TASK_DIRS && SameFile(s.tasks, d, i, p, inode) && inode != 0
    requires inode == SourceInode(s.cfg.files, s.tasks[d / TASK_DIRS], Offset(d, i))
    requires Entry(s, Twin(d, p), i).Present? && !Entry(s, Twin(d, p), i).dirty && LOW <= Entry(s, Twin(d, p), i).frame
    ensures CanShare(s, Twin(d, p), i, d)
    ensures Unseen(s, ShareIn(s, Twin(d, p), i, d)) && Entry(ShareIn(s, Twin(d, p), i, d), d, i).Present?
  {
    hide Core;
    ShapeOf(s);
    var d0 := Twin(d, p);
    assert d0 / TASK_DIRS == p && d0 % TASK_DIRS == d % TASK_DIRS && IsUser(d0, i);
    SharedBacking(s, d0, d, i);
    ShareKeeps(s, d0, i, d);
  }

  lemma ShapeOf(s: State)
    requires Inv(s)
    ensures Shape(s)
  {
  }

  // ---------------------------------------------------------------- a store

  /** Only the page (d, i) looks different, and it shows p. */
  ghost predicate Stored(s: State, s': State, d: int, i: int, p: Page) {
    Inv(s') && SameWorld(s, s') && View(s', d, i) == p &&
    forall d2, i2 :: IsUser(d2, i2) ==> (d2, i2) != (d, i) ==> View(s', d2, i2) == View(s, d2, i2)
  }

  predicate CanWrite(s: State, d: int, i: int) {
    HasTable(s, d) && 0 <= i < |s.dir[d].ptes| && Entry(s, d, i).Present? && Entry(s, d, i).frame < |s.ram|
  }

  lemma StoreKeeps(s: State, s1: State, d: int, i: int, p: Page)
    requires Unprotected(s, s1, d, i) && IsUser(d, i)
    ensures CanWrite(s1, d, i) && Stored(s, WriteThrough(s1, d, i, p), d, i, p)
  {
    hide Core;
    EntryReadable(s1, d, i);
    WriteKeeps(s1, d, i, p);
    var s' := WriteThrough(s1, d, i, p);
    assert KernelSame(s1, s');
    forall d2, i2 | IsUser(d2, i2) && (d2, i2) != (d, i) ensures View(s', d2, i2) == View(s, d2, i2) {
      assert SameView(s1, s', d2, i2);
    }
  }

  lemma AlreadyWritable(s: State, d: int, i: int)
    requires Inv(s) && Entry(s, d, i).Present? && Entry(s, d, i).rw
    ensures Unprotected(s, s, d, i)
  {
  }

  /** A load that reads the page in, and the store that follows it. */
  lemma StoreAfterLoad(s: State, s1: State, s2: State, d: int, i: int, p: Page)
    requires Unseen(s, s1) && Unprotected(s1, s2, d, i) && IsUser(d, i)
    ensures CanWrite(s2, d, i) && Stored(s, WriteThrough(s2, d, i, p), d, i, p)
  {
    hide Core;
    StoreKeeps(s1, s2, d, i, p);
  }
}

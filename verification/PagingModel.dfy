/** The state of the virtual memory system (mm/memory.c, mm/swap.c) as a value: page directory,
    page tables, frame reference counts, swap bitmap; the invariant that ties them together; and
    the view each task has of its own memory, independent of where its pages happen to be. */
module PagingModel {
  import opened Basics

  const LOW: nat := 256                  // LOW_MEM >> 12: frames below it are never counted
  const FRAMES: nat := 4096              // (LOW_MEM + PAGING_MEMORY) >> 12
  const PAGING_PAGES: nat := 3840        // PAGING_MEMORY >> 12
  const USED: nat := 100
  const SWAP_BITS: nat := 32768
  const BLOCK_SIZE: nat := 1024
  const ENTRIES: nat := 1024             // entries in the directory and in each table
  const TASK_DIRS: nat := 16             // TASK_SIZE >> 22
  const LIBRARY_OFFSET: nat := 0x3C00000 // TASK_SIZE - LIBRARY_SIZE
  const MAX_IMAGE: nat := 0x3000000      // largest text + data + bss that exec accepts

  type Page = p: seq<Byte> | |p| == PAGE_SIZE witness seq(PAGE_SIZE, _ => 0)
  type Block = b: seq<Byte> | |b| == BLOCK_SIZE witness seq(BLOCK_SIZE, _ => 0)

  function ZeroPage(): Page {
    seq(PAGE_SIZE, _ => 0)
  }

  function ZeroBlock(): Block {
    seq(BLOCK_SIZE, _ => 0)
  }

  /** A page table entry: 0, a swap slot shifted left by one, or a frame with its R/W and dirty bits. */
  datatype Pte = None | Swapped(slot: nat) | Present(frame: nat, rw: bool, dirty: bool)

  /** A directory entry. The contents of the table are kept with the entry that owns the table's frame. */
  datatype Pde = NoTable | Table(frame: nat, ptes: seq<Pte>)

  /** What a task struct says about memory: its executable and library (0 for NULL) and the
      number of directory entries its segment limit spans. */
  datatype Task = Dead | Live(exe: nat, lib: nat, dirs: nat)

  /** An image file: its blocks from the header on, and the end_data its header announces. */
  datatype File = File(blocks: seq<Block>, endData: nat)

  /** What never changes after mem_init and sys_swapon: the pool of main memory frames
      [lo, hi), the usable swap slots, and the image files. */
  datatype Config = Config(lo: nat, hi: nat, usable: seq<bool>, files: seq<File>)

  datatype State = State(
    dir: seq<Pde>,
    memMap: seq<nat>,
    ram: seq<Page>,
    bitmap: seq<bool>,   // true: the swap slot is free
    swap: seq<Page>,
    held: set<nat>,      // frames the kernel holds for itself: task structs, pages not yet mapped
    tasks: seq<Task>,
    structs: seq<nat>,   // the frame of each task's struct, 0 for none
    cfg: Config)

  /** Somebody who names a frame. */
  datatype Ref = ByPte(d: int, i: int) | ByDir(d: int) | ByKernel

  datatype Addr = Addr(d: int, i: int)

  // ---------------------------------------------------------------- reading the state

  predicate IsUser(d: int, i: int) {
    TASK_DIRS <= d < ENTRIES && 0 <= i < ENTRIES
  }

  predicate IsFrame(f: int) {
    LOW <= f < FRAMES
  }

  predicate IsSlot(n: int) {
    1 <= n < SWAP_BITS
  }

  predicate IsDir(d: int) {
    TASK_DIRS <= d < ENTRIES
  }

  function At(dir: seq<Pde>, d: int, i: int): Pte {
    if 0 <= d < |dir| && dir[d].Table? && 0 <= i < |dir[d].ptes| then dir[d].ptes[i] else None
  }

  function Entry(s: State, d: int, i: int): Pte {
    At(s.dir, d, i)
  }

  predicate HasTable(s: State, d: int) {
    0 <= d < |s.dir| && s.dir[d].Table?
  }

  predicate Names(e: Pte, f: nat) {
    e.Present? && e.frame == f
  }

  predicate Pool(s: State, f: int) {
    s.cfg.lo <= f < s.cfg.hi
  }

  function Count(s: State, f: int): nat {
    if LOW <= f && f - LOW < |s.memMap| then s.memMap[f - LOW] else 0
  }

  predicate IsFree(s: State, f: int) {
    Pool(s, f) && Count(s, f) == 0
  }

  /** Memory has run out. */
  ghost predicate NoneFree(s: State) {
    forall f :: !IsFree(s, f)
  }

  predicate Freed(s: State, n: int) {
    0 <= n < |s.bitmap| && s.bitmap[n]
  }

  predicate Usable(s: State, n: int) {
    1 <= n < |s.cfg.usable| && s.cfg.usable[n]
  }

  /** Whether directory entry d lies in the segment of a live task. */
  predicate LiveDir(s: State, d: int) {
    TASK_DIRS <= d < ENTRIES && d / TASK_DIRS < |s.tasks| &&
    s.tasks[d / TASK_DIRS].Live? && d % TASK_DIRS < s.tasks[d / TASK_DIRS].dirs
  }

  ghost function PteRefs(dir: seq<Pde>, f: nat): set<Ref> {
    set d, i | TASK_DIRS <= d < ENTRIES && 0 <= i < ENTRIES && Names(At(dir, d, i), f) :: ByPte(d, i)
  }

  ghost function DirRefs(dir: seq<Pde>, f: nat): set<Ref> {
    set d | TASK_DIRS <= d < ENTRIES && d < |dir| && dir[d].Table? && dir[d].frame == f :: ByDir(d)
  }

  ghost function KernelRefs(held: set<nat>, f: nat): set<Ref> {
    if f in held then {ByKernel} else {}
  }

  /** Everybody who names frame f. */
  ghost function Refs(s: State, f: nat): set<Ref> {
    PteRefs(s.dir, f) + DirRefs(s.dir, f) + KernelRefs(s.held, f)
  }

  /** Every entry that names swap slot n. */
  ghost function SlotRefs(dir: seq<Pde>, n: nat): set<Addr> {
    set d, i | TASK_DIRS <= d < ENTRIES && 0 <= i < ENTRIES && At(dir, d, i) == Swapped(n) :: Addr(d, i)
  }

  // ---------------------------------------------------------------- what a page holds

  function FileBlock(files: seq<File>, inode: nat, b: nat): Block {
    if inode < |files| && b < |files[inode].blocks| then files[inode].blocks[b] else ZeroBlock()
  }

  /** The first k blocks from block b on, holes reading as zeros. */
  function Blocks(files: seq<File>, inode: nat, b: nat, k: nat): (r: seq<Byte>)
    ensures |r| == k * BLOCK_SIZE
  {
    if k == 0 then [] else Blocks(files, inode, b, k - 1) + FileBlock(files, inode, b + k - 1)
  }

  /** bread_page: four consecutive blocks of the file. */
  function FilePage(files: seq<File>, inode: nat, b: nat): Page {
    Blocks(files, inode, b, 4)
  }

  function EndData(files: seq<File>, inode: nat): nat {
    if 0 < inode < |files| then files[inode].endData else 0
  }

  /** The last `tail` bytes of the page cleared. */
  function ClearTail(p: Page, tail: int): Page {
    if 0 < tail < PAGE_SIZE then p[..PAGE_SIZE - tail] + ZeroPage()[..tail] else p
  }

  /** The inode a missing page is read from (0: an anonymous page), by the offset in the task. */
  function SourceInode(files: seq<File>, t: Task, offset: nat): nat {
    if t.Dead? then 0
    else if offset >= LIBRARY_OFFSET then t.lib
    else if offset < EndData(files, t.exe) then t.exe
    else 0
  }

  function SourceBlock(offset: nat): nat {
    if offset >= LIBRARY_OFFSET then 1 + (offset - LIBRARY_OFFSET) / BLOCK_SIZE else 1 + offset / BLOCK_SIZE
  }

  function Offset(d: int, i: int): nat
    requires IsUser(d, i)
  {
    (d % TASK_DIRS * ENTRIES + i) * PAGE_SIZE
  }

  /** What do_no_page puts into a page of task t that was never touched. */
  function Fresh(files: seq<File>, t: Task, d: int, i: int): Page
    requires IsUser(d, i)
  {
    var inode := SourceInode(files, t, Offset(d, i));
    if inode == 0 then ZeroPage()
    else ClearTail(FilePage(files, inode, SourceBlock(Offset(d, i))), Offset(d, i) + PAGE_SIZE - EndData(files, t.exe))
  }

  function Backing(s: State, d: int, i: int): Page {
    if IsUser(d, i) && d / TASK_DIRS < |s.tasks| then Fresh(s.cfg.files, s.tasks[d / TASK_DIRS], d, i) else ZeroPage()
  }

  /** The task's own view of linear page (d, i): what a load finds there, wherever it is kept. */
  function View(s: State, d: int, i: int): Page {
    match Entry(s, d, i)
    case None => Backing(s, d, i)
    case Swapped(n) => if n < |s.swap| then s.swap[n] else ZeroPage()
    case Present(f, _, _) => if f < |s.ram| then s.ram[f] else ZeroPage()
  }

  // ---------------------------------------------------------------- the invariant

  ghost predicate ConfigOk(c: Config) {
    LOW <= c.lo <= c.hi <= FRAMES && |c.usable| == SWAP_BITS && 0 < |c.files| &&
    forall k :: 0 <= k < |c.files| ==> c.files[k].endData <= MAX_IMAGE
  }

  predicate TaskOk(c: Config, t: Task) {
    t.Live? ==> t.exe < |c.files| && t.lib < |c.files| && 1 <= t.dirs <= TASK_DIRS
  }

  ghost predicate Shape(s: State) {
    ConfigOk(s.cfg) &&
    |s.dir| == ENTRIES && |s.memMap| == PAGING_PAGES && |s.ram| == FRAMES &&
    |s.bitmap| == SWAP_BITS && |s.swap| == SWAP_BITS && |s.tasks| == NR_TASKS && |s.structs| == NR_TASKS &&
    (forall t :: IsTask(t) ==> TaskOk(s.cfg, s.tasks[t])) &&
    (forall f :: f in s.held ==> IsFrame(f)) &&
    KernelOk(s.dir[0])
  }

  /** The kernel's own first table maps low memory one to one; fork from task 0 copies it. */
  ghost predicate KernelOk(x: Pde) {
    x.Table? && |x.ptes| == ENTRIES &&
    forall i :: 0 <= i < 160 ==> x.ptes[i].Present? && x.ptes[i].frame < LOW
  }

  predicate SameOffset(d: int, i: int, d2: int, i2: int) {
    d % TASK_DIRS == d2 % TASK_DIRS && i == i2
  }

  /** Whoever maps a frame maps it at the same offset of its own address space. */
  ghost predicate OneOffset(x: set<Ref>) {
    forall a, b :: a in x && b in x && a.ByPte? && b.ByPte? ==> SameOffset(a.d, a.i, b.d, b.i)
  }

  /** A frame of the pool is counted as often as it is named; the other frames are set aside. */
  ghost predicate FrameOk(s: State, f: int)
    requires IsFrame(f)
  {
    if Pool(s, f) then Count(s, f) == |Refs(s, f)| && (f in s.held ==> Count(s, f) == 1) && OneOffset(PteRefs(s.dir, f))
    else Count(s, f) == USED && f !in s.held
  }

  /** A swap slot in use is named by exactly one entry, a free one by none. */
  ghost predicate SlotOk(s: State, n: int)
    requires IsSlot(n)
  {
    if Usable(s, n) then |SlotRefs(s.dir, n)| == if Freed(s, n) then 0 else 1 else !Freed(s, n)
  }

  /** A table belongs to a live task and its frame is used for nothing else. */
  ghost predicate DirOk(s: State, d: int) {
    HasTable(s, d) ==>
      LiveDir(s, d) && |s.dir[d].ptes| == ENTRIES && Pool(s, s.dir[d].frame) && Count(s, s.dir[d].frame) == 1
  }

  /** A writable page has one user; pages below LOW_MEM are never writable. */
  ghost predicate EntryOk(s: State, d: int, i: int) {
    match Entry(s, d, i)
    case None => true
    case Swapped(n) => IsSlot(n) && Usable(s, n)
    case Present(f, rw, _) => (f < LOW && !rw) || (Pool(s, f) && (rw ==> Count(s, f) == 1))
  }

  /** Everything but the promise about clean pages. */
  ghost predicate Core(s: State) {
    Shape(s) &&
    (forall f :: IsFrame(f) ==> FrameOk(s, f)) &&
    (forall n :: IsSlot(n) ==> SlotOk(s, n)) &&
    (forall d :: IsDir(d) ==> DirOk(s, d)) &&
    (forall d, i :: IsUser(d, i) ==> EntryOk(s, d, i))
  }

  /** A clean page can be thrown away: it still holds what a fault would read in again. */
  ghost predicate CleanAt(s: State, d: int, i: int) {
    var e := Entry(s, d, i);
    e.Present? && !e.dirty && LOW <= e.frame < |s.ram| ==> s.ram[e.frame] == Backing(s, d, i)
  }

  ghost predicate Clean(s: State) {
    forall d, i :: IsUser(d, i) ==> CleanAt(s, d, i)
  }

  ghost predicate Inv(s: State) {
    Core(s) && Clean(s)
  }

  ghost predicate SameViews(s: State, s': State) {
    forall d, i :: IsUser(d, i) ==> View(s', d, i) == View(s, d, i)
  }

  /** The kernel's own table and the memory below LOW_MEM are not written. */
  ghost predicate KernelSame(s: State, s': State) {
    |s'.dir| == |s.dir| && |s'.ram| == |s.ram| && (|s.dir| > 0 ==> s'.dir[0] == s.dir[0]) &&
    forall f :: 0 <= f < LOW && f < |s.ram| ==> s'.ram[f] == s.ram[f]
  }

  // ---------------------------------------------------------------- task structs

  function StructFrames(structs: seq<nat>): set<nat> {
    set t | 0 <= t < |structs| && structs[t] != 0 :: structs[t]
  }

  /** Each task struct has a frame of its own, a live task has one, and the kernel holds no other frame. */
  ghost predicate StructsOk(s: State) {
    |s.structs| == NR_TASKS && |s.tasks| == NR_TASKS && s.held == StructFrames(s.structs) &&
    (forall t, u :: IsTask(t) && IsTask(u) && t != u && s.structs[t] != 0 ==> s.structs[t] != s.structs[u]) &&
    (forall t :: IsTask(t) && s.tasks[t].Live? ==> s.structs[t] != 0)
  }

  // ---------------------------------------------------------------- frames and who names them

  lemma FreeIsUnnamed(s: State, f: nat)
    requires Core(s) && IsFree(s, f)
    ensures Refs(s, f) == {} && f !in s.held
    ensures forall d, i :: IsUser(d, i) ==> !Names(Entry(s, d, i), f)
    ensures forall d :: IsDir(d) && HasTable(s, d) ==> s.dir[d].frame != f
  {
    assert IsFrame(f);
    assert Refs(s, f) == {};
    assert PteRefs(s.dir, f) == {} && DirRefs(s.dir, f) == {};
    forall d, i | IsUser(d, i) ensures !Names(Entry(s, d, i), f) {
      assert ByPte(d, i) !in PteRefs(s.dir, f);
    }
    forall d | IsDir(d) && HasTable(s, d) ensures s.dir[d].frame != f {
      assert ByDir(d) !in DirRefs(s.dir, f);
    }
  }

  lemma SingletonIsUnique<T>(x: set<T>, a: T, b: T)
    requires |x| == 1 && a in x && b in x
    ensures a == b
  {
    assert |x - {a}| == 0;
    assert b !in x - {a};
  }

  /** A frame counted once is named by nobody but its one user. */
  lemma OnlyUser(s: State, f: nat, a: Ref, b: Ref)
    requires Core(s) && Pool(s, f) && Count(s, f) == 1 && a in Refs(s, f) && b in Refs(s, f)
    ensures a == b
  {
    assert IsFrame(f);
    SingletonIsUnique(Refs(s, f), a, b);
  }
}

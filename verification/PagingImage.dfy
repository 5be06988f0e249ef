/** What a task finds in memory it has not written: byte by byte its executable, its library, or zeros. */
module PagingImage {
  import opened Basics
  import opened PagingModel
  import opened PagingTables
  import opened PagingFaults
  import opened PagingExec

  /** Byte k of a file, its blocks laid end to end; zero past the last one. */
  function FileByte(files: seq<File>, inode: nat, k: nat): Byte {
    if inode < |files| && k < |Flat(files[inode].blocks)| then Flat(files[inode].blocks)[k] else 0
  }

  /** What an untouched task shows at offset a. The first block of a file is its header. */
  function ImageByte(files: seq<File>, exe: nat, lib: nat, a: nat): Byte {
    if a >= LIBRARY_OFFSET then if lib == 0 then 0 else FileByte(files, lib, 1024 + a - LIBRARY_OFFSET)
    else if 0 < exe < |files| && a < files[exe].endData then FileByte(files, exe, 1024 + a)
    else 0
  }

  /** Page i under directory entry d, as the task's image has it. */
  ghost predicate ShowsImage(files: seq<File>, t: Task, d: int, i: int, p: Page)
    requires IsUser(d, i) && t.Live?
  {
    forall o :: 0 <= o < 4096 ==> p[o] == ImageByte(files, t.exe, t.lib, (d % 16 * 1024 + i) * 4096 + o)
  }

  lemma {:induction false} FlatAt(blocks: seq<Block>, k: nat)
    ensures |Flat(blocks)| == 1024 * |blocks|
    ensures k < |Flat(blocks)| ==> Flat(blocks)[k] == blocks[k / 1024][k % 1024]
    decreases |blocks|
  {
    if blocks != [] {
      var n := |blocks| - 1;
      FlatAt(blocks[..n], k);
      if 1024 * n <= k < 1024 * n + 1024 { assert k / 1024 == n && k % 1024 == k - 1024 * n; }
    }
  }

  lemma BlockByte(files: seq<File>, inode: nat, b: nat, o: nat)
    requires o < 1024
    ensures FileBlock(files, inode, b)[o] == FileByte(files, inode, 1024 * b + o)
  {
    if inode < |files| { FlatAt(files[inode].blocks, 1024 * b + o); }
    assert (1024 * b + o) / 1024 == b && (1024 * b + o) % 1024 == o;
  }

  lemma {:induction false} BlocksByte(files: seq<File>, inode: nat, b: nat, n: nat, o: nat)
    requires o < 1024 * n
    ensures Blocks(files, inode, b, n)[o] == FileByte(files, inode, 1024 * b + o)
    decreases n
  {
    if o < 1024 * (n - 1) {
      BlocksByte(files, inode, b, n - 1, o);
    } else {
      BlockByte(files, inode, b + n - 1, o - 1024 * (n - 1));
    }
  }

  /** A page of a file, read in at a page's offset and cleared past endData. */
  lemma ReadBytes(files: seq<File>, inode: nat, offset: nat, endData: nat, p: Page)
    requires offset % 4096 == 0
    requires p == ClearTail(FilePage(files, inode, SourceBlock(offset)), offset + PAGE_SIZE - endData)
    ensures ReadIn(files, inode, offset, endData, p)
  {
    hide SourceBlock, FileByte, Blocks, ClearTail;
    var b := SourceBlock(offset);
    var from := FromHeader(offset);
    forall o | 0 <= o < 4096
      ensures p[o] == if offset < endData <= offset + o then 0 else FileByte(files, inode, 1024 + o + from)
    {
      BlocksByte(files, inode, b, 4, o);
      ClearedAt(FilePage(files, inode, b), offset + PAGE_SIZE - endData, o);
    }
  }

  lemma FromHeader(offset: nat) returns (from: nat)
    requires offset % 4096 == 0
    ensures from == (if offset >= LIBRARY_OFFSET then offset - LIBRARY_OFFSET else offset)
    ensures 1024 * SourceBlock(offset) == 1024 + from
  {
    from := if offset >= LIBRARY_OFFSET then offset - LIBRARY_OFFSET else offset;
    WholeBlocks(from, 4 * if offset >= LIBRARY_OFFSET then offset / 4096 - 0x3C00 else offset / 4096);
  }

  lemma WholeBlocks(x: nat, q: nat)
    requires x == 1024 * q
    ensures x / 1024 == q
  {
  }

  lemma ClearedAt(p: Page, tail: int, o: nat)
    requires o < 4096
    ensures ClearTail(p, tail)[o] == if tail < 4096 && o + tail >= 4096 then 0 else p[o]
  {
  }

  /** Byte o of the page is byte 1024 + o of what the file holds from the offset on, or from the offset in the library
      area; a page that holds endData ends there. */
  ghost predicate ReadIn(files: seq<File>, inode: nat, offset: nat, endData: nat, p: Page) {
    forall o :: 0 <= o < 4096 ==>
      p[o] ==
      if offset < endData <= offset + o then 0
      else FileByte(files, inode, 1024 + o + if offset >= LIBRARY_OFFSET then offset - LIBRARY_OFFSET else offset)
  }

  lemma FreshShows(c: Config, t: Task, d: int, i: int)
    requires ConfigOk(c) && TaskOk(c, t) && t.Live? && IsUser(d, i)
    ensures ShowsImage(c.files, t, d, i, Fresh(c.files, t, d, i))
  {
    var p, off := Fresh(c.files, t, d, i), Offset(d, i);
    assert off == (d % 16 * 1024 + i) * 4096 && off % 4096 == 0;
    var inode := SourceInode(c.files, t, off);
    if inode != 0 {
      ReadBytes(c.files, inode, off, EndData(c.files, t.exe), p);
      assert off < LIBRARY_OFFSET ==> off + 4096 <= LIBRARY_OFFSET;
      hide Fresh, FileByte;
      forall o | 0 <= o < 4096 ensures p[o] == ImageByte(c.files, t.exe, t.lib, off + o) { }
    }
  }

  /** A page that is not there yet shows the task's image. */
  lemma MissingShows(s: State, d: int, i: int)
    requires Inv(s) && IsUser(d, i) && LiveDir(s, d) && Entry(s, d, i) == None
    ensures |s.tasks| == NR_TASKS && s.tasks[d / TASK_DIRS].Live?
    ensures ShowsImage(s.cfg.files, s.tasks[d / TASK_DIRS], d, i, View(s, d, i))
  {
    TaskReadable(s, d, i);
    ShapeOf(s);
    FreshShows(s.cfg, s.tasks[d / TASK_DIRS], d, i);
  }

  // ---------------------------------------------------------------- after exec

  /** The byte task t finds at offset a. */
  function TaskByte(s: State, t: int, a: nat): Byte {
    View(s, t * 16 + a / 0x400000, a / 4096 % 1024)[a % 4096]
  }

  /** Task t, 64MB in all: the argument pages end where the library begins, and everything else is as in the files. */
  ghost predicate Starts(s: State, t: int, exe: nat, lib: nat, args: seq<Page>) {
    forall a: nat :: a < 0x4000000 ==> TaskByte(s, t, a) == StartByte(s.cfg.files, exe, lib, args, a)
  }

  function StartByte(files: seq<File>, exe: nat, lib: nat, args: seq<Page>, a: nat): Byte {
    var low := LIBRARY_OFFSET - 4096 * |args|;
    if low <= a < LIBRARY_OFFSET then args[(a - low) / 4096][(a - low) % 4096] else ImageByte(files, exe, lib, a)
  }

  lemma ExecutedStarts(s: State, s': State, t: int, exe: nat, lib: nat, args: seq<Page>)
    requires Executed(s, s', t, Live(exe, lib, TASK_DIRS), args) && 1 <= t < NR_TASKS && |args| <= MAX_ARG_PAGES
    ensures Starts(s', t, exe, lib, args)
  {
    ShapeOf(s');
    assert IsTask(t) && TaskOk(s'.cfg, s'.tasks[t]);
    hide Inv, View, Fresh, KernelSame, ImageByte;
    forall a: nat | a < 0x4000000 ensures TaskByte(s', t, a) == StartByte(s.cfg.files, exe, lib, args, a) {
      ExecutedByte(s, s', t, exe, lib, args, a);
    }
  }

  lemma ExecutedByte(s: State, s': State, t: int, exe: nat, lib: nat, args: seq<Page>, a: nat)
    requires Executed(s, s', t, Live(exe, lib, TASK_DIRS), args) && 1 <= t < NR_TASKS && |args| <= MAX_ARG_PAGES
    requires ConfigOk(s.cfg) && TaskOk(s.cfg, Live(exe, lib, TASK_DIRS)) && a < 0x4000000
    ensures TaskByte(s', t, a) == StartByte(s.cfg.files, exe, lib, args, a)
  {
    hide Inv, View, KernelSame, ImagePage, StartByte;
    var d, i := t * 16 + a / 0x400000, a / 4096 % 1024;
    Split(t, a);
    assert View(s', d, i) == ImagePage(s.cfg.files, t, Live(exe, lib, TASK_DIRS), args, d, i);
    ImageAt(s.cfg, t, exe, lib, args, a);
  }

  lemma ImageAt(c: Config, t: int, exe: nat, lib: nat, args: seq<Page>, a: nat)
    requires ConfigOk(c) && TaskOk(c, Live(exe, lib, TASK_DIRS)) && 1 <= t < NR_TASKS && |args| <= MAX_ARG_PAGES
    requires a < 0x4000000
    ensures IsUser(t * 16 + a / 0x400000, a / 4096 % 1024)
    ensures ImagePage(c.files, t, Live(exe, lib, TASK_DIRS), args, t * 16 + a / 0x400000, a / 4096 % 1024)[a % 4096] ==
            StartByte(c.files, exe, lib, args, a)
  {
    hide Fresh, ImageByte, Twin;
    Split(t, a);
    ArgSpot(t, |args|, a);
    FreshShows(c, Live(exe, lib, TASK_DIRS), t * 16 + a / 0x400000, a / 4096 % 1024);
  }

  lemma Split(t: int, a: nat)
    requires a < 0x4000000 && 1 <= t < NR_TASKS
    ensures var d, i := t * 16 + a / 0x400000, a / 4096 % 1024;
      IsUser(d, i) && Owns(t, d) && d % 16 == a / 0x400000 && a == (d % 16 * 1024 + i) * 4096 + a % 4096
  {
    assert a / 4096 / 1024 == a / 0x400000;
  }

  /** The places for argument pages are those right below the library. */
  lemma ArgSpot(t: int, n: nat, a: nat)
    requires a < 0x4000000 && n <= MAX_ARG_PAGES && 1 <= t < NR_TASKS
    ensures IsArg(t, n, t * 16 + a / 0x400000, a / 4096 % 1024) <==> LIBRARY_OFFSET - 4096 * n <= a < LIBRARY_OFFSET
    ensures LIBRARY_OFFSET - 4096 * n <= a < LIBRARY_OFFSET ==>
              a / 4096 % 1024 - (1024 - n) == (a - (LIBRARY_OFFSET - 4096 * n)) / 4096 &&
              a % 4096 == (a - (LIBRARY_OFFSET - 4096 * n)) % 4096
  {
    Split(t, a);
  }
}

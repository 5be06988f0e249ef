/** The machine the tasks believe in: each has its own pages, nothing is shared, nothing is swapped.
    Whole runs of the memory manager are compared with it. */
module AddressSpaces {
  import opened Basics
  import opened PagingModel
  import opened PagingTables
  import opened PagingOps
  import opened PagingFaults
  import opened PagingFork
  import opened PagingTasks
  import opened PagingExec
  import opened PagingFrames
  import opened PagingScan

  /** used are the slots of the task table that hold a task struct; kernel is what task 0 hands to its children. */
  datatype Machine = Machine(tasks: seq<Task>, used: set<int>, kernel: seq<Page>, pages: map<Addr, Page>)

  datatype Request =
    | Read(d: int, i: int, inUse: bool)   // inUse: the page's file has another user, so sharing is tried
    | Write(d: int, i: int, offset: nat, b: Byte, inUse: bool)
    | Spawn(p: int, c: int)
    | Quit(t: int)
    | Reap(t: int)
    | Exec(t: int, exe: nat, args: seq<Page>)
    | Reclaim

  datatype Reply = Failed | Done | Value(p: Page)

  predicate IsLive(tasks: seq<Task>, d: int) {
    IsDir(d) && d / TASK_DIRS < |tasks| && tasks[d / TASK_DIRS].Live? && d % TASK_DIRS < tasks[d / TASK_DIRS].dirs
  }

  /** The pages that exist for the tasks. */
  function LivePages(tasks: seq<Task>): (r: set<Addr>)
    ensures forall a :: a in r <==> IsUser(a.d, a.i) && IsLive(tasks, a.d)
  {
    set d, i | TASK_DIRS <= d < ENTRIES && 0 <= i < ENTRIES && IsLive(tasks, d) :: Addr(d, i)
  }

  /** Whether the request makes sense: tasks that exist, pages within their segments. A task that calls exec runs, so
      it has a page table. */
  predicate Allowed(files: seq<File>, dir: seq<Pde>, tasks: seq<Task>, used: set<int>, r: Request) {
    match r
    case Read(d, i, _) => IsUser(d, i) && IsLive(tasks, d)
    case Write(d, i, offset, _, _) => IsUser(d, i) && IsLive(tasks, d) && offset < PAGE_SIZE
    case Spawn(p, c) => CanFork(tasks, p, c) && c !in used
    case Quit(t) => 1 <= t < NR_TASKS && |tasks| == NR_TASKS && tasks[t].Live?
    case Reap(t) => 1 <= t < NR_TASKS && |tasks| == NR_TASKS && tasks[t].Dead? && t in used
    case Exec(t, exe, args) =>
      1 <= t < NR_TASKS && |tasks| == NR_TASKS && tasks[t].Live? && HasSome(dir, t) &&
      exe < |files| && |args| <= MAX_ARG_PAGES
    case Reclaim => true
  }

  function TasksAfter(tasks: seq<Task>, r: Request): seq<Task> {
    match r
    case Spawn(p, c) => if 0 <= p < |tasks| && 0 <= c < |tasks| then tasks[c := ChildOf(tasks, p)] else tasks
    case Quit(t) => if 0 <= t < |tasks| then tasks[t := Dead] else tasks
    case Exec(t, exe, _) =>
      if 0 <= t < |tasks| && tasks[t].Live? then tasks[t := Live(exe, tasks[t].lib, TASK_DIRS)] else tasks
    case _ => tasks
  }

  function UsedAfter(used: set<int>, r: Request): set<int> {
    match r
    case Spawn(_, c) => used + {c}
    case Reap(t) => used - {t}
    case _ => used
  }

  /** What task 0 hands to its children: its first 160 pages. */
  function KernelPage(m: Machine, i: int): Page {
    if 0 <= i < |m.kernel| then m.kernel[i] else ZeroPage()
  }

  function PageAt(m: Machine, d: int, i: int): Page {
    if Addr(d, i) in m.pages then m.pages[Addr(d, i)] else ZeroPage()
  }

  /** What page (d, i) holds after the request was carried out. */
  function PageAfter(files: seq<File>, m: Machine, r: Request, d: int, i: int): Page
    requires IsUser(d, i)
  {
    match r
    case Write(d2, i2, offset, b, _) =>
      if d == d2 && i == i2 && offset < PAGE_SIZE then PageAt(m, d, i)[offset := b] else PageAt(m, d, i)
    case Spawn(p, c) =>
      if !Owns(c, d) then PageAt(m, d, i) else if p == 0 then KernelPage(m, i) else PageAt(m, Twin(d, p), i)
    case Exec(t, exe, args) =>
      if Owns(t, d) && 0 <= t < |m.tasks| && m.tasks[t].Live?
      then ImagePage(files, t, Live(exe, m.tasks[t].lib, TASK_DIRS), args, d, i) else PageAt(m, d, i)
    case _ => PageAt(m, d, i)
  }

  function Next(files: seq<File>, m: Machine, r: Request): Machine {
    var tasks := TasksAfter(m.tasks, r);
    Machine(tasks, UsedAfter(m.used, r), m.kernel, map a | a in LivePages(tasks) :: PageAfter(files, m, r, a.d, a.i))
  }

  /** A whole run: requests that failed did nothing. */
  function Replay(files: seq<File>, m: Machine, rs: seq<Request>, as_: seq<Reply>): Machine
    requires |as_| == |rs|
  {
    if |rs| == 0 then m else
    var m' := Replay(files, m, rs[..|rs| - 1], as_[..|rs| - 1]);
    if as_[|rs| - 1].Failed? then m' else Next(files, m', rs[|rs| - 1])
  }

  /** Every read was answered with what the page held at that point of the run. */
  ghost predicate Answered(files: seq<File>, m: Machine, rs: seq<Request>, as_: seq<Reply>)
    requires |as_| == |rs|
  {
    forall k :: 0 <= k < |rs| && rs[k].Read? && as_[k].Value? ==>
      as_[k].p == PageAt(Replay(files, m, rs[..k], as_[..k]), rs[k].d, rs[k].i)
  }

  // ---------------------------------------------------------------- isolation over whole runs

  /** Whether the request can change what task t sees: its own stores, and its own birth, end or new image. */
  predicate Concerns(t: int, r: Request) {
    match r
    case Write(d, _, _, _, _) => Owns(t, d)
    case Spawn(_, c) => c == t
    case Quit(q) => q == t
    case Exec(q, _, _) => q == t
    case _ => false
  }

  lemma NextIsolates(files: seq<File>, m: Machine, r: Request, t: int, d: int, i: int)
    requires !Concerns(t, r) && IsUser(d, i) && Owns(t, d) && m.pages.Keys == LivePages(m.tasks)
    ensures Next(files, m, r).pages.Keys == LivePages(Next(files, m, r).tasks)
    ensures Addr(d, i) in Next(files, m, r).pages <==> Addr(d, i) in m.pages
    ensures PageAt(Next(files, m, r), d, i) == PageAt(m, d, i)
  {
  }

  /** Over any run, a task's pages change only through its own stores, and its own birth, end or new image. */
  lemma {:induction false} RunIsolates(files: seq<File>, m: Machine, rs: seq<Request>, as_: seq<Reply>, t: int,
                                       d: int, i: int)
    requires |as_| == |rs| && IsUser(d, i) && d / 16 == t && m.pages.Keys == LivePages(m.tasks)
    requires forall k :: 0 <= k < |rs| ==>
               (rs[k].Write? ==> rs[k].d / 16 != t) && (rs[k].Spawn? ==> rs[k].c != t) &&
               (rs[k].Quit? ==> rs[k].t != t) && (rs[k].Exec? ==> rs[k].t != t)
    ensures Replay(files, m, rs, as_).pages.Keys == LivePages(Replay(files, m, rs, as_).tasks)
    ensures Addr(d, i) in Replay(files, m, rs, as_).pages <==> Addr(d, i) in m.pages
    ensures PageAt(Replay(files, m, rs, as_), d, i) == PageAt(m, d, i)
  {
    if |rs| > 0 {
      var n := |rs| - 1;
      RunIsolates(files, m, rs[..n], as_[..n], t, d, i);
      NextIsolates(files, Replay(files, m, rs[..n], as_[..n]), rs[n], t, d, i);
    }
  }

  // ---------------------------------------------------------------- the memory manager as such a machine

  function UsedSlots(structs: seq<nat>): set<int> {
    set t | 0 <= t < |structs| && structs[t] != 0
  }

  /** What the tasks see of a state. */
  function Seen(s: State): Machine {
    Machine(s.tasks, UsedSlots(s.structs), seq(160, i => View(s, 0, i)),
            map a | a in LivePages(s.tasks) :: View(s, a.d, a.i))
  }

  /** What task 0 hands out never changes. */
  lemma KernelSeen(s: State, s': State)
    requires KernelSame(s, s') && Inv(s)
    ensures Seen(s').kernel == Seen(s).kernel
  {
    ShapeOf(s);
    hide Core, Clean;
    forall i | 0 <= i < 160 ensures View(s', 0, i) == View(s, 0, i) {
      assert Entry(s', 0, i) == Entry(s, 0, i);
    }
  }

  lemma SeenSame(s: State, s': State)
    requires Inv(s) && SameViews(s, s') && SameWorld(s, s')
    ensures Seen(s') == Seen(s)
  {
    KernelSeen(s, s');
    ViewsSeen(s, s');
    hide Inv, View, KernelSame, UsedSlots, LivePages, SameViews;
  }

  lemma ViewsSeen(s: State, s': State)
    requires SameViews(s, s') && s'.tasks == s.tasks
    ensures Seen(s').pages == Seen(s).pages
  {
    hide View, UsedSlots;
  }

  lemma NextSame(files: seq<File>, s: State, r: Request)
    requires r.Read? || r.Reclaim?
    ensures Next(files, Seen(s), r) == Seen(s)
  {
    hide View;
  }

  /** What one request does to the machine, and what it is told. */
  ghost predicate Carried(files: seq<File>, m: Machine, m': Machine, r: Request, a: Reply) {
    m' == (if a.Failed? then m else Next(files, m, r)) &&
    (r.Read? && a.Value? ==> a.p == PageAt(m, r.d, r.i))
  }

  /** Page i under directory entry d exists: it lies in the segment of a live task. */
  predicate Exists(s: State, d: int, i: int) {
    16 <= d < 1024 && 0 <= i < 1024 && d / 16 < |s.tasks| && s.tasks[d / 16].Live? && d % 16 < s.tasks[d / 16].dirs
  }

  predicate Lives(s: State, t: int) {
    1 <= t < NR_TASKS && |s.tasks| == NR_TASKS && s.tasks[t].Live?
  }

  predicate Vacant(s: State, t: int) {
    1 <= t < NR_TASKS && |s.tasks| == |s.structs| == NR_TASKS && s.tasks[t].Dead? && s.structs[t] == 0
  }

  /** When a request fails: it is about no task or page there is, there are fewer free frames than it takes, or nothing
      is in swap_out's reach. Leaving always succeeds. */
  ghost predicate Refused(s: State, mark: (int, int), r: Request) {
    match r
    case Read(d, i, inUse) => !Exists(s, d, i) || |FreeFrames(s)| < LoadNeed(s, d, i, inUse)
    case Write(d, i, offset, _, _) => !Exists(s, d, i) || offset >= 4096 || |FreeFrames(s)| < StoreNeed(s, d, i)
    case Spawn(p, c) =>
      !((p == 0 || Lives(s, p)) && Vacant(s, c)) || |FreeFrames(s)| < Need(s.dir, p, ChildOf(s.tasks, p).dirs)
    case Quit(t) => !Lives(s, t)
    case Reap(t) =>
      !(1 <= t < NR_TASKS && |s.tasks| == |s.structs| == NR_TASKS && s.tasks[t].Dead? && s.structs[t] != 0)
    case Exec(t, exe, args) =>
      !Lives(s, t) || !HasSome(s.dir, t) || exe >= |s.cfg.files| || |args| > 32 || |FreeFrames(s)| < |args|
    case Reclaim => forall d, i :: !InReach(s, mark.0, mark.1, d, i)
  }

  /** Of the requests that make sense. */
  ghost predicate Lacks(s: State, mark: (int, int), r: Request) {
    match r
    case Read(d, i, inUse) => |FreeFrames(s)| < LoadNeed(s, d, i, inUse)
    case Write(d, i, _, _, _) => |FreeFrames(s)| < StoreNeed(s, d, i)
    case Spawn(p, c) =>
      0 <= p < |s.tasks| && ChildOf(s.tasks, p).Live? &&
      |FreeFrames(s)| < Need(s.dir, p, ChildOf(s.tasks, p).dirs)
    case Exec(_, _, args) => |FreeFrames(s)| < |args|
    case Reclaim => forall d, i :: !InReach(s, mark.0, mark.1, d, i)
    case _ => false
  }

  lemma RefusedIs(s: State, mark: (int, int), r: Request)
    requires |s.tasks| == |s.structs| == NR_TASKS
    ensures Refused(s, mark, r) <==>
            !Allowed(s.cfg.files, s.dir, s.tasks, UsedSlots(s.structs), r) || Lacks(s, mark, r)
  {
    hide InReach, FreeFrames, LoadNeed, StoreNeed, Need, HasSome;
  }

  /** What a request that succeeds takes or gives: no frame but those it needs. */
  ghost predicate Charged(s: State, r: Request, a: Reply, s': State) {
    !a.Failed? ==>
      match r
      case Read(d, i, inUse) => |FreeFrames(s')| == |FreeFrames(s)| - LoadNeed(s, d, i, inUse)
      case Write(d, i, _, _, _) => |FreeFrames(s')| == |FreeFrames(s)| - StoreNeed(s, d, i)
      case Spawn(p, _) =>
        0 <= p < |s.tasks| && ChildOf(s.tasks, p).Live? &&
        |FreeFrames(s')| == |FreeFrames(s)| - Need(s.dir, p, ChildOf(s.tasks, p).dirs)
      case Reap(_) => |FreeFrames(s')| == |FreeFrames(s)| + 1
      case _ => true
  }

  /** swap_out's mark moves only when it is called. */
  ghost predicate Moved(s: State, m: (int, int), r: Request, a: Reply, s': State, m': (int, int)) {
    if r.Reclaim? then Marked(s, m, a.Done?, s', m') else m' == m
  }

  lemma EmptyRun(files: seq<File>, m: Machine)
    ensures Replay(files, m, [], []) == m && Answered(files, m, [], [])
  {
  }

  lemma RunGrows(files: seq<File>, m: Machine, m': Machine, rs: seq<Request>, as_: seq<Reply>, r: Request, a: Reply)
    requires |as_| == |rs| && Answered(files, m, rs, as_) && Carried(files, Replay(files, m, rs, as_), m', r, a)
    ensures Replay(files, m, rs + [r], as_ + [a]) == m'
    ensures Answered(files, m, rs + [r], as_ + [a])
  {
    hide Next, PageAt;
    var n := |rs|;
    assert (rs + [r])[..n] == rs && (as_ + [a])[..n] == as_;
    forall k | 0 <= k < n + 1 && (rs + [r])[k].Read? && (as_ + [a])[k].Value?
      ensures (as_ + [a])[k].p == PageAt(Replay(files, m, (rs + [r])[..k], (as_ + [a])[..k]), (rs + [r])[k].d,
                                         (rs + [r])[k].i)
    {
      if k < n {
        assert (rs + [r])[..k] == rs[..k] && (as_ + [a])[..k] == as_[..k];
      }
    }
  }

  /** The state shows what the request does to the machine, page by page. */
  lemma SeenIs(s: State, s': State, r: Request)
    requires Inv(s) && KernelSame(s, s') && s'.tasks == TasksAfter(s.tasks, r)
    requires UsedSlots(s'.structs) == UsedAfter(UsedSlots(s.structs), r)
    requires forall a :: a in LivePages(s'.tasks) ==> View(s', a.d, a.i) == PageAfter(s.cfg.files, Seen(s), r, a.d, a.i)
    ensures Seen(s') == Next(s.cfg.files, Seen(s), r)
  {
    KernelSeen(s, s');
    PagesSeen(s, s', r);
    hide Inv, View, KernelSame, UsedAfter, UsedSlots, TasksAfter, PageAfter, LivePages;
  }

  lemma PagesSeen(s: State, s': State, r: Request)
    requires s'.tasks == TasksAfter(s.tasks, r)
    requires forall a :: a in LivePages(s'.tasks) ==> View(s', a.d, a.i) == PageAfter(s.cfg.files, Seen(s), r, a.d, a.i)
    ensures Seen(s').pages == Next(s.cfg.files, Seen(s), r).pages
  {
    hide View, TasksAfter, PageAfter, UsedSlots, UsedAfter;
  }

  lemma SeenStore(s: State, s': State, d: int, i: int, offset: nat, b: Byte, inUse: bool)
    requires Inv(s) && IsUser(d, i) && LiveDir(s, d) && offset < PAGE_SIZE
    requires Stored(s, s', d, i, View(s, d, i)[offset := b])
    ensures Seen(s') == Next(s.cfg.files, Seen(s), Write(d, i, offset, b, inUse))
  {
    hide Inv, View, UsedSlots;
    var r := Write(d, i, offset, b, inUse);
    forall a | a in LivePages(s'.tasks) ensures View(s', a.d, a.i) == PageAfter(s.cfg.files, Seen(s), r, a.d, a.i) {
      SeenPage(s, a.d, a.i);
    }
    SeenIs(s, s', r);
  }

  lemma TwinIsLive(tasks: seq<Task>, p: int, c: int, d: int, i: int)
    requires CanFork(tasks, p, c) && IsUser(d, i) && IsLive(tasks[c := ChildOf(tasks, p)], d)
    ensures if Owns(c, d) then d % TASK_DIRS < ChildOf(tasks, p).dirs else IsLive(tasks, d)
    ensures Owns(c, d) && p > 0 ==> IsUser(Twin(d, p), i) && IsLive(tasks, Twin(d, p))
    ensures Owns(c, d) && p == 0 ==> Twin(d, p) == 0
  {
  }

  lemma SeenFork(s: State, s': State, p: int, c: int, page: nat)
    requires Inv(s) && Forked(s, s', p, c, page) && CanFork(s.tasks, p, c)
    ensures Seen(s') == Next(s.cfg.files, Seen(s), Spawn(p, c))
  {
    hide Inv, View, UsedSlots, Need, FreeFrames, KernelSame, Child;
    var r := Spawn(p, c);
    forall a | a in LivePages(s'.tasks) ensures View(s', a.d, a.i) == PageAfter(s.cfg.files, Seen(s), r, a.d, a.i) {
      SeenForkPage(s, s', p, c, page, a.d, a.i);
    }
    assert UsedSlots(s'.structs) == UsedAfter(UsedSlots(s.structs), r) by { UsedMore(s.structs, c, page); }
    SeenIs(s, s', r);
  }

  lemma UsedMore(structs: seq<nat>, c: int, page: nat)
    requires 0 <= c < |structs|
    ensures UsedSlots(structs[c := page]) == if page != 0 then UsedSlots(structs) + {c} else UsedSlots(structs) - {c}
  {
  }

  lemma SeenForkPage(s: State, s': State, p: int, c: int, page: nat, d: int, i: int)
    requires Forked(s, s', p, c, page) && CanFork(s.tasks, p, c) && IsUser(d, i) && IsLive(s'.tasks, d)
    ensures View(s', d, i) == PageAfter(s.cfg.files, Seen(s), Spawn(p, c), d, i)
  {
    hide Inv, View, Need, FreeFrames, KernelSame;
    TwinIsLive(s.tasks, p, c, d, i);
    if Owns(c, d) {
      assert Child(s, s', p, d, i);
      if p > 0 { SeenPage(s, Twin(d, p), i); }
    } else {
      SeenPage(s, d, i);
    }
  }

  lemma SeenUndone(s: State, s': State, p: int, k: int, j: int)
    requires Inv(s) && Undone(s, s', p, k, j)
    ensures Seen(s') == Seen(s)
  {
    hide ParentOr, SameTable;
    SeenSame(s, s');
  }

  /** Freeing a task struct shows to nobody. */
  lemma SeenReaped(s: State, s': State, t: int)
    requires Inv(s) && Reaped(s, s', t)
    ensures Seen(s') == Next(s.cfg.files, Seen(s), Reap(t))
  {
    hide Inv, View, KernelSame, UsedSlots;
    forall a | a in LivePages(s'.tasks)
      ensures View(s', a.d, a.i) == PageAfter(s.cfg.files, Seen(s), Reap(t), a.d, a.i)
    {
      SeenPage(s, a.d, a.i);
    }
    UsedMore(s.structs, t, 0);
    SeenIs(s, s', Reap(t));
  }

  lemma SeenReplaced(s: State, s': State, t: int, r: Request)
    requires Inv(s) && IsTask(t) && |s.tasks| == NR_TASKS && s.tasks[t].Live?
    requires (r == Quit(t) && Replaced(s, s', t, Dead)) ||
             (r.Exec? && r.t == t && Executed(s, s', t, Live(r.exe, s.tasks[t].lib, TASK_DIRS), r.args))
    ensures Seen(s') == Next(s.cfg.files, Seen(s), r)
  {
    hide Inv, View, KernelSame, UsedSlots, Fresh;
    forall a | a in LivePages(s'.tasks) ensures View(s', a.d, a.i) == PageAfter(s.cfg.files, Seen(s), r, a.d, a.i) {
      if !Owns(t, a.d) { SeenPage(s, a.d, a.i); }
    }
    SeenIs(s, s', r);
  }

  lemma SeenPage(s: State, d: int, i: int)
    requires IsUser(d, i) && LiveDir(s, d)
    ensures PageAt(Seen(s), d, i) == View(s, d, i)
  {
  }
}

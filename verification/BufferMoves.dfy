/** Every interleaving of the pieces: the invariant holds throughout, and the contents of every block are
    the initial ones overwritten by the stores to held buffers, in order. */
module BufferMoves {
  import opened Basics
  import opened BufferModel
  import opened BufferSteps

  datatype Event =
    | Begin(p: int, key: Key)          // enter bread
    | Find(p: int, b: int)             // get_hash_table finds b and counts it
    | Settle(p: int)                   // b is unlocked and still the block: getblk returns it
    | Choose(p: int, b: int)           // no buffer for the block: getblk settles on an unused one
    | Sleep(p: int)                    // all buffers are in use
    | Wake(p: int)
    | Retry(p: int)                    // the candidate was taken meanwhile, or the block appeared
    | Claim(p: int)                    // the candidate is given to the block
    | Look(p: int)                     // bread looks at b_uptodate
    | Lock(p: int)                     // ll_rw_block(READ) locks the buffer
    | Arrive(p: int)                   // the transfer is over: bread returns
    | Modify(p: int, data: Block)      // the holder changes the data and sets b_dirt
    | LetGo(p: int)                    // enter brelse
    | Unpin(p: int)                    // b is unlocked: brelse gives up its count
    | AskWrite(b: int)                 // some process wants a dirty buffer written
    | Queue(b: int)                    // add_request
    | Complete(b: int)                 // end_request

  predicate IsProc(s: Sys, p: int) {
    Idx(|s.procs|, p)
  }

  /** The process is at a point where it waits for its buffer b to be unlocked, and it is. */
  predicate Unlocked(s: Sys, b: int) {
    Idx(|s.bufs|, b) && s.bufs[b].io.Idle?
  }

  ghost predicate Enabled(s: Sys, e: Event) {
    match e
    case Begin(p, k) => IsProc(s, p) && s.procs[p].Out? && k.dev != 0 && IsDev(k.dev)
    case Find(p, b) => IsProc(s, p) && s.procs[p].Start? && Idx(|s.bufs|, b) && KeyOf(s.bufs[b]) == s.procs[p].key
    case Settle(p) => IsProc(s, p) && s.procs[p].Pinned? && Unlocked(s, s.procs[p].b)
    case Choose(p, b) => IsProc(s, p) && s.procs[p].Start? && Idx(|s.bufs|, b)
    case Sleep(p) => IsProc(s, p) && s.procs[p].Start?
    case Wake(p) => IsProc(s, p) && s.procs[p].Asleep?
    case Retry(p) => IsProc(s, p) && s.procs[p].Candidate?
    case Claim(p) => IsProc(s, p) && s.procs[p].Candidate? && Unlocked(s, s.procs[p].b) &&
      s.bufs[s.procs[p].b].count == 0 && !s.bufs[s.procs[p].b].dirty && NoneFor(s.bufs, s.procs[p].key)
    case Look(p) => IsProc(s, p) && s.procs[p].Got? && Idx(|s.bufs|, s.procs[p].b)
    case Lock(p) => IsProc(s, p) && s.procs[p].LockWait? && Unlocked(s, s.procs[p].b)
    case Arrive(p) => IsProc(s, p) && s.procs[p].ReadWait? && Unlocked(s, s.procs[p].b)
    case Modify(p, _) => IsProc(s, p) && s.procs[p].Holding? && Idx(|s.bufs|, s.procs[p].b)
    case LetGo(p) => IsProc(s, p) && s.procs[p].Holding?
    case Unpin(p) => IsProc(s, p) && s.procs[p].Releasing? && Unlocked(s, s.procs[p].b) &&
                     s.bufs[s.procs[p].b].count > 0
    case AskWrite(b) => Unlocked(s, b) && s.bufs[b].dirty
    case Queue(b) => Idx(|s.bufs|, b) && (s.bufs[b].io.WaitRead? || s.bufs[b].io.WaitWrite?)
    case Complete(b) => Idx(|s.bufs|, b) && (s.bufs[b].io.Reading? || s.bufs[b].io.Writing?)
  }

  function Both(s: Sys, b: int, x: Buf, p: int, q: Proc): Sys
    requires Idx(|s.bufs|, b) && IsProc(s, p)
  {
    SetProc(SetBuf(s, b, x), p, q)
  }

  /** end_request: the block on disk and the data in memory agree afterwards. */
  function Finish(s: Sys, b: int): Sys
    requires Idx(|s.bufs|, b)
  {
    var x := s.bufs[b];
    if x.io.Writing? then SetBuf(s, b, x.(io := Idle, uptodate := true)).(disk := s.disk[KeyOf(x) := x.data])
    else SetBuf(s, b, x.(io := Idle, uptodate := true, data := DiskAt(s.disk, KeyOf(x))))
  }

  ghost function Move(s: Sys, e: Event): Sys
    requires Enabled(s, e)
  {
    match e
    case Begin(p, k) => SetProc(s, p, Start(k))
    case Find(p, b) => Both(s, b, s.bufs[b].(count := s.bufs[b].count + 1), p, Pinned(s.procs[p].key, b))
    case Settle(p) => SetProc(s, p, Got(s.procs[p].key, s.procs[p].b))
    case Choose(p, b) => SetProc(s, p, Candidate(s.procs[p].key, b))
    case Sleep(p) => SetProc(s, p, Asleep(s.procs[p].key))
    case Wake(p) => SetProc(s, p, Start(s.procs[p].key))
    case Retry(p) => SetProc(s, p, Start(s.procs[p].key))
    case Claim(p) =>
      var k, b := s.procs[p].key, s.procs[p].b;
      Both(s, b, Buf(k.dev, k.block, false, false, 1, Idle, s.bufs[b].data), p, Got(k, b))
    case Look(p) =>
      var k, b := s.procs[p].key, s.procs[p].b;
      SetProc(s, p, if s.bufs[b].uptodate then Holding(k, b) else LockWait(k, b))
    case Lock(p) =>
      var k, b := s.procs[p].key, s.procs[p].b;
      var x := s.bufs[b];
      Both(s, b, if x.uptodate then x else x.(io := WaitRead), p, ReadWait(k, b))
    case Arrive(p) => SetProc(s, p, Holding(s.procs[p].key, s.procs[p].b))
    case Modify(p, data) => SetBuf(s, s.procs[p].b, s.bufs[s.procs[p].b].(data := data, dirty := true))
    case LetGo(p) => SetProc(s, p, Releasing(s.procs[p].key, s.procs[p].b))
    case Unpin(p) => Both(s, s.procs[p].b, s.bufs[s.procs[p].b].(count := s.bufs[s.procs[p].b].count - 1), p, Out)
    case AskWrite(b) => SetBuf(s, b, s.bufs[b].(io := WaitWrite))
    case Queue(b) => SetBuf(s, b, s.bufs[b].(dirty := false, io := if s.bufs[b].io.WaitRead? then Reading else Writing))
    case Complete(b) => Finish(s, b)
  }

  // ---------------------------------------------------------------- each move

  /** A move of one process that touches no buffer. */
  lemma WalkKeeps(s: Sys, p: int, q: Proc)
    requires Inv(s) && IsProc(s, p) && |s.bufs| > 0 && ProcOk(SetProc(s, p, q), p)
    requires HasPin(q) == HasPin(s.procs[p]) && (HasPin(q) ==> q.b == s.procs[p].b)
    ensures Inv(SetProc(s, p, q)) && SameContents(s, SetProc(s, p, q))
  {
    var s' := SetProc(s, p, q);
    StepKeeps(s, s', 0, s.bufs[0], p, q) by { assert BufOk(s, 0); }
    StepUnseen(s, s', 0, s.bufs[0], p, q);
  }

  /** The candidate takes on a new block: what it held is on disk, and nobody else has the new block. */
  lemma ClaimKeeps(s: Sys, p: int)
    requires Inv(s) && Enabled(s, Claim(p))
    ensures Inv(Move(s, Claim(p))) && SameContents(s, Move(s, Claim(p)))
  {
    var k, b := s.procs[p].key, s.procs[p].b;
    var s' := Move(s, Claim(p));
    assert ProcOk(s, p) && BufOk(s, b);
    ClaimOneEach(s, p);
    forall c | Idx(|s'.bufs|, c) ensures BufOk(s', c) {
      assert BufOk(s, c);
      SetProcPins(s.procs, p, Got(k, b), c);
    }
    forall r | Idx(|s'.procs|, r) ensures ProcOk(s', r) {
      assert ProcOk(s, r);
      assert PinsIt(s.procs[r], b) ==> r in Pins(s.procs, b);
    }
    forall key: Key | key.dev != 0 ensures Contents(s', key) == Contents(s, key) {
      ClaimContents(s, p, key);
    }
  }

  lemma ClaimOneEach(s: Sys, p: int)
    requires Inv(s) && Enabled(s, Claim(p))
    ensures OneEach(Move(s, Claim(p)).bufs)
  {
  }

  lemma ClaimContents(s: Sys, p: int, key: Key)
    requires Inv(s) && Enabled(s, Claim(p)) && key.dev != 0
    ensures Contents(Move(s, Claim(p)), key) == Contents(s, key)
  {
    var k, b := s.procs[p].key, s.procs[p].b;
    var s' := Move(s, Claim(p));
    ClaimOneEach(s, p);
    assert BufOk(s, b) && ProcOk(s, p);
    if key == k {
      ContentsOfDisk(s, k);
      ContentsIs(s', b);
    } else if key == KeyOf(s.bufs[b]) {
      ContentsIs(s, b);
      assert NoneFor(s'.bufs, key);
      ContentsOfDisk(s', key);
    } else if NoneFor(s.bufs, key) {
      ContentsOfDisk(s, key);
      ContentsOfDisk(s', key);
    } else {
      var c :| Idx(|s.bufs|, c) && KeyOf(s.bufs[c]) == key;
      ContentsIs(s, c);
      ContentsIs(s', c);
    }
  }

  lemma FindKeeps(s: Sys, p: int, b: int)
    requires Inv(s) && Enabled(s, Find(p, b))
    ensures Inv(Move(s, Find(p, b))) && SameContents(s, Move(s, Find(p, b)))
  {
    assert ProcOk(s, p) && BufOk(s, b);
    var x, q := s.bufs[b].(count := s.bufs[b].count + 1), Pinned(s.procs[p].key, b);
    StepKeeps(s, Move(s, Find(p, b)), b, x, p, q);
    StepUnseen(s, Move(s, Find(p, b)), b, x, p, q);
  }

  lemma UnpinKeeps(s: Sys, p: int)
    requires Inv(s) && Enabled(s, Unpin(p))
    ensures Inv(Move(s, Unpin(p))) && SameContents(s, Move(s, Unpin(p)))
  {
    var b := s.procs[p].b;
    assert ProcOk(s, p) && BufOk(s, b);
    var x := s.bufs[b].(count := s.bufs[b].count - 1);
    StepKeeps(s, Move(s, Unpin(p)), b, x, p, Out);
    StepUnseen(s, Move(s, Unpin(p)), b, x, p, Out);
  }

  lemma LockKeeps(s: Sys, p: int)
    requires Inv(s) && Enabled(s, Lock(p))
    ensures Inv(Move(s, Lock(p))) && SameContents(s, Move(s, Lock(p)))
  {
    var k, b := s.procs[p].key, s.procs[p].b;
    assert ProcOk(s, p) && BufOk(s, b);
    var x := if s.bufs[b].uptodate then s.bufs[b] else s.bufs[b].(io := WaitRead);
    StepKeeps(s, Move(s, Lock(p)), b, x, p, ReadWait(k, b));
    StepUnseen(s, Move(s, Lock(p)), b, x, p, ReadWait(k, b));
  }

  /** Driver moves: the queue, the transfer, its end. */
  lemma DriveKeeps(s: Sys, e: Event)
    requires Inv(s) && Enabled(s, e) && (e.AskWrite? || e.Queue? || e.Complete?)
    ensures Inv(Move(s, e)) && SameContents(s, Move(s, e))
  {
    var b, s' := e.b, Move(s, e);
    assert BufOk(s, b);
    StepKeeps(s, s', b, s'.bufs[b], -1, Out);
    StepUnseen(s, s', b, s'.bufs[b], -1, Out);
  }

  /** A store to a held buffer changes the contents of that one block, to what was stored. */
  lemma ModifyKeeps(s: Sys, p: int, data: Block)
    requires Inv(s) && Enabled(s, Modify(p, data))
    ensures Inv(Move(s, Modify(p, data)))
    ensures forall k: Key :: k.dev != 0 ==>
              Contents(Move(s, Modify(p, data)), k) == if k == s.procs[p].key then data else Contents(s, k)
  {
    var b, s' := s.procs[p].b, Move(s, Modify(p, data));
    assert ProcOk(s, p) && BufOk(s, b);
    StepKeeps(s, s', b, s'.bufs[b], -1, Out);
    forall k: Key | k.dev != 0 ensures Contents(s', k) == if k == s.procs[p].key then data else Contents(s, k) {
      if k == s.procs[p].key {
        ContentsIs(s', b);
      } else if NoneFor(s.bufs, k) {
        assert NoneFor(s'.bufs, k);
        ContentsOfDisk(s, k);
        ContentsOfDisk(s', k);
      } else {
        var c :| Idx(|s.bufs|, c) && KeyOf(s.bufs[c]) == k;
        ContentsIs(s, c);
        ContentsIs(s', c);
      }
    }
  }

  /** The contents a block has after the event. */
  ghost function After(s: Sys, e: Event, k: Key): Block
    requires Enabled(s, e)
  {
    if e.Modify? && s.procs[e.p].key == k then e.data else Contents(s, k)
  }

  /** An event that moves one process along and touches no buffer. */
  predicate Walks(e: Event) {
    e.Begin? || e.Settle? || e.Choose? || e.Sleep? || e.Wake? || e.Retry? || e.Look? || e.Arrive? || e.LetGo?
  }

  /** Where it takes the process. */
  function Walked(s: Sys, e: Event): Proc
    requires Walks(e) && IsProc(s, e.p) && (e.Begin? || !s.procs[e.p].Out?)
    requires e.Settle? || e.Look? || e.Arrive? || e.LetGo? ==> HasPin(s.procs[e.p]) && Idx(|s.bufs|, s.procs[e.p].b)
  {
    match e
    case Begin(_, k) => Start(k)
    case Settle(p) => Got(s.procs[p].key, s.procs[p].b)
    case Choose(p, b) => Candidate(s.procs[p].key, b)
    case Sleep(p) => Asleep(s.procs[p].key)
    case Look(p) =>
      if s.bufs[s.procs[p].b].uptodate then Holding(s.procs[p].key, s.procs[p].b)
      else LockWait(s.procs[p].key, s.procs[p].b)
    case Arrive(p) => Holding(s.procs[p].key, s.procs[p].b)
    case LetGo(p) => Releasing(s.procs[p].key, s.procs[p].b)
    case _ => Start(s.procs[e.p].key)
  }

  lemma WalkIs(s: Sys, e: Event)
    requires Inv(s) && Enabled(s, e) && Walks(e)
    ensures IsProc(s, e.p) && (e.Begin? || !s.procs[e.p].Out?)
    ensures e.Settle? || e.Look? || e.Arrive? || e.LetGo? ==> HasPin(s.procs[e.p]) && Idx(|s.bufs|, s.procs[e.p].b)
    ensures Move(s, e) == SetProc(s, e.p, Walked(s, e))
    ensures HasPin(Walked(s, e)) == HasPin(s.procs[e.p]) && (HasPin(Walked(s, e)) ==> Walked(s, e).b == s.procs[e.p].b)
    ensures ProcOk(Move(s, e), e.p)
  {
    assert ProcOk(s, e.p);
    hide OneEach, DataOk, BufOk;
  }

  lemma WalksKeep(s: Sys, e: Event)
    requires Inv(s) && |s.bufs| > 0 && Enabled(s, e) && Walks(e)
    ensures Inv(Move(s, e)) && |Move(s, e).bufs| == |s.bufs| && SameContents(s, Move(s, e))
  {
    hide Inv, Move, Enabled, Walked, ProcOk;
    WalkIs(s, e);
    WalkKeeps(s, e.p, Walked(s, e));
  }

  lemma MoveKeeps(s: Sys, e: Event)
    requires Inv(s) && |s.bufs| > 0 && Enabled(s, e)
    ensures Inv(Move(s, e)) && |Move(s, e).bufs| == |s.bufs|
    ensures forall k: Key :: k.dev != 0 ==> Contents(Move(s, e), k) == After(s, e, k)
  {
    MoveSize(s, e);
    hide Contents, Inv, Move;
    if Walks(e) {
      WalksKeep(s, e);
    } else {
      match e
      case Find(p, b) => FindKeeps(s, p, b);
      case Claim(p) => ClaimKeeps(s, p);
      case Lock(p) => LockKeeps(s, p);
      case Modify(p, data) => ModifyKeeps(s, p, data);
      case Unpin(p) => UnpinKeeps(s, p);
      case AskWrite(_) => DriveKeeps(s, e);
      case Queue(_) => DriveKeeps(s, e);
      case Complete(_) => DriveKeeps(s, e);
      case _ =>
    }
  }

  lemma MoveSize(s: Sys, e: Event)
    requires Enabled(s, e)
    ensures |Move(s, e).bufs| == |s.bufs|
  {
  }

  // ---------------------------------------------------------------- whole runs

  /** Events that are not enabled are skipped, so every sequence of events is a run. */
  ghost function Run(s: Sys, es: seq<Event>): Sys {
    if es == [] then s else
    var s' := Run(s, es[..|es| - 1]);
    if Enabled(s', es[|es| - 1]) then Move(s', es[|es| - 1]) else s'
  }

  lemma {:induction false} RunAppend(s: Sys, es: seq<Event>, fs: seq<Event>)
    ensures Run(s, es + fs) == Run(Run(s, es), fs)
    decreases |fs|
  {
    if fs == [] {
      assert es + fs == es;
    } else {
      var n := |fs| - 1;
      assert (es + fs)[..|es| + n] == es + fs[..n];
      RunAppend(s, es, fs[..n]);
    }
  }

  /** The last store to block k in the run, or what it held at the start. */
  ghost function Written(s: Sys, es: seq<Event>, k: Key): Block {
    if es == [] then Contents(s, k) else
    var s', e := Run(s, es[..|es| - 1]), es[|es| - 1];
    if e.Modify? && Enabled(s', e) && s'.procs[e.p].key == k then e.data else Written(s, es[..|es| - 1], k)
  }

  /** Over every interleaving: the invariant holds, and the cache shows exactly the stores made. */
  lemma {:induction false} RunKeeps(s: Sys, es: seq<Event>)
    requires Inv(s) && |s.bufs| > 0
    ensures Inv(Run(s, es)) && |Run(s, es).bufs| == |s.bufs|
    ensures forall k: Key :: k.dev != 0 ==> Contents(Run(s, es), k) == Written(s, es, k)
  {
    hide Contents, Move, Enabled, Inv;
    if es != [] {
      RunKeeps(s, es[..|es| - 1]);
      var s', e := Run(s, es[..|es| - 1]), es[|es| - 1];
      if Enabled(s', e) {
        MoveKeeps(s', e);
      }
    }
  }

  /** What bread returned is the block: at every point of every run, for as long as it is held. */
  lemma HeldIsContents(s: Sys, es: seq<Event>, p: int)
    requires Inv(s) && |s.bufs| > 0
    requires var t := Run(s, es); IsProc(t, p) && t.procs[p].Holding?
    ensures var t := Run(s, es); var q := t.procs[p];
      Idx(|t.bufs|, q.b) && KeyOf(t.bufs[q.b]) == q.key && t.bufs[q.b].data == Written(s, es, q.key)
  {
    RunKeeps(s, es);
    var t := Run(s, es);
    assert ProcOk(t, p);
    ContentsIs(t, t.procs[p].b);
  }

  /** A buffer somebody counts keeps its block through every event, so the test in get_hash_table never fails. */
  lemma CountedKeepsBlock(s: Sys, e: Event, b: int)
    requires Inv(s) && Enabled(s, e) && Idx(|s.bufs|, b) && s.bufs[b].count > 0
    ensures KeyOf(Move(s, e).bufs[b]) == KeyOf(s.bufs[b])
  {
  }
}

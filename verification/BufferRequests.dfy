/** The buffer cache above its request table: each transfer in progress is one pending request. That no two requests
    are for one block, on which the elevator's order rests, follows from the lock and from one buffer per block. */
module BufferRequests {
  import opened Basics
  import opened BufferModel
  import opened BufferMoves
  import R = RequestModel
  import RS = RequestSteps
  import RT = Requests

  datatype Joint = Joint(sys: Sys, rq: R.Sys)

  predicate InTransfer(x: Buf) {
    x.io.Reading? || x.io.Writing?
  }

  function Command(x: Buf): int {
    if x.io.Reading? || x.io.WaitRead? then R.READ else R.WRITE
  }

  /** The request that make_request fills in for buffer b. */
  function AskFor(x: Buf, b: int): R.Request {
    R.Request(x.dev, Command(x), 2 * x.block, 2, b, -1)
  }

  /** A pending request is for a buffer in transfer, and for its block. */
  predicate ForBuffer(bufs: seq<Buf>, r: R.Request) {
    r.dev >= 0 ==>
      Idx(|bufs|, r.bh) && InTransfer(bufs[r.bh]) && r.dev == bufs[r.bh].dev && r.sector / 2 == bufs[r.bh].block &&
      r.cmd == Command(bufs[r.bh])
  }

  predicate Serves(slots: seq<R.Request>, i: int, b: int) {
    0 <= i < |slots| && slots[i].dev >= 0 && slots[i].bh == b
  }

  ghost predicate Joined(bufs: seq<Buf>, slots: seq<R.Request>) {
    (forall i :: Idx(|slots|, i) ==> ForBuffer(bufs, slots[i])) &&
    (forall b :: Idx(|bufs|, b) && InTransfer(bufs[b]) ==> exists i :: Serves(slots, i, b))
  }

  ghost predicate JointInv(j: Joint) {
    Inv(j.sys) && R.Inv(j.rq) && Joined(j.sys.bufs, j.rq.slots)
  }

  /** A buffer that is not in transfer has no request pending for its block. */
  lemma NotPending(j: Joint, b: int)
    requires JointInv(j) && Idx(|j.sys.bufs|, b) && !InTransfer(j.sys.bufs[b]) && j.sys.bufs[b].dev != 0
    ensures !RT.Pending(j.rq.slots, j.sys.bufs[b].dev, j.sys.bufs[b].block)
  {
    var x := j.sys.bufs[b];
    forall i | 0 <= i < |j.rq.slots| && j.rq.slots[i].dev == x.dev && j.rq.slots[i].dev >= 0
      ensures j.rq.slots[i].sector / 2 != x.block
    {
      assert Idx(|j.rq.slots|, i) && ForBuffer(j.sys.bufs, j.rq.slots[i]);
    }
  }

  /** Buffers in transfer and pending requests correspond one to one. */
  lemma OneRequest(j: Joint, b: int)
    requires JointInv(j) && Idx(|j.sys.bufs|, b)
    ensures InTransfer(j.sys.bufs[b]) <==> exists i :: Serves(j.rq.slots, i, b)
    ensures forall i, k :: Serves(j.rq.slots, i, b) && Serves(j.rq.slots, k, b) ==> i == k
    ensures forall i :: Serves(j.rq.slots, i, b) ==>
              var r, x := j.rq.slots[i], j.sys.bufs[b];
              r.dev == x.dev && r.sector / 2 == x.block && (x.io.Reading? <==> r.cmd == 0) &&
              (x.io.Writing? <==> r.cmd == 1)
  {
    forall i | Serves(j.rq.slots, i, b) ensures ForBuffer(j.sys.bufs, j.rq.slots[i]) {
      assert Idx(|j.rq.slots|, i);
    }
    forall i, k | Serves(j.rq.slots, i, b) && Serves(j.rq.slots, k, b) ensures i == k {
      assert R.IsReq(i) && R.IsReq(k) && R.Apart(j.rq.slots, i, k);
    }
  }

  // ---------------------------------------------------------------- events of both

  /** What an event does to the request table: queueing a buffer takes a slot, and its transfer ends when its request,
      first in the queue, has had its last sector. */
  ghost predicate Served(s: Sys, rq: R.Sys, e: Event, rq': R.Sys) {
    match e
    case Queue(b) =>
      Idx(|s.bufs|, b) && |rq.slots| == R.NR_REQUEST && RT.Room(rq.slots, Command(s.bufs[b])) &&
      RT.Made(rq, rq', AskFor(s.bufs[b], b))
    case Complete(b) => exists m :: LastSector(rq, m, b) && RS.Finished(rq, rq', m)
    case _ => rq' == rq
  }

  /** Device m is serving the last sector of the request for buffer b. */
  predicate LastSector(rq: R.Sys, m: int, b: int) {
    Idx(R.NR_BLK_DEV, m) && m < |rq.queues| && m < |rq.heads| && rq.queues[m] != [] &&
    0 <= rq.heads[m] < |rq.slots| && rq.slots[rq.heads[m]].bh == b && rq.slots[rq.heads[m]].nrSectors == 1
  }

  ghost predicate JointStep(j: Joint, e: Event, j': Joint) {
    Enabled(j.sys, e) && j'.sys == Move(j.sys, e) && Served(j.sys, j.rq, e, j'.rq)
  }

  /** Events other than these two leave transfers alone. */
  lemma MoveTransfers(s: Sys, e: Event, b: int)
    requires Enabled(s, e) && !e.Queue? && !e.Complete? && Idx(|s.bufs|, b)
    ensures var x, x' := s.bufs[b], Move(s, e).bufs[b];
      (InTransfer(x') <==> InTransfer(x)) && (InTransfer(x) ==> x'.io == x.io && KeyOf(x') == KeyOf(x))
  {
  }

  lemma MoveJoined(j: Joint, e: Event, j': Joint)
    requires JointInv(j) && JointStep(j, e, j') && !e.Queue? && !e.Complete?
    ensures Joined(j'.sys.bufs, j'.rq.slots)
  {
    MoveSize(j.sys, e);
    hide Inv, R.Inv, Move, Enabled;
    var bufs, bufs' := j.sys.bufs, j'.sys.bufs;
    forall i | Idx(|j'.rq.slots|, i) ensures ForBuffer(bufs', j'.rq.slots[i]) {
      assert ForBuffer(bufs, j.rq.slots[i]);
      if j.rq.slots[i].dev >= 0 { MoveTransfers(j.sys, e, j.rq.slots[i].bh); }
    }
    forall b | Idx(|bufs'|, b) && InTransfer(bufs'[b]) ensures exists i :: Serves(j'.rq.slots, i, b) {
      MoveTransfers(j.sys, e, b);
    }
  }

  lemma QueueJoined(j: Joint, b: int, j': Joint)
    requires JointInv(j) && JointStep(j, Queue(b), j')
    ensures R.Inv(j'.rq) && Joined(j'.sys.bufs, j'.rq.slots)
  {
    hide R.QueueOk, R.SlotOk, R.Apart, RS.Entered, RS.Place, ProcOk;
    var x := j.sys.bufs[b];
    var r := AskFor(x, b);
    assert BufOk(j.sys, b);
    NotPending(j, b);
    var m := R.Major(r.dev);
    var i, n: nat :| RT.Highest(j.rq.slots, r.cmd, i) && RS.Entered(j.rq, j'.rq, m, i, r, n) && RS.Place(j.rq, m, r, n);
    MadeFits(j.rq, r, x.dev, x.block);
    RoomUsed(j.rq, j'.rq, r, i, n);
    Enters(j, b, j', i, n);
  }

  lemma Enters(j: Joint, b: int, j': Joint, i: int, n: nat)
    requires |j.rq.slots| == R.NR_REQUEST && Idx(|j.sys.bufs|, b) && Joined(j.sys.bufs, j.rq.slots) && R.IsReq(i)
    requires j.rq.slots[i].dev < 0 && Enabled(j.sys, Queue(b)) && j'.sys == Move(j.sys, Queue(b))
    requires RS.Entered(j.rq, j'.rq, R.Major(j.sys.bufs[b].dev), i, AskFor(j.sys.bufs[b], b), n)
    ensures Joined(j'.sys.bufs, j'.rq.slots)
  {
    var x, r, m := j.sys.bufs[b], AskFor(j.sys.bufs[b], b), R.Major(j.sys.bufs[b].dev);
    var bufs, bufs' := j.sys.bufs, j'.sys.bufs;
    forall k | Idx(|j'.rq.slots|, k) ensures ForBuffer(bufs', j'.rq.slots[k]) {
      assert R.IsReq(k) && j'.rq.slots[k] == RS.EnterAt(j.rq.slots, j.rq.queues[m], n, i, r, k);
      assert ForBuffer(bufs, j.rq.slots[k]);
    }
    forall c | Idx(|bufs'|, c) && InTransfer(bufs'[c]) ensures exists k :: Serves(j'.rq.slots, k, c) {
      if c == b {
        assert j'.rq.slots[i] == RS.EnterAt(j.rq.slots, j.rq.queues[m], n, i, r, i);
        assert Serves(j'.rq.slots, i, b);
      } else {
        var k :| Serves(j.rq.slots, k, c);
        assert R.IsReq(k) && j'.rq.slots[k] == RS.EnterAt(j.rq.slots, j.rq.queues[m], n, i, r, k);
        assert Serves(j'.rq.slots, k, c);
      }
    }
  }

  /** A request for a block of which none is pending differs from all that are. */
  lemma MadeFits(rq: R.Sys, r: R.Request, dev: int, block: nat)
    requires |rq.slots| == R.NR_REQUEST && r.dev == dev && dev >= 0
    requires r.sector == 2 * block && !RT.Pending(rq.slots, dev, block)
    ensures forall x :: R.IsReq(x) && rq.slots[x].dev >= 0 ==> R.Differ(R.KeyOf(rq.slots[x]), R.KeyOf(r))
  {
  }

  /** Wherever the request was put, the table's invariant holds. */
  lemma RoomUsed(rq: R.Sys, rq': R.Sys, r: R.Request, i: int, n: nat)
    requires R.Inv(rq) && R.IsReq(i) && rq.slots[i].dev < 0 && r.dev >= 0 && Idx(R.NR_BLK_DEV, R.Major(r.dev))
    requires r.sector % 2 == 0 && r.nrSectors == 2 && (r.cmd == R.READ || r.cmd == R.WRITE)
    requires r.cmd == R.WRITE ==> i < R.NR_REQUEST * 2 / 3
    requires forall x :: R.IsReq(x) && rq.slots[x].dev >= 0 ==> R.Differ(R.KeyOf(rq.slots[x]), R.KeyOf(r))
    requires RS.Place(rq, R.Major(r.dev), r, n) && RS.Entered(rq, rq', R.Major(r.dev), i, r, n)
    ensures R.Inv(rq')
  {
    assert RS.Fits(rq, R.Major(r.dev), i, r);
    RS.EnterKeeps(rq, rq', R.Major(r.dev), i, r, n);
  }

  lemma CompleteJoined(j: Joint, b: int, j': Joint)
    requires JointInv(j) && JointStep(j, Complete(b), j')
    ensures R.Inv(j'.rq) && Joined(j'.sys.bufs, j'.rq.slots)
  {
    var m :| LastSector(j.rq, m, b) && RS.Finished(j.rq, j'.rq, m);
    RS.FinishKeeps(j.rq, j'.rq, m);
    HeadServes(j.rq, m);
    OneRequest(j, b);
    assert Serves(j.rq.slots, j.rq.heads[m], b);
    hide Inv, R.Inv, Joined;
    Leaves(j, b, j', j.rq.heads[m]);
  }

  lemma HeadServes(rq: R.Sys, m: int)
    requires R.Inv(rq) && Idx(R.NR_BLK_DEV, m) && rq.queues[m] != []
    ensures R.IsReq(rq.heads[m]) && rq.slots[rq.heads[m]].dev >= 0
    ensures rq.slots[rq.heads[m]].nrSectors == 1 ||
            (rq.slots[rq.heads[m]].nrSectors == 2 && rq.slots[rq.heads[m]].sector % 2 == 0)
  {
    assert R.QueueOk(rq.slots, m, rq.heads[m], rq.queues[m]);
    assert Idx(|rq.queues[m]|, 0) && R.LinkedAt(rq.slots, m, rq.queues[m], 0);
  }

  lemma Leaves(j: Joint, b: int, j': Joint, i: int)
    requires Joined(j.sys.bufs, j.rq.slots) && Enabled(j.sys, Complete(b)) && j'.sys == Move(j.sys, Complete(b))
    requires Serves(j.rq.slots, i, b) && forall k :: Serves(j.rq.slots, k, b) ==> k == i
    requires j'.rq.slots == j.rq.slots[i := j.rq.slots[i].(dev := -1)]
    ensures Joined(j'.sys.bufs, j'.rq.slots)
  {
    var bufs, bufs' := j.sys.bufs, j'.sys.bufs;
    forall k | Idx(|j'.rq.slots|, k) ensures ForBuffer(bufs', j'.rq.slots[k]) {
      assert ForBuffer(bufs, j.rq.slots[k]);
      assert k != i && j.rq.slots[k].dev >= 0 ==> !Serves(j.rq.slots, k, b);
    }
    forall c | Idx(|bufs'|, c) && InTransfer(bufs'[c]) ensures exists k :: Serves(j'.rq.slots, k, c) {
      var k :| Serves(j.rq.slots, k, c);
      assert Serves(j'.rq.slots, k, c);
    }
  }

  /** Every event keeps both invariants and the correspondence. */
  lemma JointKeeps(j: Joint, e: Event, j': Joint)
    requires JointInv(j) && |j.sys.bufs| > 0 && JointStep(j, e, j')
    ensures JointInv(j') && |j'.sys.bufs| == |j.sys.bufs|
  {
    hide Inv, R.Inv, Move, Enabled, Joined;
    MoveKeeps(j.sys, e);
    if e.Queue? {
      QueueJoined(j, e.b, j');
    } else if e.Complete? {
      CompleteJoined(j, e.b, j');
    } else {
      MoveJoined(j, e, j');
    }
  }

  /** One sector of a request that is not its last shows to nobody above. */
  lemma AdvanceJoined(j: Joint, rq': R.Sys, m: int)
    requires JointInv(j) && Idx(R.NR_BLK_DEV, m) && j.rq.queues[m] != [] && RS.Advanced(j.rq, rq', m)
    requires j.rq.slots[j.rq.heads[m]].nrSectors == 2
    ensures JointInv(j.(rq := rq'))
  {
    HeadServes(j.rq, m);
    RS.AdvanceKeeps(j.rq, rq', m);
    hide Inv, R.Inv;
    var i := j.rq.heads[m];
    forall k | Idx(|rq'.slots|, k) ensures ForBuffer(j.sys.bufs, rq'.slots[k]) {
      assert ForBuffer(j.sys.bufs, j.rq.slots[k]);
    }
    forall b | Idx(|j.sys.bufs|, b) && InTransfer(j.sys.bufs[b]) ensures exists k :: Serves(rq'.slots, k, b) {
      var k :| Serves(j.rq.slots, k, b);
      assert Serves(rq'.slots, k, b);
    }
  }

  // ---------------------------------------------------------------- runs of both

  ghost predicate Runs(j: Joint, es: seq<Event>, j': Joint)
    decreases |es|
  {
    if es == [] then j' == j
    else exists k :: Runs(j, Front(es), k) && JointStep(k, Last(es), j')
  }

  function Front(es: seq<Event>): (f: seq<Event>)
    requires es != []
    ensures |f| < |es|
  {
    es[..|es| - 1]
  }

  function Last(es: seq<Event>): Event
    requires es != []
  {
    es[|es| - 1]
  }

  /** A run of both is a run of the cache. */
  lemma {:induction false} RunsIs(j: Joint, es: seq<Event>, j': Joint)
    requires JointInv(j) && |j.sys.bufs| > 0 && Runs(j, es, j')
    ensures j'.sys == Run(j.sys, es) && JointInv(j') && |j'.sys.bufs| == |j.sys.bufs|
  {
    hide JointInv, Enabled, Move, Served;
    if es != [] {
      var k :| Runs(j, Front(es), k) && JointStep(k, Last(es), j');
      RunsIs(j, Front(es), k);
      JointKeeps(k, Last(es), j');
    }
  }

  lemma RunsOne(j: Joint, e: Event, j': Joint)
    requires JointStep(j, e, j')
    ensures Runs(j, [e], j')
  {
    assert Front([e]) == [] && Last([e]) == e && Runs(j, [], j);
  }

  lemma {:induction false} RunsAppend(j: Joint, es: seq<Event>, k: Joint, fs: seq<Event>, j': Joint)
    requires Runs(j, es, k) && Runs(k, fs, j')
    ensures Runs(j, es + fs, j')
    decreases |fs|
  {
    hide JointStep;
    if fs == [] {
      assert es + fs == es;
    } else {
      var l :| Runs(k, Front(fs), l) && JointStep(l, Last(fs), j');
      RunsAppend(j, es, k, Front(fs), l);
      assert Front(es + fs) == es + Front(fs) && Last(es + fs) == Last(fs);
    }
  }
}

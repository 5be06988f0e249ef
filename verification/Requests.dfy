/** make_request, add_request and end_request on the request table (kernel/blk_drv/ll_rw_blk.c,
    kernel/blk_drv/blk.h), with the sector count of kernel/blk_drv/hd.c. */
module Requests {
  import opened Basics
  import opened Tasks
  import opened RequestModel
  import opened RequestSteps

  /** A request for this block is pending. */
  predicate Pending(slots: seq<Request>, dev: int, block: int) {
    exists i :: 0 <= i < |slots| && slots[i].dev == dev && slots[i].dev >= 0 && slots[i].sector / 2 == block
  }

  /** add_request's test between two neighbours of the queue. */
  predicate StopsAt(slots: seq<Request>, a: int, b: int, r: Key)
    requires 0 <= a < |slots| && 0 <= b < |slots|
  {
    (InOrder(KeyOf(slots[a]), r) || !InOrder(KeyOf(slots[a]), KeyOf(slots[b]))) && InOrder(r, KeyOf(slots[b]))
  }

  /** How much of the table the command may use: a write leaves the last third to reads. */
  function Top(cmd: int): nat {
    if cmd == READ then NR_REQUEST else NR_REQUEST * 2 / 3
  }

  /** A slot that the command may use is free. */
  predicate Room(slots: seq<Request>, cmd: int)
    requires |slots| == NR_REQUEST
  {
    exists x :: 0 <= x < Top(cmd) && slots[x].dev < 0
  }

  /** The highest free slot the command may use. */
  predicate Highest(slots: seq<Request>, cmd: int, i: int)
    requires |slots| == NR_REQUEST
  {
    0 <= i < Top(cmd) && slots[i].dev < 0 && forall x :: i < x < Top(cmd) ==> slots[x].dev >= 0
  }

  /** r was linked into its device's queue from the highest free slot, where the elevator puts it. */
  ghost predicate Made(s: Sys, s': Sys, r: Request) {
    |s.slots| == NR_REQUEST && Idx(|s.queues|, Major(r.dev)) &&
    exists i, j :: Highest(s.slots, r.cmd, i) && Entered(s, s', Major(r.dev), i, r, j) && Place(s, Major(r.dev), r, j)
  }

  class Table {
    var slots: seq<Request>
    var heads: seq<int>
    ghost var queues: seq<seq<int>>

    ghost function Abs(): Sys
      reads this
    {
      Sys(slots, heads, queues)
    }

    /** blk_dev_init. */
    constructor ()
      ensures Inv(Abs()) && forall i :: IsReq(i) ==> slots[i].dev == -1
    {
      slots := seq(NR_REQUEST, i => Request(-1, READ, 0, 0, NULL, NULL));
      heads := seq(NR_BLK_DEV, i => NULL);
      queues := seq(NR_BLK_DEV, i => []);
      new;
      forall m | Idx(NR_BLK_DEV, m) ensures QueueOk(slots, m, heads[m], queues[m]) {
        assert Sweeps(Keys(slots, []), 0);
      }
    }

    /** The search of make_request: from the top of the table for a read, from two thirds for a write. */
    method FindSlot(cmd: int) returns (i: int)
      requires |slots| == NR_REQUEST
      ensures if i == -1 then !Room(slots, cmd) else Highest(slots, cmd, i)
      ensures var top := if cmd == 0 then 32 else 21;
        -1 <= i < top && (i >= 0 ==> slots[i].dev < 0) && forall x :: i < x < top ==> slots[x].dev >= 0
    {
      i := if cmd == READ then NR_REQUEST else NR_REQUEST * 2 / 3;
      i := i - 1;
      while i >= 0 && slots[i].dev >= 0
        invariant -1 <= i < Top(cmd) && forall x :: i < x < Top(cmd) ==> slots[x].dev >= 0
      {
        i := i - 1;
      }
    }

    /** add_request of r in the free slot i. */
    method AddRequest(m: int, i: int, r: Request) returns (ghost j: nat)
      requires Inv(Abs()) && Idx(NR_BLK_DEV, m) && Fits(Abs(), m, i, r)
      modifies this
      ensures Inv(Abs()) && Place(old(Abs()), m, r, j) && Entered(old(Abs()), Abs(), m, i, r, j)
      ensures Placed(old(slots), old(queues)[m], r, j) && queues == old(queues)[m := Insert(old(queues)[m], j, i)]
    {
      hide Inv, Fits, QueueOk, Elevator;
      ghost var s := Abs();
      Sizes(s, m);
      FitsFree(s, m, i, r);
      ghost var q := queues[m];
      ghost var keys := Keys(slots, q);
      var tmp := heads[m];
      if tmp == NULL {
        slots := slots[i := r.(next := NULL)];
        heads := heads[m := i];
        j := 0;
      } else {
        ghost var t := 0;
        AtEntry(s, m, 0);
        while slots[tmp].next != NULL && !StopsAt(slots, tmp, slots[tmp].next, KeyOf(r))
          invariant Abs() == s && 0 <= t < |q| && tmp == q[t] && IsReq(tmp) && slots[tmp].next == After(q, t)
          invariant t + 1 < |q| ==> IsReq(q[t + 1])
          invariant forall k :: 0 <= k < t ==> !Stop(keys, k, KeyOf(r))
          decreases |q| - t
        {
          tmp := slots[tmp].next;
          t := t + 1;
          AtEntry(s, m, t);
        }
        assert Spot(keys, t, KeyOf(r));
        AtEntry(s, m, t);
        slots := slots[i := r.(next := slots[tmp].next)];
        slots := slots[tmp := slots[tmp].(next := i)];
        j := t + 1;
      }
      PlaceMeans(s, m, i, r, j);
      queues := queues[m := Insert(q, j, i)];
      assert Entered(s, Abs(), m, i, r, j);
      EnterKeeps(s, Abs(), m, i, r, j);
    }

    /** make_request for buffer bh, once it is locked and found to need the transfer. When no slot is free a
        read-ahead or write-ahead gives up and other callers sleep and come again. */
    method MakeRequest(cmd: int, dev: int, block: nat, bh: int) returns (queued: bool)
      requires Inv(Abs()) && (cmd == READ || cmd == WRITE) && dev >= 0
      requires Major(dev) < NR_BLK_DEV && !Pending(slots, dev, block)
      modifies this
      ensures Inv(Abs())
      ensures |old(slots)| == NR_REQUEST && (queued <==> Room(old(slots), cmd))
      ensures !queued ==> Abs() == old(Abs())
      ensures queued ==> Made(old(Abs()), Abs(), Request(dev, cmd, 2 * block, 2, bh, NULL))
    {
      hide QueueOk, Entered, Elevator;
      var i := FindSlot(cmd);
      if i < 0 {
        return false;
      }
      var r := Request(dev, cmd, 2 * block, 2, bh, NULL);
      assert Fits(Abs(), Major(dev), i, r) && Highest(slots, cmd, i);
      ghost var j := AddRequest(Major(dev), i, r);
      return true;
    }

    /** end_request. */
    method EndRequest(m: int)
      requires Inv(Abs()) && Idx(NR_BLK_DEV, m) && queues[m] != []
      modifies this
      ensures Finished(old(Abs()), Abs(), m) && Inv(Abs())
    {
      hide Inv;
      ghost var s := Abs();
      Sizes(s, m);
      AtEntry(s, m, 0);
      var i := heads[m];
      slots := slots[i := slots[i].(dev := -1)];
      heads := heads[m := slots[i].next];
      queues := queues[m := queues[m][1..]];
      assert Finished(s, Abs(), m);
      FinishKeeps(s, Abs(), m);
    }

    /** read_intr or write_intr after a good transfer of one sector. */
    method SectorDone(m: int) returns (done: bool)
      requires Inv(Abs()) && Idx(NR_BLK_DEV, m) && queues[m] != []
      modifies this
      ensures Inv(Abs())
      ensures if done then Finished(old(Abs()), Abs(), m) else Advanced(old(Abs()), Abs(), m)
      ensures IsReq(old(heads)[m]) && |old(slots)| == NR_REQUEST && (done <==> old(slots)[old(heads)[m]].nrSectors != 2)
    {
      hide Inv;
      ghost var s := Abs();
      Sizes(s, m);
      AtEntry(s, m, 0);
      var i := heads[m];
      if slots[i].nrSectors - 1 != 0 {
        slots := slots[i := slots[i].(sector := slots[i].sector + 1, nrSectors := slots[i].nrSectors - 1)];
        AdvanceKeeps(s, Abs(), m);
        return false;
      }
      EndRequest(m);
      return true;
    }
  }

  lemma Sizes(s: Sys, m: int)
    requires Inv(s) && Idx(NR_BLK_DEV, m)
    ensures |s.slots| == NR_REQUEST && |s.heads| == NR_BLK_DEV && |s.queues| == NR_BLK_DEV
    ensures s.heads[m] == First(s.queues[m]) && (s.queues[m] != [] ==> s.heads[m] != NULL)
  {
    assert QueueOk(s.slots, m, s.heads[m], s.queues[m]);
    if s.queues[m] != [] { Member(s, m, s.queues[m][0]); }
  }

  lemma FitsFree(s: Sys, m: int, i: int, r: Request)
    requires Inv(s) && Idx(NR_BLK_DEV, m) && |s.slots| == NR_REQUEST && |s.queues| == NR_BLK_DEV && Fits(s, m, i, r)
    ensures IsReq(i) && i !in s.queues[m]
  {
    if i in s.queues[m] { Member(s, m, i); }
  }

  lemma AtEntry(s: Sys, m: int, k: nat)
    requires Inv(s) && Idx(NR_BLK_DEV, m) && |s.slots| == NR_REQUEST && |s.queues| == NR_BLK_DEV && k < |s.queues[m]|
    ensures IsReq(s.queues[m][k]) && s.slots[s.queues[m][k]].next == After(s.queues[m], k)
    ensures s.slots[s.queues[m][k]].nrSectors == 1 || s.slots[s.queues[m][k]].nrSectors == 2
    ensures k + 1 < |s.queues[m]| ==> IsReq(s.queues[m][k + 1])
    ensures forall x :: 0 <= x < |s.queues[m]| && x != k ==> s.queues[m][x] != s.queues[m][k]
  {
    var q := s.queues[m];
    assert QueueOk(s.slots, m, s.heads[m], q);
    assert Idx(|q|, k) && LinkedAt(s.slots, m, q, k);
    if k + 1 < |q| { assert Idx(|q|, k + 1) && LinkedAt(s.slots, m, q, k + 1); }
    forall x | 0 <= x < |q| && x != k ensures q[x] != q[k] { assert Idx(|q|, x); }
  }
}

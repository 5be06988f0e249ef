/** Block device requests and the order the elevator keeps them in (kernel/blk_drv/blk.h,
    kernel/blk_drv/ll_rw_blk.c), all of them for buffers of one block. */
module RequestModel {
  import opened Basics
  import opened Tasks

  const NR_REQUEST: nat := 32
  const NR_BLK_DEV: nat := 7
  const READ: int := 0
  const WRITE: int := 1

  /** dev is -1 in a free slot; bh is the buffer it is for; next is a slot or NULL. */
  datatype Request = Request(dev: int, cmd: int, sector: int, nrSectors: int, bh: int, next: int)

  /** queues[m] lists the slots of major device m's requests, the one being served first. */
  datatype Sys = Sys(slots: seq<Request>, heads: seq<int>, queues: seq<seq<int>>)

  predicate IsReq(i: int) {
    0 <= i < NR_REQUEST
  }

  function Major(dev: int): int {
    dev / 256
  }

  // ---------------------------------------------------------------- the order

  datatype Key = Key(cmd: int, dev: int, sector: int)

  function KeyOf(r: Request): Key {
    Key(r.cmd, r.dev, r.sector)
  }

  /** IN_ORDER: reads first, then by device, then by sector. */
  predicate InOrder(a: Key, b: Key) {
    a.cmd < b.cmd || (a.cmd == b.cmd && (a.dev < b.dev || (a.dev == b.dev && a.sector < b.sector)))
  }

  /** The order on the requests themselves: a read before a write; of one kind the lower device first, and on one device
      the lower sector. */
  predicate Precedes(a: Request, b: Request) {
    (a.cmd == 0 && b.cmd == 1) ||
    (a.cmd == b.cmd && (a.dev < b.dev || (a.dev == b.dev && a.sector < b.sector)))
  }

  lemma OrderIs(a: Request, b: Request)
    requires 0 <= a.cmd <= 1 && 0 <= b.cmd <= 1
    ensures InOrder(KeyOf(a), KeyOf(b)) <==> Precedes(a, b)
  {
  }

  /** Requests for different blocks. */
  predicate Differ(a: Key, b: Key) {
    a.dev != b.dev || a.sector / 2 != b.sector / 2
  }

  predicate Pair(n: nat, i: int) {
    0 <= i && i + 1 < n
  }

  /** Two ascending sweeps, the second starting at d; at most one pair of neighbours is out of order. */
  ghost predicate Sweeps(rs: seq<Key>, d: int) {
    forall i :: Pair(|rs|, i) && i + 1 != d ==> InOrder(rs[i], rs[i + 1])
  }

  ghost predicate Elevator(rs: seq<Key>) {
    exists d :: Sweeps(rs, d)
  }

  /** add_request stops behind t. */
  predicate Stop(rs: seq<Key>, t: int, r: Key)
    requires 0 <= t < |rs| - 1
  {
    (InOrder(rs[t], r) || !InOrder(rs[t], rs[t + 1])) && InOrder(r, rs[t + 1])
  }

  function Insert<T>(xs: seq<T>, j: nat, x: T): seq<T>
    requires j <= |xs|
  {
    xs[..j] + [x] + xs[j..]
  }

  /** Where add_request puts r: behind the first entry to stop at, or at the end; never in front. */
  ghost predicate Spot(rs: seq<Key>, t: int, r: Key) {
    0 <= t < |rs| && (forall i :: 0 <= i < t ==> !Stop(rs, i, r)) && (t == |rs| - 1 || Stop(rs, t, r))
  }

  lemma InsertSweeps(rs: seq<Key>, d: int, t: int, r: Key)
    requires Sweeps(rs, d) && Spot(rs, t, r) && forall i :: 0 <= i < |rs| ==> Differ(rs[i], r)
    ensures Elevator(Insert(rs, t + 1, r))
  {
    var rs' := Insert(rs, t + 1, r);
    var d' :=
      if t < |rs| - 1 then (if d <= t + 1 then d else d + 1)
      else if 0 < d < |rs| && !InOrder(rs[d - 1], rs[d]) then d
      else |rs|;
    if t == |rs| - 1 && d' == d && d < |rs| {
      assert !Stop(rs, d - 1, r);
      Climb(rs, d, r, |rs| - 1);
    }
    forall i | Pair(|rs'|, i) && i + 1 != d' ensures InOrder(rs'[i], rs'[i + 1]) {
      if i < t {
        assert Pair(|rs|, i) && rs'[i] == rs[i] && rs'[i + 1] == rs[i + 1];
      } else if i > t + 1 {
        assert Pair(|rs|, i - 1) && rs'[i] == rs[i - 1] && rs'[i + 1] == rs[i];
      } else if t < |rs| - 1 {
        assert Pair(|rs|, t);
      }
    }
    assert Sweeps(rs', d');
  }

  /** Past the start of the second sweep everything walked over comes before r. */
  lemma {:induction false} Climb(rs: seq<Key>, d: int, r: Key, k: int)
    requires Sweeps(rs, d) && 0 < d <= k < |rs| && InOrder(rs[d], r)
    requires forall i :: 0 <= i < |rs| - 1 ==> !Stop(rs, i, r)
    requires forall i :: 0 <= i < |rs| ==> Differ(rs[i], r)
    ensures InOrder(rs[k], r)
    decreases k
  {
    if k > d {
      Climb(rs, d, r, k - 1);
      assert !Stop(rs, k - 1, r) && Differ(rs[k], r);
    }
  }

  /** A new request gets in front of entry k only if it comes before it in order, or if entry k belongs to a
      later sweep than the one the new request joins. */
  lemma {:induction false} Overtakes(rs: seq<Key>, t: int, r: Key, k: int)
    requires Spot(rs, t, r) && t < k < |rs|
    ensures InOrder(r, rs[k]) || exists d :: t + 1 < d <= k && !InOrder(rs[d - 1], rs[d])
    decreases k
  {
    if k > t + 1 {
      Overtakes(rs, t, r, k - 1);
      if InOrder(r, rs[k - 1]) {
        assert InOrder(rs[k - 1], rs[k]) || (t + 1 < k <= k && !InOrder(rs[k - 1], rs[k]));
      }
    }
  }

  /** Serving a sector moves the head's sector number on by one, within its block. */
  lemma AdvanceSweeps(rs: seq<Key>, rs': seq<Key>)
    requires Elevator(rs) && rs != [] && |rs'| == |rs| && rs' == rs[0 := rs'[0]]
    requires rs'[0].dev == rs[0].dev && rs'[0].cmd == rs[0].cmd
    requires rs'[0].sector == rs[0].sector + 1 && rs[0].sector % 2 == 0
    requires |rs| > 1 ==> Differ(rs[0], rs[1])
    ensures Elevator(rs')
  {
    var d :| Sweeps(rs, d);
    forall i | Pair(|rs'|, i) && i + 1 != d ensures InOrder(rs'[i], rs'[i + 1]) {
      assert Pair(|rs|, i);
    }
    assert Sweeps(rs', d);
  }

  lemma RestSweeps(rs: seq<Key>)
    requires Elevator(rs) && rs != []
    ensures Elevator(rs[1..])
  {
    var d :| Sweeps(rs, d);
    forall i | Pair(|rs[1..]|, i) && i + 1 != d - 1 ensures InOrder(rs[1..][i], rs[1..][i + 1]) {
      assert Pair(|rs|, i + 1);
    }
    assert Sweeps(rs[1..], d - 1);
  }

  // ---------------------------------------------------------------- the invariant

  predicate LinkedAt(slots: seq<Request>, m: int, q: seq<int>, k: int) {
    0 <= k < |q| && IsReq(q[k]) && |slots| == NR_REQUEST &&
    slots[q[k]].dev >= 0 && Major(slots[q[k]].dev) == m && slots[q[k]].next == After(q, k) &&
    (if k == 0 && slots[q[k]].sector % 2 == 1 then slots[q[k]].nrSectors == 1
     else slots[q[k]].sector % 2 == 0 && slots[q[k]].nrSectors == 2)
  }

  function KeyAt(slots: seq<Request>, i: int): Key {
    if 0 <= i < |slots| then KeyOf(slots[i]) else Key(0, -1, 0)
  }

  function Keys(slots: seq<Request>, q: seq<int>): (rs: seq<Key>)
    ensures |rs| == |q| && forall k :: 0 <= k < |q| ==> rs[k] == KeyAt(slots, q[k])
  {
    seq(|q|, k requires 0 <= k < |q| => KeyAt(slots, q[k]))
  }

  ghost predicate QueueOk(slots: seq<Request>, m: int, head: int, q: seq<int>)
    requires |slots| == NR_REQUEST
  {
    head == First(q) && NoDup(q) && (forall k :: Idx(|q|, k) ==> LinkedAt(slots, m, q, k)) && Elevator(Keys(slots, q))
  }

  /** A slot in use is in its device's queue; writes keep to the lower two thirds of the table. */
  predicate SlotOk(s: Sys, i: int)
    requires |s.slots| == NR_REQUEST && |s.queues| == NR_BLK_DEV && IsReq(i)
  {
    s.slots[i].dev >= 0 ==>
      0 <= Major(s.slots[i].dev) < NR_BLK_DEV && i in s.queues[Major(s.slots[i].dev)] &&
      (s.slots[i].cmd == READ || s.slots[i].cmd == WRITE) && (s.slots[i].cmd == WRITE ==> i < NR_REQUEST * 2 / 3)
  }

  predicate Apart(slots: seq<Request>, i: int, j: int)
    requires |slots| == NR_REQUEST && IsReq(i) && IsReq(j)
  {
    slots[i].dev >= 0 && slots[j].dev >= 0 && i != j ==> Differ(KeyOf(slots[i]), KeyOf(slots[j]))
  }

  ghost predicate Inv(s: Sys) {
    |s.slots| == NR_REQUEST && |s.heads| == NR_BLK_DEV && |s.queues| == NR_BLK_DEV &&
    (forall m :: Idx(NR_BLK_DEV, m) ==> QueueOk(s.slots, m, s.heads[m], s.queues[m])) &&
    (forall i :: IsReq(i) ==> SlotOk(s, i)) &&
    (forall i, j :: IsReq(i) && IsReq(j) ==> Apart(s.slots, i, j))
  }
}

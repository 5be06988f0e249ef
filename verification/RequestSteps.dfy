/** A request enters a queue, the one being served moves on, or leaves. */
module RequestSteps {
  import opened Basics
  import opened Tasks
  import opened RequestModel

  lemma Member(s: Sys, m: int, i: int)
    requires Inv(s) && Idx(NR_BLK_DEV, m) && i in s.queues[m]
    ensures IsReq(i) && s.slots[i].dev >= 0 && Major(s.slots[i].dev) == m
  {
    var k :| 0 <= k < |s.queues[m]| && s.queues[m][k] == i;
    assert QueueOk(s.slots, m, s.heads[m], s.queues[m]);
    assert Idx(|s.queues[m]|, k) && LinkedAt(s.slots, m, s.queues[m], k);
  }

  /** What the invariant says of the queues: each lists exactly the pending requests of its device, each once, in at
      most two ascending sweeps. */
  lemma QueueLaw(s: Sys, m: int)
    requires Inv(s) && Idx(NR_BLK_DEV, m)
    ensures Elevator(Keys(s.slots, s.queues[m])) && NoDup(s.queues[m])
    ensures forall i :: IsReq(i) ==> (i in s.queues[m] <==> s.slots[i].dev >= 0 && s.slots[i].dev / 256 == m)
    ensures exists d :: Ascends(s.slots, s.queues[m], d)
  {
    assert QueueOk(s.slots, m, s.heads[m], s.queues[m]);
    forall i | IsReq(i) ensures i in s.queues[m] <==> s.slots[i].dev >= 0 && s.slots[i].dev / 256 == m {
      assert SlotOk(s, i);
      if i in s.queues[m] { Member(s, m, i); }
    }
    var d :| Sweeps(Keys(s.slots, s.queues[m]), d);
    SweepsAscend(s, m, d);
  }

  /** But for one place d, the command does not fall along the queue, reads being 0 and writes 1; where it stays the
      device does not fall; and where that stays too the sector rises. */
  ghost predicate Ascends(slots: seq<Request>, q: seq<int>, d: int) {
    forall k :: Pair(|q|, k) && k + 1 != d ==>
      Idx(|slots|, q[k]) && Idx(|slots|, q[k + 1]) &&
      var a, b := slots[q[k]], slots[q[k + 1]];
      a.cmd <= b.cmd && (a.cmd == b.cmd ==> a.dev <= b.dev) &&
      (a.cmd == b.cmd && a.dev == b.dev ==> a.sector < b.sector)
  }

  lemma SweepsAscend(s: Sys, m: int, d: int)
    requires Inv(s) && Idx(NR_BLK_DEV, m) && Sweeps(Keys(s.slots, s.queues[m]), d)
    ensures Ascends(s.slots, s.queues[m], d)
  {
    var q := s.queues[m];
    forall k | Pair(|q|, k) && k + 1 != d
      ensures Idx(|s.slots|, q[k]) && Idx(|s.slots|, q[k + 1]) && Precedes(s.slots[q[k]], s.slots[q[k + 1]])
    {
      InQueue(s, m, k);
      InQueue(s, m, k + 1);
      OrderIs(s.slots[q[k]], s.slots[q[k + 1]]);
    }
  }

  lemma InQueue(s: Sys, m: int, k: int)
    requires Inv(s) && Idx(NR_BLK_DEV, m) && Idx(|s.queues[m]|, k)
    ensures IsReq(s.queues[m][k]) && |s.slots| == NR_REQUEST && 0 <= s.slots[s.queues[m][k]].cmd <= 1
    ensures Keys(s.slots, s.queues[m])[k] == KeyOf(s.slots[s.queues[m][k]])
  {
    var i := s.queues[m][k];
    assert QueueOk(s.slots, m, s.heads[m], s.queues[m]) && LinkedAt(s.slots, m, s.queues[m], k);
    assert SlotOk(s, i);
  }

  // ---------------------------------------------------------------- where a new request goes

  /** add_request's test between two neighbours: r goes before b, and behind a or into a break of the order. */
  predicate Between(a: Request, r: Request, b: Request) {
    Precedes(r, b) && (Precedes(a, r) || !Precedes(a, b))
  }

  /** r goes to place j: the first but the front where it fits between two neighbours, or the end. */
  ghost predicate Placed(slots: seq<Request>, q: seq<int>, r: Request, j: nat) {
    |slots| == NR_REQUEST && (forall k :: Idx(|q|, k) ==> IsReq(q[k])) &&
    if q == [] then j == 0
    else 1 <= j <= |q| && (j < |q| ==> Between(slots[q[j - 1]], r, slots[q[j]])) &&
         forall i :: 1 <= i < j ==> !Between(slots[q[i - 1]], r, slots[q[i]])
  }

  lemma PlaceMeans(s: Sys, m: int, i: int, r: Request, j: nat)
    requires Inv(s) && Idx(NR_BLK_DEV, m) && |s.slots| == NR_REQUEST && |s.queues| == NR_BLK_DEV
    requires Fits(s, m, i, r) && Place(s, m, r, j)
    ensures Placed(s.slots, s.queues[m], r, j)
  {
    var q := s.queues[m];
    forall k | Idx(|q|, k) ensures IsReq(q[k]) { InQueue(s, m, k); }
    forall k | 1 <= k < |q| ensures Stop(Keys(s.slots, q), k - 1, KeyOf(r)) <==>
                                    Between(s.slots[q[k - 1]], r, s.slots[q[k]])
    {
      StopMeans(s, m, r, k);
    }
    hide Inv, Stop, Between;
    if q != [] {
      forall k | 1 <= k < j ensures !Between(s.slots[q[k - 1]], r, s.slots[q[k]]) {
        assert !Stop(Keys(s.slots, q), k - 1, KeyOf(r));
      }
    }
  }

  lemma StopMeans(s: Sys, m: int, r: Request, k: int)
    requires Inv(s) && Idx(NR_BLK_DEV, m) && 1 <= k < |s.queues[m]| && 0 <= r.cmd <= 1
    ensures IsReq(s.queues[m][k - 1]) && IsReq(s.queues[m][k])
    ensures Stop(Keys(s.slots, s.queues[m]), k - 1, KeyOf(r)) <==>
            Between(s.slots[s.queues[m][k - 1]], r, s.slots[s.queues[m][k]])
  {
    InQueue(s, m, k - 1);
    InQueue(s, m, k);
    var a, b := s.slots[s.queues[m][k - 1]], s.slots[s.queues[m][k]];
    OrderIs(a, r);
    OrderIs(a, b);
    OrderIs(r, b);
  }

  /** A read behind which only writes wait, and which comes after the read being served, is served next; if it comes
      before that one, it is not, unless the writes start with a break in the order. */
  lemma ReadGoesNext(slots: seq<Request>, q: seq<int>, r: Request, j: nat)
    requires Placed(slots, q, r, j) && r.cmd == 0 && |q| > 1
    requires forall k :: 1 <= k < |q| ==> slots[q[k]].cmd == 1
    ensures var h := slots[q[0]];
      j == 1 <==>
        (h.cmd == 0 && (h.dev < r.dev || (h.dev == r.dev && h.sector < r.sector))) ||
        !Precedes(h, slots[q[1]])
  {
    var a, b := slots[q[0]], slots[q[1]];
    assert b.cmd == 1 && Precedes(r, b);
    assert j == 1 <==> Between(a, r, b) by {
      if j > 1 { assert !Between(slots[q[1 - 1]], r, slots[q[1]]); }
    }
  }

  /** A queue of whose slots none has changed. */
  lemma QueueSame(slots: seq<Request>, slots': seq<Request>, m: int, head: int, q: seq<int>)
    requires |slots| == NR_REQUEST && |slots'| == NR_REQUEST && QueueOk(slots, m, head, q)
    requires forall i :: i in q && IsReq(i) ==> slots'[i] == slots[i]
    ensures QueueOk(slots', m, head, q)
  {
    forall k | Idx(|q|, k) ensures LinkedAt(slots', m, q, k) {
      assert LinkedAt(slots, m, q, k) && q[k] in q;
    }
    assert Keys(slots', q) == Keys(slots, q) by {
      forall k | 0 <= k < |q| ensures Keys(slots', q)[k] == Keys(slots, q)[k] {
        assert Idx(|q|, k) && LinkedAt(slots, m, q, k) && q[k] in q;
      }
    }
  }

  // ---------------------------------------------------------------- entering

  /** Slot x after request r has been linked in at slot i, as entry j of queue q. */
  function EnterAt(slots: seq<Request>, q: seq<int>, j: nat, i: int, r: Request, x: int): Request
    requires |slots| == NR_REQUEST && IsReq(x) && j <= |q|
  {
    if x == i then r.(next := if j < |q| then q[j] else NULL)
    else if 0 < j && x == q[j - 1] then slots[x].(next := i)
    else slots[x]
  }

  ghost predicate Entered(s: Sys, s': Sys, m: int, i: int, r: Request, j: nat) {
    |s.slots| == NR_REQUEST && |s'.slots| == NR_REQUEST && |s.heads| == |s.queues| == NR_BLK_DEV &&
    Idx(NR_BLK_DEV, m) &&
    j <= |s.queues[m]| && (forall x :: IsReq(x) ==> s'.slots[x] == EnterAt(s.slots, s.queues[m], j, i, r, x)) &&
    s'.heads == (if j == 0 then s.heads[m := i] else s.heads) &&
    s'.queues == s.queues[m := Insert(s.queues[m], j, i)]
  }

  /** r may be queued in slot i: the slot is free, no pending request is for r's block, and a write stays in
      the part of the table it may use. */
  ghost predicate Fits(s: Sys, m: int, i: int, r: Request)
    requires |s.slots| == NR_REQUEST
  {
    IsReq(i) && s.slots[i].dev < 0 && r.dev >= 0 && Major(r.dev) == m && r.sector % 2 == 0 && r.nrSectors == 2 &&
    (r.cmd == READ || r.cmd == WRITE) && (r.cmd == WRITE ==> i < NR_REQUEST * 2 / 3) &&
    forall x :: IsReq(x) && s.slots[x].dev >= 0 ==> Differ(KeyOf(s.slots[x]), KeyOf(r))
  }

  /** The place add_request finds: the front only of an empty queue. */
  ghost predicate Place(s: Sys, m: int, r: Request, j: nat)
    requires |s.slots| == NR_REQUEST && Idx(|s.queues|, m)
  {
    if s.queues[m] == [] then j == 0 else j > 0 && Spot(Keys(s.slots, s.queues[m]), j - 1, KeyOf(r))
  }

  lemma EnterOrder(s: Sys, s': Sys, m: int, i: int, r: Request, j: nat)
    requires Inv(s) && Idx(NR_BLK_DEV, m) && Fits(s, m, i, r) && Place(s, m, r, j) && Entered(s, s', m, i, r, j)
    ensures Elevator(Keys(s'.slots, s'.queues[m]))
  {
    var q, q' := s.queues[m], s'.queues[m];
    assert QueueOk(s.slots, m, s.heads[m], q);
    var rs := Keys(s.slots, q);
    forall k | 0 <= k < |q|
      ensures IsReq(q[k]) && q[k] != i && Differ(rs[k], KeyOf(r)) && KeyAt(s'.slots, q[k]) == rs[k]
    {
      Member(s, m, q[k]);
    }
    assert KeyAt(s'.slots, i) == KeyOf(r);
    assert Keys(s'.slots, q') == Insert(rs, j, KeyOf(r));
    if q == [] {
      assert Sweeps(Insert(rs, j, KeyOf(r)), 0);
    } else {
      var d :| Sweeps(rs, d);
      InsertSweeps(rs, d, j - 1, KeyOf(r));
    }
  }

  lemma EnterLinks(s: Sys, s': Sys, m: int, i: int, r: Request, j: nat)
    requires Inv(s) && Idx(NR_BLK_DEV, m) && Fits(s, m, i, r) && Place(s, m, r, j) && Entered(s, s', m, i, r, j)
    ensures forall k :: Idx(|s'.queues[m]|, k) ==> LinkedAt(s'.slots, m, s'.queues[m], k)
    ensures NoDup(s'.queues[m]) && s'.heads[m] == First(s'.queues[m])
  {
    var q, q' := s.queues[m], s'.queues[m];
    assert QueueOk(s.slots, m, s.heads[m], q);
    assert i !in q by { if i in q { Member(s, m, i); } }
    InsertNoDup(q, j, i);
    forall k | Idx(|q'|, k) ensures LinkedAt(s'.slots, m, q', k) {
      if k != j { EnterLinkAt(s, s', m, i, r, j, k); }
    }
  }

  lemma EnterLinkAt(s: Sys, s': Sys, m: int, i: int, r: Request, j: nat, k: nat)
    requires Inv(s) && Idx(NR_BLK_DEV, m) && Fits(s, m, i, r) && Place(s, m, r, j) && Entered(s, s', m, i, r, j)
    requires k < |s'.queues[m]| && k != j
    ensures LinkedAt(s'.slots, m, s'.queues[m], k)
  {
    var q, q' := s.queues[m], s'.queues[m];
    assert QueueOk(s.slots, m, s.heads[m], q);
    var o := if k < j then k else k - 1;
    assert Idx(|q|, o) && LinkedAt(s.slots, m, q, o);
    if j > 0 { assert Idx(|q|, j - 1); }
    assert s'.slots[q[o]] == EnterAt(s.slots, q, j, i, r, q[o]);
    LinkMoves(s.slots, s'.slots, m, q, j, i, r, k, o);
  }

  lemma LinkMoves(slots: seq<Request>, slots': seq<Request>, m: int, q: seq<int>, j: nat, i: int, r: Request, k: nat,
                  o: nat)
    requires |slots| == NR_REQUEST && |slots'| == NR_REQUEST && j <= |q| && (j == 0 ==> q == []) && k <= |q| && k != j
    requires o == (if k < j then k else k - 1) && LinkedAt(slots, m, q, o) && q[o] != i
    requires slots'[q[o]] == EnterAt(slots, q, j, i, r, q[o]) && (o != j - 1 && j > 0 ==> q[o] != q[j - 1])
    ensures LinkedAt(slots', m, Insert(q, j, i), k)
  {
  }

  lemma InsertNoDup(q: seq<int>, j: nat, i: int)
    requires NoDup(q) && j <= |q| && i !in q
    ensures NoDup(Insert(q, j, i))
  {
  }

  lemma EnterKeeps(s: Sys, s': Sys, m: int, i: int, r: Request, j: nat)
    requires Inv(s) && Idx(NR_BLK_DEV, m) && Fits(s, m, i, r) && Place(s, m, r, j) && Entered(s, s', m, i, r, j)
    ensures Inv(s')
  {
    EnterOrder(s, s', m, i, r, j);
    EnterLinks(s, s', m, i, r, j);
    hide Elevator, LinkedAt, NoDup, Fits, Place, SlotOk, Apart;
    forall n | Idx(NR_BLK_DEV, n) ensures QueueOk(s'.slots, n, s'.heads[n], s'.queues[n]) {
      assert QueueOk(s.slots, n, s.heads[n], s.queues[n]);
      if n != m {
        EnterOther(s, s', m, i, r, j, n);
      }
    }
    hide QueueOk;
    forall x | IsReq(x) ensures SlotOk(s', x) {
      EnterSlot(s, s', m, i, r, j, x);
    }
    forall x, y | IsReq(x) && IsReq(y) ensures Apart(s'.slots, x, y) {
      EnterApart(s, s', m, i, r, j, x, y);
    }
  }

  lemma EnterSlot(s: Sys, s': Sys, m: int, i: int, r: Request, j: nat, x: int)
    requires Inv(s) && Fits(s, m, i, r) && Entered(s, s', m, i, r, j) && IsReq(x)
    ensures SlotOk(s', x)
  {
    hide QueueOk;
    assert SlotOk(s, x) && s'.slots[x] == EnterAt(s.slots, s.queues[m], j, i, r, x);
    InsertMembers(s.queues[m], j, i, x);
  }

  lemma InsertMembers(q: seq<int>, j: nat, i: int, x: int)
    requires j <= |q|
    ensures x in Insert(q, j, i) <==> x == i || x in q
  {
    assert q == q[..j] + q[j..];
  }

  lemma EnterApart(s: Sys, s': Sys, m: int, i: int, r: Request, j: nat, x: int, y: int)
    requires Inv(s) && Fits(s, m, i, r) && Entered(s, s', m, i, r, j) && IsReq(x) && IsReq(y)
    ensures Apart(s'.slots, x, y)
  {
    hide QueueOk, SlotOk;
    assert Apart(s.slots, x, y);
    assert s'.slots[x] == EnterAt(s.slots, s.queues[m], j, i, r, x);
    assert s'.slots[y] == EnterAt(s.slots, s.queues[m], j, i, r, y);
  }

  lemma EnterOther(s: Sys, s': Sys, m: int, i: int, r: Request, j: nat, n: int)
    requires Inv(s) && Idx(NR_BLK_DEV, m) && Fits(s, m, i, r) && Place(s, m, r, j) && Entered(s, s', m, i, r, j)
    requires Idx(NR_BLK_DEV, n) && n != m
    ensures QueueOk(s'.slots, n, s'.heads[n], s'.queues[n])
  {
    assert QueueOk(s.slots, n, s.heads[n], s.queues[n]);
    if 0 < j { Member(s, m, s.queues[m][j - 1]); }
    forall x | x in s.queues[n] && IsReq(x) ensures s'.slots[x] == s.slots[x] {
      Member(s, n, x);
      assert s'.slots[x] == EnterAt(s.slots, s.queues[m], j, i, r, x);
    }
    QueueSame(s.slots, s'.slots, n, s.heads[n], s.queues[n]);
  }

  // ---------------------------------------------------------------- one sector done

  ghost predicate Advanced(s: Sys, s': Sys, m: int) {
    Idx(|s.queues|, m) && Idx(|s.heads|, m) && Idx(|s.slots|, s.heads[m]) &&
    var i := s.heads[m];
    s' == s.(slots := s.slots[i := s.slots[i].(sector := s.slots[i].sector + 1, nrSectors := 1)])
  }

  lemma AdvanceKeeps(s: Sys, s': Sys, m: int)
    requires Inv(s) && Idx(NR_BLK_DEV, m) && s.queues[m] != []
    requires Advanced(s, s', m) && s.slots[s.heads[m]].nrSectors == 2
    ensures Inv(s')
  {
    var q := s.queues[m];
    var i := s.heads[m];
    assert QueueOk(s.slots, m, i, q) && Idx(|q|, 0) && LinkedAt(s.slots, m, q, 0);
    forall k | Idx(|q|, k) ensures LinkedAt(s'.slots, m, q, k) && (k > 0 ==> q[k] != i) {
      assert LinkedAt(s.slots, m, q, k);
    }
    AdvanceOrder(s, s', m);
    forall n | Idx(NR_BLK_DEV, n) ensures QueueOk(s'.slots, n, s'.heads[n], s'.queues[n]) {
      assert QueueOk(s.slots, n, s.heads[n], s.queues[n]);
      if n != m {
        forall x | x in s.queues[n] ensures x != i { Member(s, n, x); }
        QueueSame(s.slots, s'.slots, n, s.heads[n], s.queues[n]);
      }
    }
    forall x | IsReq(x) ensures SlotOk(s', x) { assert SlotOk(s, x); }
    forall x, y | IsReq(x) && IsReq(y) ensures Apart(s'.slots, x, y) { assert Apart(s.slots, x, y); }
  }

  lemma AdvanceOrder(s: Sys, s': Sys, m: int)
    requires Inv(s) && Idx(NR_BLK_DEV, m) && s.queues[m] != []
    requires Advanced(s, s', m) && s.slots[s.heads[m]].nrSectors == 2
    ensures Elevator(Keys(s'.slots, s'.queues[m]))
  {
    var q := s.queues[m];
    var i := s.heads[m];
    assert QueueOk(s.slots, m, i, q) && Idx(|q|, 0) && LinkedAt(s.slots, m, q, 0);
    if |q| > 1 {
      assert Idx(|q|, 1) && LinkedAt(s.slots, m, q, 1);
      assert Apart(s.slots, q[0], q[1]);
    }
    forall k | 0 < k < |q| ensures KeyAt(s'.slots, q[k]) == KeyAt(s.slots, q[k]) {
      assert Idx(|q|, k);
    }
    AdvanceSweeps(Keys(s.slots, q), Keys(s'.slots, q));
  }

  // ---------------------------------------------------------------- leaving

  ghost predicate Finished(s: Sys, s': Sys, m: int) {
    Idx(|s.queues|, m) && Idx(|s.heads|, m) && Idx(|s.slots|, s.heads[m]) && s.queues[m] != [] &&
    var i := s.heads[m];
    s'.slots == s.slots[i := s.slots[i].(dev := -1)] && s'.heads == s.heads[m := s.slots[i].next] &&
    s'.queues == s.queues[m := s.queues[m][1..]]
  }

  lemma FinishKeeps(s: Sys, s': Sys, m: int)
    requires Inv(s) && Idx(NR_BLK_DEV, m) && Finished(s, s', m)
    ensures Inv(s')
  {
    var q := s.queues[m];
    var i := s.heads[m];
    assert QueueOk(s.slots, m, i, q) && Idx(|q|, 0) && LinkedAt(s.slots, m, q, 0);
    FinishQueue(s, s', m);
    forall n | Idx(NR_BLK_DEV, n) ensures QueueOk(s'.slots, n, s'.heads[n], s'.queues[n]) {
      assert QueueOk(s.slots, n, s.heads[n], s.queues[n]);
      if n != m {
        forall x | x in s.queues[n] ensures x != i { Member(s, n, x); }
        QueueSame(s.slots, s'.slots, n, s.heads[n], s.queues[n]);
      }
    }
    assert q == [i] + q[1..];
    forall x | IsReq(x) ensures SlotOk(s', x) { assert SlotOk(s, x); }
    forall x, y | IsReq(x) && IsReq(y) ensures Apart(s'.slots, x, y) { assert Apart(s.slots, x, y); }
  }

  lemma FinishQueue(s: Sys, s': Sys, m: int)
    requires Inv(s) && Idx(NR_BLK_DEV, m) && Finished(s, s', m)
    ensures |s'.slots| == NR_REQUEST && QueueOk(s'.slots, m, s'.heads[m], s'.queues[m])
  {
    var q, q' := s.queues[m], s'.queues[m];
    assert QueueOk(s.slots, m, s.heads[m], q) && Idx(|q|, 0) && LinkedAt(s.slots, m, q, 0);
    forall k | Idx(|q'|, k) ensures LinkedAt(s'.slots, m, q', k) && KeyAt(s'.slots, q'[k]) == KeyAt(s.slots, q[k + 1]) {
      assert Idx(|q|, k + 1) && LinkedAt(s.slots, m, q, k + 1) && q'[k] == q[k + 1];
      assert After(q', k) == After(q, k + 1);
    }
    forall a, b | Idx(|q'|, a) && Idx(|q'|, b) && a != b ensures q'[a] != q'[b] {
      assert Idx(|q|, a + 1) && Idx(|q|, b + 1);
    }
    assert Keys(s'.slots, q') == Keys(s.slots, q)[1..] by {
      forall k | 0 <= k < |q'| ensures Keys(s'.slots, q')[k] == Keys(s.slots, q)[1..][k] { assert Idx(|q'|, k); }
    }
    RestSweeps(Keys(s.slots, q));
  }
}

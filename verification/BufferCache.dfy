/** fs/buffer.c: the pieces of getblk, bread and brelse between sleeps, on the linked structures and above the request
    table of kernel/blk_drv. Every piece is one or more events of the machine in BufferMoves, so whatever holds of all
    its runs holds here. */
module BufferCache {
  import opened Basics
  import opened BufferModel
  import opened BufferSteps
  import opened BufferMoves
  import opened BufferLinks
  import opened BufferRequests
  import opened BufferOrder
  import R = RequestModel
  import RS = RequestSteps
  import RT = Requests

  function Xor(a: nat, b: nat): nat
    decreases a + b
  {
    if a == 0 && b == 0 then 0 else 2 * Xor(a / 2, b / 2) + (a + b) % 2
  }

  /** It is the exclusive or: applied twice it gives back the other number, and no bit carries. */
  lemma {:induction false} XorTwice(a: nat, b: nat)
    ensures Xor(Xor(a, b), b) == a && Xor(a, b) == Xor(b, a) && Xor(a, b) <= a + b
    decreases a + b
  {
    if a > 0 || b > 0 {
      XorTwice(a / 2, b / 2);
      LastBit(Xor(a / 2, b / 2), a, b);
      LastBit(Xor(b / 2, a / 2), b, a);
    }
  }

  lemma LastBit(x: nat, a: nat, b: nat)
    ensures (2 * x + (a + b) % 2) / 2 == x && (2 * x + (a + b) % 2 + b) % 2 == a % 2
    ensures a == 2 * (a / 2) + a % 2 && (a + b) % 2 <= a % 2 + b % 2
  {
  }

  function HashFn(k: Key): (h: nat)
    ensures h < NR_HASH
  {
    Xor(k.dev, k.block) % NR_HASH
  }

  function HomeOf(x: Buf): int {
    if x.dev == 0 then NIL else HashFn(KeyOf(x))
  }

  function Badness(x: Buf): nat {
    2 * Bit(x.dirty) + Bit(!x.io.Idle?)
  }

  /** Who moves next: a process starts a bread, goes on with it, stores into the buffer it holds or releases it;
      somebody asks for a dirty buffer to be written; one who waits for a request slot tries again; or a device has
      transferred a sector. */
  datatype Turn =
    | Enter(p: int, key: Key)
    | Go(p: int)
    | Put(p: int, data: Block)
    | Leave(p: int)
    | Ask(b: int)
    | Requeue(b: int)
    | Sector(m: int)

  class Cache {
    var bufs: seq<Buf>
    var disk: map<Key, Block>
    var procs: seq<Proc>
    const links: Links
    const table: RT.Table

    ghost function Abs(): Sys
      reads this
    {
      Sys(bufs, disk, procs)
    }

    /** The chains are those of the buffers' hashes, and the free list runs through all buffers. */
    ghost predicate Linked()
      reads this, links
    {
      links.size == |bufs| && links.ChainsOk() && links.FreeOk() && |links.ring| == |bufs| &&
      (forall b :: Idx(|bufs|, b) ==> links.home[b] == HomeOf(bufs[b]) && b in links.ring)
    }

    ghost function Whole(): Joint
      reads this, table
    {
      Joint(Abs(), table.Abs())
    }

    ghost predicate Valid()
      reads this, links, table
    {
      |bufs| > 1 && JointInv(Whole()) && Linked()
    }

    /** buffer_init, with `n` processes outside the cache. */
    constructor (size: nat, n: nat, disk: map<Key, Block>)
      requires size > 1
      ensures Valid() && fresh(links) && fresh(table) && |bufs| == size && |procs| == n && this.disk == disk
      ensures forall k: Key :: k.dev != 0 ==> Contents(Abs(), k) == DiskAt(disk, k)
    {
      bufs := seq(size, _ => Buf(0, 0, false, false, 0, Idle, []));
      procs := seq(n, _ => Out);
      this.disk := disk;
      links := new Links(size);
      table := new RT.Table();
      new;
      assert forall b :: Pins(procs, b) == {};
      forall k: Key | k.dev != 0 ensures Contents(Abs(), k) == DiskAt(disk, k) {
        ContentsOfDisk(Abs(), k);
      }
      assert forall b :: Idx(size, b) ==> links.ring[b] == b;
    }

    /** find_buffer: walk the chain of the block's hash. */
    method FindBuffer(k: Key) returns (b: int)
      requires Linked() && k.dev != 0
      ensures b == NIL || (Idx(|bufs|, b) && KeyOf(bufs[b]) == k)
      ensures b == NIL ==> NoneFor(bufs, k)
    {
      var h := HashFn(k);
      ghost var chain := links.chains[h];
      assert ChainOk(links.next, links.prev, links.hashTable[h], chain);
      b := links.hashTable[h];
      ghost var i := 0;
      while b != NIL && KeyOf(bufs[b]) != k
        invariant 0 <= i <= |chain| && b == if i < |chain| then chain[i] else NIL
        invariant forall j :: 0 <= j < i ==> KeyOf(bufs[chain[j]]) != k
        decreases |chain| - i
      {
        assert ChainedAt(links.next, links.prev, chain, i);
        b := links.next[b];
        i := i + 1;
      }
      if b == NIL {
        forall c | Idx(|bufs|, c) ensures KeyOf(bufs[c]) != k {
          assert links.home[c] == h ==> c in chain;
        }
      }
    }

    /** ll_rw_block(WRITEA): if the buffer is not locked and a request is free, the write is queued. */
    method WriteAhead(b: int) returns (ghost es: seq<Event>)
      requires Valid() && Idx(|bufs|, b) && bufs[b].dirty
      modifies `bufs, table
      ensures Valid() && Runs(old(Whole()), es, Whole()) && Queued(old(bufs), bufs, b)
      ensures |old(table.slots)| == R.NR_REQUEST
      ensures es == if old(bufs)[b].io.Idle? && RT.Room(old(table.slots), R.WRITE) then [AskWrite(b), Queue(b)] else []
      ensures if es == [] then Whole() == old(Whole())
              else bufs == old(bufs)[b := old(bufs)[b].(dirty := false, io := Writing)]
    {
      hide Inv, R.Inv, Joined, Runs, RT.Made, RT.Room;
      es := [];
      ghost var j := Whole();
      DirtyReadable(j, b);
      if bufs[b].io.Idle? {
        NotPending(j, b);
        var queued := table.MakeRequest(R.WRITE, bufs[b].dev, bufs[b].block, b);
        if queued {
          QueueWrite(j, b, table.Abs());
          bufs := bufs[b := bufs[b].(dirty := false, io := Writing)];
          es := [AskWrite(b), Queue(b)];
        }
      }
    }

    lemma ScanStart()
      requires Linked() && |bufs| > 0
      ensures |links.ring| == |bufs| && Idx(|bufs|, links.freeList) && links.freeList == links.ring[0]
      ensures Within(links.ring, |bufs|) && forall c :: Idx(|bufs|, c) ==> c in links.ring
    {
    }

    /** Some writes have been started since j0. */
    ghost predicate Started(j0: Joint, es: seq<Event>)
      reads this, links, table
    {
      Valid() && Runs(j0, es, Whole()) && |bufs| == |j0.sys.bufs| && Ahead(j0.sys.bufs, bufs) && WritesOnly(es)
    }

    /** getblk's scan has looked at n buffers and stands at tmp; b is the best so far, none of them spotless. */
    ghost predicate Scanning(j0: Joint, b: int, tmp: int, n: nat, es: seq<Event>)
      reads this, links, table
    {
      Started(j0, es) && n <= |bufs| + 1 && Idx(|bufs|, tmp) && tmp == links.ring[Position(n, |bufs|)] &&
      (b != NIL ==> Idx(|bufs|, b) && bufs[b].count == 0 && Badness(bufs[b]) > 0) &&
      PassedTo(j0.sys.bufs, b, links.ring, n) && LeastTo(bufs, b, links.ring, n) && Stuck(bufs, b, table.slots)
    }

    /** One turn of the loop, to its test. */
    method ScanOn(ghost j0: Joint, b: int, tmp: int, ghost n: nat, ghost es: seq<Event>)
      returns (b': int, tmp': int, ghost es': seq<Event>)
      requires Scanning(j0, b, tmp, n, es) && n <= |bufs|
      modifies `bufs, table
      ensures |bufs| == |old(bufs)| && (b' != NIL ==> Idx(|bufs|, b'))
      ensures if b' != NIL && Badness(bufs[b']) == 0
              then Started(j0, es') && bufs[b'].count == 0 && FirstSpotless(j0.sys.bufs, links.ring, b')
              else Scanning(j0, b', tmp', n + 1, es')
    {
      hide JointInv, Ahead, PassedTo, Runs, Linked, WritesOnly, Badness, Passed, LeastTo, Stuck, BestOf, FirstSpotless;
      tmp' := NextOf(tmp, n);
      ghost var mid := bufs;
      ScanStart();
      ghost var j := Whole();
      ghost var more;
      b', more := Consider(j0.sys.bufs, b, tmp');
      RunsAppend(j0, es, j, more, Whole());
      WritesJoin(es, more);
      es' := es + more;
      if b' == NIL || Badness(bufs[b']) > 0 {
        StillPassed(j0.sys.bufs, b, b', links.ring, n);
        StillLeast(mid, bufs, b, b', links.ring, n);
      } else {
        FoundFirst(j0.sys.bufs, bufs, b, links.ring, n);
      }
    }

    /** The do-while loop of getblk: the first unused buffer with nothing against it, else the least bad one,
        starting dirty ones on their way to disk. */
    method Select() returns (b: int, ghost es: seq<Event>)
      requires Valid()
      modifies `bufs, table
      ensures Started(old(Whole()), es)
      ensures b == NIL ==> forall c :: Idx(|bufs|, c) ==> bufs[c].count > 0
      ensures b != NIL ==> Idx(|bufs|, b) && bufs[b].count == 0
      ensures |bufs| == |old(bufs)|
      ensures (exists c :: Idx(|bufs|, c) && Spotless(old(bufs)[c])) ==> FirstSpotless(old(bufs), links.ring, b)
      ensures b != NIL ==> forall c :: Idx(|bufs|, c) && bufs[c].count == 0 ==> NoWorse(bufs[b], bufs[c])
    {
      hide JointInv, Ahead, PassedTo, Runs, Linked, WritesOnly, Badness, LeastTo, Stuck, BestOf, FirstSpotless, NoWorse;
      ScanStart();
      b, es := NIL, [];
      NoneRun(Whole());
      AheadRefl(bufs);
      NonePassed(bufs, links.ring);
      NoneSeen(bufs, links.ring, table.slots) by { RequestSizes(Whole()); }
      var tmp, n := links.freeList, 0;
      while n <= |bufs|
        invariant 0 <= n <= |bufs| + 1 && |bufs| == |old(bufs)| && Scanning(old(Whole()), b, tmp, n, es)
      {
        b, tmp, es := ScanOn(old(Whole()), b, tmp, n, es);
        n := n + 1;
        if b != NIL && Badness(bufs[b]) == 0 {
          ZeroIsBest(bufs, b);
          return;
        }
      }
      ScanStart();
      AllPassed(old(bufs), b, links.ring, |bufs|);
      PassedMeans(old(bufs), bufs, b);
      if b != NIL { AllSeen(bufs, b, links.ring); }
    }

    /** The body of the loop. */
    method Consider(ghost was: seq<Buf>, b: int, tmp: int) returns (b': int, ghost es: seq<Event>)
      requires Valid() && Idx(|bufs|, tmp) && Ahead(was, bufs)
      requires b != NIL ==> Idx(|bufs|, b) && bufs[b].count == 0 && Badness(bufs[b]) > 0
      requires Stuck(bufs, b, table.slots)
      modifies `bufs, table
      ensures Valid() && Runs(old(Whole()), es, Whole()) && Ahead(was, bufs) && |bufs| == |old(bufs)| && WritesOnly(es)
      ensures b' != NIL ==> Idx(|bufs|, b') && bufs[b'].count == 0
      ensures b != NIL ==> b' != NIL
      ensures b' != NIL && Badness(bufs[b']) == 0 ==> b' == tmp
      ensures b' == NIL || Badness(bufs[b']) > 0 ==> Passed(was, b', tmp)
      ensures Stuck(bufs, b', table.slots)
      ensures forall c :: Idx(|bufs|, c) && (c == tmp || BestOf(old(bufs), b, c)) ==> BestOf(bufs, b', c)
    {
      hide JointInv, Runs, RT.Room;
      hide Stuck, Badness, BestOf, Ahead, Passed;
      b', es := b, [];
      NoneRun(Whole());
      RequestSizes(Whole());
      ghost var mid, slots := bufs, table.slots;
      SeenBy(was, bufs, b, tmp);
      if bufs[tmp].count == 0 {
        if b == NIL || Badness(bufs[tmp]) < Badness(bufs[b]) {
          b' := tmp;
          if Badness(bufs[tmp]) == 0 {
            TakesZero(bufs, b, tmp, table.slots);
            return;
          }
        }
        if bufs[tmp].dirty {
          es := WriteAhead(tmp);
          RequestSizes(Whole());
          AheadTrans(was, mid, bufs, tmp);
        }
        Weighed(mid, bufs, b, b', tmp, slots, table.slots);
      }
    }

    method NextOf(tmp: int, ghost n: nat) returns (t: int)
      requires Linked() && |bufs| > 1 && n <= |bufs| && Idx(|bufs|, tmp) && tmp == links.ring[Position(n, |bufs|)]
      ensures Idx(|bufs|, t) && t == links.ring[Position(n + 1, |bufs|)]
    {
      assert LinkedAt(links.nextFree, links.prevFree, links.ring, Position(n, |bufs|));
      t := links.nextFree[tmp];
    }

    /** The end of getblk: off its queues, a new block, back on the queues. */
    method Rehash(b: int, k: Key)
      requires |bufs| > 1 && Linked() && Idx(|bufs|, b) && k.dev != 0
      modifies `bufs, links
      ensures Linked() && bufs == old(bufs)[b := Buf(k.dev, k.block, false, false, 1, Idle, old(bufs)[b].data)]
      ensures ToLast(old(links.ring), links.ring, b)
    {
      ghost var r := links.ring;
      ghost var i := InChain(r, b);
      ghost var h0 := links.home;
      ghost var place := links.RemoveFromHashQueue(b, HashFn(KeyOf(bufs[b])));
      links.RemoveFromFreeList(b, i);
      forall c ensures c in Cut(r, i) <==> c in r && c != b {
        CutMembers(r, i, c);
      }
      bufs := bufs[b := Buf(k.dev, k.block, false, false, 1, Idle, bufs[b].data)];
      links.AppendFree(b);
      links.PushHash(b, HashFn(k));
      forall c | Idx(|bufs|, c) ensures links.home[c] == HomeOf(bufs[c]) && c in links.ring {
        assert c in r;
      }
    }

    /** A piece that moves process p only. */
    method Step(p: int, q: Proc, ghost e: Event)
      requires Valid() && Idx(|procs|, p) && Enabled(Abs(), e) && Move(Abs(), e) == SetProc(Abs(), p, q)
      requires !e.Queue? && !e.Complete?
      modifies `procs
      ensures Valid() && Runs(old(Whole()), [e], Whole()) && procs == old(procs)[p := q]
    {
      hide JointInv, Runs;
      OneStep(Whole(), e, Joint(SetProc(Abs(), p, q), table.Abs()));
      procs := procs[p := q];
    }

    /** A piece that also changes flags, count or data of buffer b. */
    method StepBoth(b: int, x: Buf, p: int, q: Proc, ghost e: Event)
      requires Valid() && Idx(|procs|, p) && Idx(|bufs|, b) && KeyOf(x) == KeyOf(bufs[b]) && !e.Queue? && !e.Complete?
      requires Enabled(Abs(), e) && Move(Abs(), e) == Both(Abs(), b, x, p, q)
      modifies `bufs, `procs
      ensures Valid() && Runs(old(Whole()), [e], Whole()) && procs == old(procs)[p := q]
    {
      hide JointInv, Runs;
      OneStep(Whole(), e, Joint(Both(Abs(), b, x, p, q), table.Abs()));
      hide Move, Enabled;
      bufs := bufs[b := x];
      procs := procs[p := q];
    }

    method StepBuf(b: int, x: Buf, ghost e: Event)
      requires Valid() && Idx(|bufs|, b) && KeyOf(x) == KeyOf(bufs[b]) && !e.Queue? && !e.Complete?
      requires Enabled(Abs(), e) && Move(Abs(), e) == SetBuf(Abs(), b, x)
      modifies `bufs
      ensures Valid() && Runs(old(Whole()), [e], Whole())
    {
      hide JointInv, Runs;
      OneStep(Whole(), e, Joint(SetBuf(Abs(), b, x), table.Abs()));
      hide Move, Enabled;
      bufs := bufs[b := x];
    }

    /** getblk from `repeat` to its first sleep. */
    method Getblk(p: int) returns (ghost es: seq<Event>)
      requires Valid() && Idx(|procs|, p) && procs[p].Start?
      modifies `bufs, `procs, table
      ensures Valid() && Runs(old(Whole()), es, Whole()) && Sought(old(Abs()), links.ring, p, es)
      ensures NoReturn(old(procs), procs)
    {
      hide JointInv, Runs, Linked, Sought;
      ProcReadable(Whole(), p);
      var k := procs[p].key;
      var b := FindBuffer(k);
      if b != NIL {
        es := [Find(p, b)];
        SoughtFind(Abs(), links.ring, p, b);
        StepBoth(b, bufs[b].(count := bufs[b].count + 1), p, Pinned(k, b), Find(p, b));
        return;
      }
      es := Reserve(p);
    }

    /** getblk where no buffer has the block: settle on a candidate, or sleep. */
    method Reserve(p: int) returns (ghost es: seq<Event>)
      requires Valid() && Idx(|procs|, p) && procs[p].Start? && NoneFor(bufs, procs[p].key)
      modifies `bufs, `procs, table
      ensures Valid() && Runs(old(Whole()), es, Whole()) && Sought(old(Abs()), links.ring, p, es)
      ensures NoReturn(old(procs), procs)
    {
      hide JointInv, Runs, Linked, Sought, Ahead, WritesOnly, Spotless;
      var k := procs[p].key;
      var b;
      ghost var more;
      b, more := Select();
      ghost var j := Whole();
      RunsIs(old(Whole()), more, j);
      WritesMove(old(Abs()), more);
      ghost var e := if b == NIL then Sleep(p) else Choose(p, b);
      SoughtOther(old(Abs()), Abs(), links.ring, p, more, e);
      Step(p, if b == NIL then Asleep(k) else Candidate(k, b), e);
      RunsAppend(old(Whole()), more, j, [e], Whole());
      es := more + [e];
    }

    /** get_hash_table after its sleep. The buffer was counted, so it is still the same block and the source's
        test for that succeeds; it becomes the last on the free list. */
    method Settled(p: int) returns (ghost es: seq<Event>)
      requires Valid() && Idx(|procs|, p) && procs[p].Pinned? && Unlocked(Abs(), procs[p].b)
      modifies `procs, links
      ensures Valid() && es == [Settle(p)] && Runs(old(Whole()), es, Whole())
      ensures KeyOf(bufs[old(procs[p].b)]) == old(procs[p].key)
      ensures procs == old(procs)[p := Got(old(procs[p].key), old(procs[p].b))]
      ensures ToLast(old(links.ring), links.ring, old(procs[p].b))
    {
      hide JointInv, Runs;
      ProcReadable(Whole(), p);
      var k, b := procs[p].key, procs[p].b;
      ghost var i := InChain(links.ring, b);
      forall c ensures c in Cut(links.ring, i) <==> c in links.ring && c != b {
        CutMembers(links.ring, i, c);
      }
      links.PutLastFree(b, i);
      es := [Settle(p)];
      Step(p, Got(k, b), Settle(p));
    }

    /** getblk after the wait for its candidate: start over if it was taken, have it written if it is dirty,
        start over if the block has appeared, else take it. */
    method Evict(p: int) returns (ghost es: seq<Event>)
      requires Valid() && Idx(|procs|, p) && procs[p].Candidate? && Unlocked(Abs(), procs[p].b)
      modifies `bufs, `procs, links
      ensures Valid() && Runs(old(Whole()), es, Whole()) && Evicted(old(Abs()), p, es)
      ensures Listed(old(Abs()), old(links.ring), Abs(), links.ring)
    {
      hide JointInv, Runs, Linked, Listed, ToLast;
      ghost var s, r := Abs(), links.ring;
      ProcReadable(Whole(), p);
      var k, b := procs[p].key, procs[p].b;
      if bufs[b].count > 0 {
        es := [Retry(p)];
        Step(p, Start(k), Retry(p));
        NothingListed(s, Abs(), r);
        return;
      }
      if bufs[b].dirty {
        es := [AskWrite(b)];
        StepBuf(b, bufs[b].(io := WaitWrite), AskWrite(b));
        NothingListed(s, Abs(), r);
        return;
      }
      var c := FindBuffer(k);
      if c != NIL {
        es := [Retry(p)];
        Step(p, Start(k), Retry(p));
        NothingListed(s, Abs(), r);
        return;
      }
      es := [Claim(p)];
      Take(p);
      OneListed(s, r, Abs(), links.ring, p, Got(k, b));
    }

    /** The end of getblk: the candidate becomes the block's buffer. */
    method Take(p: int)
      requires Valid() && Idx(|procs|, p) && procs[p].Candidate? && procs[p].key.dev != 0 && Enabled(Abs(), Claim(p))
      modifies `bufs, `procs, links
      ensures Valid() && Runs(old(Whole()), [Claim(p)], Whole())
      ensures procs == old(procs)[p := Got(old(procs[p].key), old(procs[p].b))]
      ensures ToLast(old(links.ring), links.ring, old(procs[p].b))
    {
      hide JointInv, Runs, Move, Enabled, TableOk, RingOk;
      ClaimIs(Abs(), p);
      var k, b := procs[p].key, procs[p].b;
      OneStep(Whole(), Claim(p), Joint(Move(Abs(), Claim(p)), table.Abs()));
      Rehash(b, k);
      procs := procs[p := Got(k, b)];
    }

    /** Process p goes on from where it sleeps, if what it sleeps for has happened. */
    method Proceed(p: int) returns (ghost es: seq<Event>)
      requires Valid() && Idx(|procs|, p)
      modifies `bufs, `procs, links, table
      ensures Valid() && Runs(old(Whole()), es, Whole()) && Piece(old(Abs()), old(links.ring), p, es)
      ensures Listed(old(Abs()), old(links.ring), Abs(), links.ring)
    {
      hide Sought, Evicted, JointInv, Runs, Listed, ToLast;
      es := [];
      NoneRun(Whole());
      ProcReadable(Whole(), p);
      ghost var s, r := Abs(), links.ring;
      NothingListed(s, s, r);
      match procs[p] {
        case Start(_) =>
          es := Getblk(p);
          NothingListed(s, Abs(), r);
        case Pinned(k, b) =>
          if bufs[b].io.Idle? {
            es := Settled(p);
            OneListed(s, r, Abs(), links.ring, p, Got(k, b));
          }
        case Asleep(k) =>
          es := [Wake(p)];
          Step(p, Start(k), Wake(p));
          NothingListed(s, Abs(), r);
        case Candidate(_, b) =>
          if bufs[b].io.Idle? { es := Evict(p); }
        case _ =>
          es := Bread(p);
          NothingListed(s, Abs(), r);
      }
    }

    /** bread after getblk, and brelse. */
    method Bread(p: int) returns (ghost es: seq<Event>)
      requires Valid() && Idx(|procs|, p) && !procs[p].Start?
      requires !procs[p].Pinned? && !procs[p].Asleep? && !procs[p].Candidate?
      modifies `bufs, `procs
      ensures Valid() && Runs(old(Whole()), es, Whole()) && Piece(old(Abs()), links.ring, p, es)
      ensures NoReturn(old(procs), procs)
    {
      hide Sought, Evicted, JointInv, Runs, Linked, NoReturn;
      es := [];
      NoneRun(Whole());
      ProcReadable(Whole(), p);
      assert NoReturn(procs, procs) by { Unreturned(procs); }
      match procs[p] {
        case Got(k, b) =>
          es := [Look(p)];
          NotReturned(procs, p, if bufs[b].uptodate then Holding(k, b) else LockWait(k, b));
          Step(p, if bufs[b].uptodate then Holding(k, b) else LockWait(k, b), Look(p));
        case LockWait(k, b) =>
          if bufs[b].io.Idle? {
            es := [Lock(p)];
            NotReturned(procs, p, ReadWait(k, b));
            StepBoth(b, if bufs[b].uptodate then bufs[b] else bufs[b].(io := WaitRead), p, ReadWait(k, b), Lock(p));
          }
        case ReadWait(k, b) =>
          if bufs[b].io.Idle? {
            es := [Arrive(p)];
            NotReturned(procs, p, Holding(k, b));
            Step(p, Holding(k, b), Arrive(p));
          }
        case Releasing(k, b) =>
          if bufs[b].io.Idle? {
            es := [Unpin(p)];
            NotReturned(procs, p, Out);
            StepBoth(b, bufs[b].(count := bufs[b].count - 1), p, Out, Unpin(p));
          }
        case _ =>
      }
    }

    /** make_request for a buffer that waits for a slot, once more. */
    method TryQueue(b: int) returns (ghost es: seq<Event>)
      requires Valid() && Idx(|bufs|, b) && Waits(bufs[b])
      modifies `bufs, table
      ensures Valid() && Runs(old(Whole()), es, Whole()) && |old(table.slots)| == R.NR_REQUEST
      ensures es == if RT.Room(old(table.slots), Command(old(bufs)[b])) then [Queue(b)] else []
    {
      hide Inv, R.Inv, Joined, Runs, RT.Made, RT.Room;
      es := [];
      ghost var j := Whole();
      NoneRun(j);
      WaitReadable(j, b);
      NotPending(j, b);
      var x := bufs[b];
      var queued := table.MakeRequest(Command(x), x.dev, x.block, b);
      if queued {
        es := [Queue(b)];
        OneStep(j, Queue(b), Joint(Move(Abs(), Queue(b)), table.Abs()));
        bufs := bufs[b := x.(dirty := false, io := if x.io.WaitRead? then Reading else Writing)];
      }
    }

    /** The interrupt after device m has transferred a sector: on to the next, or end_request. */
    method SectorDone(m: int) returns (ghost es: seq<Event>)
      requires Valid() && Idx(R.NR_BLK_DEV, m) && Idx(|table.queues|, m) && table.queues[m] != []
      modifies `bufs, `disk, table
      ensures Valid() && Transferred(old(Whole()), m, es, Whole())
    {
      hide Inv, R.Inv, Joined, Runs, RS.Finished, RS.Advanced;
      ghost var j := Whole();
      HeadBuffer(j, m);
      var b := table.slots[table.heads[m]].bh;
      var done := table.SectorDone(m);
      if !done {
        es := [];
        AdvanceJoined(j, table.Abs(), m);
        return;
      }
      es := [Complete(b)];
      assert LastSector(j.rq, m, b);
      OneStep(j, Complete(b), Joint(Move(Abs(), Complete(b)), table.Abs()));
      var x := bufs[b];
      if x.io.Writing? {
        disk := disk[KeyOf(x) := x.data];
        bufs := bufs[b := x.(io := Idle, uptodate := true)];
      } else {
        bufs := bufs[b := x.(io := Idle, uptodate := true, data := DiskAt(disk, KeyOf(x)))];
      }
    }

    /** A turn that is one event, if it is possible at all. */
    method Act(t: Turn) returns (ghost es: seq<Event>)
      requires Valid() && (t.Enter? || t.Put? || t.Leave? || t.Ask?)
      modifies `bufs, `procs
      ensures Valid() && Took(old(Whole()), links.ring, t, es, Whole()) && NoReturn(old(procs), procs)
    {
      hide JointInv, Runs;
      es := [];
      NoneRun(Whole());
      RequestSizes(Whole());
      match t {
        case Enter(p, k) =>
          if 0 <= p < |procs| && procs[p].Out? && k.dev != 0 && IsDev(k.dev) {
            es := [Begin(p, k)];
            Step(p, Start(k), Begin(p, k));
          }
        case Put(p, data) =>
          if 0 <= p < |procs| && procs[p].Holding? {
            ProcReadable(Whole(), p);
            var b := procs[p].b;
            es := [Modify(p, data)];
            StepBuf(b, bufs[b].(data := data, dirty := true), Modify(p, data));
          }
        case Leave(p) =>
          if 0 <= p < |procs| && procs[p].Holding? {
            es := [LetGo(p)];
            Step(p, Releasing(procs[p].key, procs[p].b), LetGo(p));
          }
        case Ask(b) =>
          if 0 <= b < |bufs| && bufs[b].io.Idle? && bufs[b].dirty {
            es := [AskWrite(b)];
            StepBuf(b, bufs[b].(io := WaitWrite), AskWrite(b));
          }
      }
    }

    method Turn(t: Turn) returns (ghost es: seq<Event>)
      requires Valid()
      modifies `bufs, `disk, `procs, links, table
      ensures Valid() && Took(old(Whole()), old(links.ring), t, es, Whole())
      ensures Listed(old(Abs()), old(links.ring), Abs(), links.ring)
    {
      hide Piece, JointInv, Runs, Transferred, Listed;
      es := [];
      NoneRun(Whole());
      RequestSizes(Whole());
      ghost var s, r := Abs(), links.ring;
      NothingListed(s, s, r);
      match t {
        case Go(p) =>
          if 0 <= p < |procs| {
            es := Proceed(p);
          }
        case Requeue(b) =>
          if 0 <= b < |bufs| && Waits(bufs[b]) {
            es := TryQueue(b);
            NothingListed(s, Abs(), r);
          }
        case Sector(m) =>
          if 0 <= m < R.NR_BLK_DEV && table.heads[m] != NIL {
            es := SectorDone(m);
            NothingListed(s, Abs(), r);
          }
        case _ =>
          es := Act(t);
          NothingListed(s, Abs(), r);
      }
    }

    /** Any schedule: each turn is the piece of the source that is due; the links stay sound; transfers in progress and
        pending requests stay one to one, and the requests of each device in at most two ascending sweeps; the free
        list, rings[n] after n turns, is in the order in which getblk last returned the buffers; and the cache shows
        each block as the stores made to it left it. */
    method Schedule(ts: seq<Turn>)
      returns (ghost pieces: seq<seq<Event>>, ghost trace: seq<Joint>, ghost rings: seq<seq<int>>)
      requires Valid()
      modifies `bufs, `disk, `procs, links, table
      ensures Valid() && |pieces| == |ts| && |trace| == |ts| + 1 && trace[0] == old(Whole()) && trace[|ts|] == Whole()
      ensures |rings| == |ts| + 1 && rings[0] == old(links.ring) && rings[|ts|] == links.ring
      ensures forall n :: 0 <= n < |ts| ==> Took(trace[n], rings[n], ts[n], pieces[n], trace[n + 1])
      ensures forall n :: 0 <= n <= |ts| ==> JointInv(trace[n]) && ByUse(trace, rings[0], n, rings[n])
      ensures Abs() == Run(old(Abs()), Flat(pieces))
      ensures forall k: Key :: k.dev != 0 ==> Contents(Abs(), k) == Written(old(Abs()), Flat(pieces), k)
    {
      hide Contents, Took, Run, JointInv, ByUse, Listed;
      ghost var s := Abs();
      pieces, trace, rings := [], [Whole()], [links.ring];
      EmptyRun(s);
      ByUseFirst(trace, links.ring);
      for n := 0 to |ts|
        invariant Valid() && |pieces| == n && |trace| == n + 1 && trace[0] == old(Whole()) && trace[n] == Whole()
        invariant |rings| == n + 1 && rings[0] == old(links.ring) && rings[n] == links.ring
        invariant forall m :: 0 <= m < n ==> Took(trace[m], rings[m], ts[m], pieces[m], trace[m + 1])
        invariant forall m :: 0 <= m <= n ==> JointInv(trace[m]) && ByUse(trace, rings[0], m, rings[m])
        invariant Abs() == Run(s, Flat(pieces))
      {
        ghost var j := Whole();
        ghost var more := Turn(ts[n]);
        TookIs(j, rings[n], ts[n], more, Whole());
        RunAppend(s, Flat(pieces), more);
        FlatSnoc(pieces, more);
        UseGoesOn(trace, Whole(), rings, links.ring);
        pieces, trace, rings := pieces + [more], trace + [Whole()], rings + [links.ring];
      }
      assert Inv(s) by { JointIs(old(Whole())); }
      RunKeeps(s, Flat(pieces));
    }
  }

  lemma UseGoesOn(trace: seq<Joint>, j: Joint, rings: seq<seq<int>>, ring: seq<int>)
    requires |trace| == |rings| > 0 && NoDup(ring)
    requires forall m :: 0 <= m < |rings| ==> ByUse(trace, rings[0], m, rings[m])
    requires Listed(trace[|trace| - 1].sys, rings[|rings| - 1], j.sys, ring)
    ensures forall m :: 0 <= m <= |rings| ==> ByUse(trace + [j], rings[0], m, (rings + [ring])[m])
  {
    hide ByUse, Listed;
    forall m | 0 <= m < |rings| ensures ByUse(trace + [j], rings[0], m, rings[m]) {
      ByUseSame(trace, [j], rings[0], m, rings[m]);
    }
    ByUseNext(trace + [j], rings[0], |rings| - 1, rings[|rings| - 1], ring);
  }

  lemma EmptyRun(s: Sys)
    ensures Run(s, Flat([])) == s
  {
  }

  // ---------------------------------------------------------------- which piece is due

  predicate WritesOnly(es: seq<Event>) {
    forall i :: 0 <= i < |es| ==> es[i].AskWrite? || es[i].Queue?
  }

  /** getblk from `repeat`: the block's buffer if there is one; else, after starting some writes, an unused buffer,
      the first spotless one if any is and else the least bad; else sleep, every buffer being in use. */
  ghost predicate Sought(s: Sys, ring: seq<int>, p: int, es: seq<Event>)
    requires Idx(|s.procs|, p) && s.procs[p].Start?
  {
    var k := s.procs[p].key;
    if !NoneFor(s.bufs, k) then exists b :: Idx(|s.bufs|, b) && KeyOf(s.bufs[b]) == k && es == [Find(p, b)]
    else es != [] && WritesOnly(es[..|es| - 1]) && Chosen(s, Run(s, es[..|es| - 1]), ring, p, es[|es| - 1])
  }

  lemma SoughtFind(s: Sys, ring: seq<int>, p: int, b: int)
    requires Idx(|s.procs|, p) && s.procs[p].Start? && Idx(|s.bufs|, b) && KeyOf(s.bufs[b]) == s.procs[p].key
    ensures Sought(s, ring, p, [Find(p, b)])
  {
  }

  lemma SoughtOther(s: Sys, t: Sys, ring: seq<int>, p: int, more: seq<Event>, e: Event)
    requires Idx(|s.procs|, p) && s.procs[p].Start? && NoneFor(s.bufs, s.procs[p].key)
    requires WritesOnly(more) && t == Run(s, more) && Chosen(s, t, ring, p, e)
    ensures Sought(s, ring, p, more + [e])
  {
    hide Chosen, Run;
    assert (more + [e])[..|more + [e]| - 1] == more;
  }

  ghost predicate Chosen(s: Sys, t: Sys, ring: seq<int>, p: int, e: Event) {
    |t.bufs| == |s.bufs| &&
    ((e == Sleep(p) && forall c :: Idx(|t.bufs|, c) ==> t.bufs[c].count > 0) ||
     (e.Choose? && e.p == p && Idx(|t.bufs|, e.b) && t.bufs[e.b].count == 0 &&
      ((exists c :: Idx(|s.bufs|, c) && Spotless(s.bufs[c])) ==> FirstSpotless(s.bufs, ring, e.b)) &&
      (forall c :: Idx(|t.bufs|, c) && t.bufs[c].count == 0 ==> NoWorse(t.bufs[e.b], t.bufs[c]))))
  }

  /** getblk with its candidate unlocked. */
  ghost predicate Evicted(s: Sys, p: int, es: seq<Event>)
    requires Idx(|s.procs|, p) && s.procs[p].Candidate? && Idx(|s.bufs|, s.procs[p].b)
  {
    var x := s.bufs[s.procs[p].b];
    es == if x.count > 0 then [Retry(p)]
          else if x.dirty then [AskWrite(s.procs[p].b)]
          else if !NoneFor(s.bufs, s.procs[p].key) then [Retry(p)]
          else [Claim(p)]
  }

  /** What process p does when it gets to run. */
  ghost predicate Piece(s: Sys, ring: seq<int>, p: int, es: seq<Event>)
    requires Idx(|s.procs|, p)
  {
    var q := s.procs[p];
    match q
    case Start(_) => Sought(s, ring, p, es)
    case Pinned(_, b) => es == if Unlocked(s, b) then [Settle(p)] else []
    case Asleep(_) => es == [Wake(p)]
    case Candidate(_, b) => if Unlocked(s, b) then Evicted(s, p, es) else es == []
    case Got(_, _) => es == [Look(p)]
    case LockWait(_, b) => es == if Unlocked(s, b) then [Lock(p)] else []
    case ReadWait(_, b) => es == if Unlocked(s, b) then [Arrive(p)] else []
    case Releasing(_, b) => es == if Unlocked(s, b) then [Unpin(p)] else []
    case _ => es == []
  }

  /** The buffer is locked for a transfer that has no request yet. */
  predicate Waits(x: Buf) {
    x.io.WaitRead? || x.io.WaitWrite?
  }

  /** After a sector the request in service goes on to its next, or its buffer's transfer is over. */
  ghost predicate Transferred(j: Joint, m: int, es: seq<Event>, j': Joint) {
    Idx(|j.rq.heads|, m) && Idx(|j.rq.slots|, j.rq.heads[m]) &&
    var r := j.rq.slots[j.rq.heads[m]];
    if r.nrSectors == 2 then es == [] && j'.sys == j.sys && RS.Advanced(j.rq, j'.rq, m)
    else es == [Complete(r.bh)] && Runs(j, es, j')
  }

  ghost predicate Took(j: Joint, ring: seq<int>, t: Turn, es: seq<Event>, j': Joint) {
    var s := j.sys;
    |j.rq.slots| == R.NR_REQUEST && |j.rq.heads| == R.NR_BLK_DEV &&
    match t
    case Enter(p, k) =>
      Runs(j, es, j') &&
      es == if Idx(|s.procs|, p) && s.procs[p].Out? && k.dev != 0 && IsDev(k.dev) then [Begin(p, k)] else []
    case Go(p) => Runs(j, es, j') && if Idx(|s.procs|, p) then Piece(s, ring, p, es) else es == []
    case Put(p, data) =>
      Runs(j, es, j') && es == if Idx(|s.procs|, p) && s.procs[p].Holding? then [Modify(p, data)] else []
    case Leave(p) => Runs(j, es, j') && es == if Idx(|s.procs|, p) && s.procs[p].Holding? then [LetGo(p)] else []
    case Ask(b) =>
      Runs(j, es, j') && es == if Idx(|s.bufs|, b) && s.bufs[b].io.Idle? && s.bufs[b].dirty then [AskWrite(b)] else []
    case Requeue(b) =>
      Runs(j, es, j') &&
      es == if Idx(|s.bufs|, b) && Waits(s.bufs[b]) && RT.Room(j.rq.slots, Command(s.bufs[b])) then [Queue(b)] else []
    case Sector(m) =>
      if Idx(R.NR_BLK_DEV, m) && j.rq.heads[m] != NIL then Transferred(j, m, es, j') else es == [] && j' == j
  }

  lemma TookIs(j: Joint, ring: seq<int>, t: Turn, es: seq<Event>, j': Joint)
    requires JointInv(j) && |j.sys.bufs| > 0 && Took(j, ring, t, es, j')
    ensures j'.sys == Run(j.sys, es)
  {
    hide JointInv, Runs, Piece;
    if Runs(j, es, j') {
      RunsIs(j, es, j');
    }
  }

  // ---------------------------------------------------------------- reading the whole state

  lemma JointIs(j: Joint)
    requires JointInv(j)
    ensures Inv(j.sys)
  {
  }

  lemma NoneRun(j: Joint)
    ensures Runs(j, [], j)
  {
  }

  lemma OneStep(j: Joint, e: Event, j': Joint)
    requires JointInv(j) && |j.sys.bufs| > 0 && JointStep(j, e, j')
    ensures JointInv(j') && Runs(j, [e], j')
  {
    hide JointInv, JointStep;
    JointKeeps(j, e, j');
    RunsOne(j, e, j');
  }

  lemma ProcReadable(j: Joint, p: int)
    requires JointInv(j) && Idx(|j.sys.procs|, p)
    ensures ProcOk(j.sys, p)
    ensures HasPin(j.sys.procs[p]) ==> Idx(|j.sys.bufs|, j.sys.procs[p].b) && j.sys.bufs[j.sys.procs[p].b].count > 0
  {
    if HasPin(j.sys.procs[p]) { PinIsCounted(j.sys, p); }
  }

  lemma DirtyReadable(j: Joint, b: int)
    requires JointInv(j) && Idx(|j.sys.bufs|, b) && j.sys.bufs[b].dirty
    ensures R.Inv(j.rq) && |j.rq.slots| == R.NR_REQUEST && j.sys.bufs[b].dev != 0 && IsDev(j.sys.bufs[b].dev)
    ensures Runs(j, [], j)
  {
    assert BufOk(j.sys, b);
  }

  lemma WaitReadable(j: Joint, b: int)
    requires JointInv(j) && Idx(|j.sys.bufs|, b) && Waits(j.sys.bufs[b])
    ensures R.Inv(j.rq) && |j.rq.slots| == R.NR_REQUEST && j.sys.bufs[b].dev != 0 && IsDev(j.sys.bufs[b].dev)
  {
    assert BufOk(j.sys, b);
  }

  lemma RequestSizes(j: Joint)
    requires JointInv(j)
    ensures |j.rq.slots| == R.NR_REQUEST && |j.rq.heads| == R.NR_BLK_DEV && |j.rq.queues| == R.NR_BLK_DEV
    ensures forall m :: Idx(R.NR_BLK_DEV, m) ==> (j.rq.heads[m] == NIL <==> j.rq.queues[m] == [])
  {
    hide Inv, Joined;
    forall m | Idx(R.NR_BLK_DEV, m) ensures j.rq.heads[m] == NIL <==> j.rq.queues[m] == [] {
      RT.Sizes(j.rq, m);
    }
  }

  /** The request in service belongs to a buffer in transfer. */
  lemma HeadBuffer(j: Joint, m: int)
    requires JointInv(j) && Idx(R.NR_BLK_DEV, m) && j.rq.queues[m] != []
    ensures R.Inv(j.rq) && |j.rq.heads| == R.NR_BLK_DEV && Idx(|j.rq.slots|, j.rq.heads[m])
    ensures var r := j.rq.slots[j.rq.heads[m]];
      Idx(|j.sys.bufs|, r.bh) && InTransfer(j.sys.bufs[r.bh]) && (r.nrSectors == 1 || r.nrSectors == 2)
  {
    HeadServes(j.rq, m);
    assert ForBuffer(j.sys.bufs, j.rq.slots[j.rq.heads[m]]);
  }

  lemma ClaimIs(s: Sys, p: int)
    requires Enabled(s, Claim(p))
    ensures Idx(|s.procs|, p) && s.procs[p].Candidate? && Idx(|s.bufs|, s.procs[p].b)
    ensures var k, b := s.procs[p].key, s.procs[p].b;
      Move(s, Claim(p)) ==
      Sys(s.bufs[b := Buf(k.dev, k.block, false, false, 1, Idle, s.bufs[b].data)], s.disk, s.procs[p := Got(k, b)])
  {
  }

  /** Starting writes moves no process. */
  lemma {:induction false} WritesMove(s: Sys, es: seq<Event>)
    requires WritesOnly(es)
    ensures Run(s, es).procs == s.procs
  {
    if es != [] { WritesMove(s, es[..|es| - 1]); }
  }

  /** Steps around a ring of m, at most once around and one more. */
  function Position(n: nat, m: nat): nat
    requires m > 0 && n <= m + 1
    ensures Position(n, m) < m || m == 1
  {
    if n < m then n else n - m
  }

  /** What starting a write may change in a buffer. */
  ghost predicate Queued(was: seq<Buf>, bufs: seq<Buf>, b: int) {
    Idx(|was|, b) && (bufs == was || (was[b].dirty && bufs == was[b := was[b].(dirty := false, io := Writing)]))
  }

  /** c is in use, or b is no worse. */
  predicate BestOf(bufs: seq<Buf>, b: int, c: int) {
    Idx(|bufs|, c) && bufs[c].count == 0 ==> Idx(|bufs|, b) && Badness(bufs[b]) <= Badness(bufs[c])
  }

  ghost predicate LeastTo(bufs: seq<Buf>, b: int, ring: seq<int>, n: nat) {
    |ring| == |bufs| && |bufs| > 1 && n <= |bufs| + 1 &&
    forall j :: 1 <= j <= n ==> BestOf(bufs, b, ring[Position(j, |bufs|)])
  }

  /** The best so far is not left dirty and unlocked unless no write can be queued. */
  predicate Stuck(bufs: seq<Buf>, b: int, slots: seq<R.Request>) {
    |slots| == R.NR_REQUEST && (Idx(|bufs|, b) && bufs[b].dirty && bufs[b].io.Idle? ==> !RT.Room(slots, R.WRITE))
  }

  /** What the scan makes of buffer tmp: it is passed unless it is spotless. */
  lemma SeenBy(was: seq<Buf>, bufs: seq<Buf>, b: int, tmp: int)
    requires Ahead(was, bufs) && Idx(|bufs|, tmp)
    ensures bufs[tmp].count > 0 ==> Passed(was, b, tmp) && BestOf(bufs, b, tmp)
    ensures Badness(bufs[tmp]) > 0 ==> forall x :: x != NIL ==> Passed(was, x, tmp)
  {
  }

  lemma TakesZero(bufs: seq<Buf>, b: int, tmp: int, slots: seq<R.Request>)
    requires Idx(|bufs|, tmp) && Badness(bufs[tmp]) == 0 && |slots| == R.NR_REQUEST
    ensures Stuck(bufs, tmp, slots) && forall c :: BestOf(bufs, tmp, c)
  {
  }

  /** Starting the write of tmp makes neither it nor the best so far worse than any buffer seen. */
  lemma Weighed(was: seq<Buf>, bufs: seq<Buf>, b: int, b': int, tmp: int, slots: seq<R.Request>, slots': seq<R.Request>)
    requires Idx(|was|, tmp) && was[tmp].count == 0 && Badness(was[tmp]) > 0 && Stuck(was, b, slots)
    requires b != NIL ==> Idx(|was|, b) && Badness(was[b]) > 0
    requires b' == if b == NIL || Badness(was[tmp]) < Badness(was[b]) then tmp else b
    requires if was[tmp].dirty && was[tmp].io.Idle? && RT.Room(slots, R.WRITE)
             then |slots'| == R.NR_REQUEST && bufs == was[tmp := was[tmp].(dirty := false, io := Writing)]
             else bufs == was && slots' == slots
    ensures Idx(|bufs|, b') && Badness(bufs[b']) > 0 && Stuck(bufs, b', slots')
    ensures forall c :: Idx(|bufs|, c) && (c == tmp || BestOf(was, b, c)) ==> BestOf(bufs, b', c)
  {
  }

  lemma NoneSeen(bufs: seq<Buf>, ring: seq<int>, slots: seq<R.Request>)
    requires |ring| == |bufs| && |bufs| > 1 && |slots| == R.NR_REQUEST
    ensures LeastTo(bufs, NIL, ring, 0) && Stuck(bufs, NIL, slots)
  {
  }

  lemma StillLeast(was: seq<Buf>, bufs: seq<Buf>, b: int, b': int, ring: seq<int>, n: nat)
    requires LeastTo(was, b, ring, n) && n <= |was| && |bufs| == |was| && Within(ring, |was|)
    requires forall c :: Idx(|bufs|, c) && (c == ring[Position(n + 1, |was|)] || BestOf(was, b, c)) ==>
               BestOf(bufs, b', c)
    ensures LeastTo(bufs, b', ring, n + 1)
  {
    hide BestOf;
    forall j | 1 <= j <= n + 1 ensures BestOf(bufs, b', ring[Position(j, |bufs|)]) {
      assert j <= n ==> BestOf(was, b, ring[Position(j, |was|)]);
    }
  }

  lemma AllSeen(bufs: seq<Buf>, b: int, ring: seq<int>)
    requires LeastTo(bufs, b, ring, |bufs| + 1) && Idx(|bufs|, b) && (forall c :: Idx(|bufs|, c) ==> c in ring)
    ensures forall c :: Idx(|bufs|, c) && bufs[c].count == 0 ==> NoWorse(bufs[b], bufs[c])
  {
    var m := |bufs|;
    forall c | Idx(m, c) && bufs[c].count == 0 ensures NoWorse(bufs[b], bufs[c]) {
      var k :| 0 <= k < m && ring[k] == c;
      var j := if k == 0 then m else k;
      assert Position(j, m) == k && BestOf(bufs, b, c);
    }
  }

  lemma ZeroIsBest(bufs: seq<Buf>, b: int)
    requires Idx(|bufs|, b) && Badness(bufs[b]) == 0
    ensures forall c :: Idx(|bufs|, c) && bufs[c].count == 0 ==> NoWorse(bufs[b], bufs[c])
  {
  }

  /** The scan stops at the first spotless buffer. */
  lemma FoundFirst(was: seq<Buf>, bufs: seq<Buf>, b: int, ring: seq<int>, n: nat)
    requires PassedTo(was, b, ring, n) && n <= |was| && Ahead(was, bufs) && Within(ring, |was|)
    requires var c := ring[Position(n + 1, |was|)]; bufs[c].count == 0 && Badness(bufs[c]) == 0
    ensures FirstSpotless(was, ring, ring[Position(n + 1, |was|)])
  {
    var m := |was|;
    var i := Position(n + 1, m);
    assert Spotless(was[ring[i]]);
    if n < m {
      forall j | 0 < j < (if i == 0 then m else i) ensures !Spotless(was[ring[j]]) {
        assert Position(j, m) == j && Passed(was, b, ring[Position(j, m)]);
      }
    }
  }

  /** The buffers after some writes were started: the same but for lock and dirty flag, and the spotless ones
      untouched. */
  ghost predicate Ahead(was: seq<Buf>, bufs: seq<Buf>) {
    |bufs| == |was| && forall b :: Idx(|was|, b) ==>
      bufs[b] == was[b].(dirty := bufs[b].dirty, io := bufs[b].io) && (Badness(was[b]) == 0 <==> Badness(bufs[b]) == 0)
  }

  /** The scan has seen c and gone on: c is in use, or something was found and c has something against it. */
  ghost predicate Passed(was: seq<Buf>, b: int, c: int) {
    Idx(|was|, c) && !Spotless(was[c]) && (was[c].count > 0 || b != NIL)
  }

  lemma AheadTrans(was: seq<Buf>, mid: seq<Buf>, bufs: seq<Buf>, b: int)
    requires Ahead(was, mid) && Queued(mid, bufs, b)
    ensures Ahead(was, bufs)
  {
  }

  lemma AheadRefl(bufs: seq<Buf>)
    ensures Ahead(bufs, bufs)
  {
  }

  lemma PassedMeans(was: seq<Buf>, bufs: seq<Buf>, b: int)
    requires Ahead(was, bufs) && forall c :: Idx(|was|, c) ==> Passed(was, b, c)
    ensures forall c :: Idx(|was|, c) ==> !Spotless(was[c])
    ensures b == NIL ==> forall c :: Idx(|was|, c) ==> bufs[c].count > 0
  {
  }

  /** The scan has passed the first n it came to. */
  ghost predicate PassedTo(was: seq<Buf>, b: int, ring: seq<int>, n: nat) {
    |ring| == |was| && |was| > 1 && n <= |was| + 1 &&
    forall j :: 1 <= j <= n ==> Passed(was, b, ring[Position(j, |was|)])
  }

  lemma NonePassed(was: seq<Buf>, ring: seq<int>)
    requires |ring| == |was| && |was| > 1
    ensures PassedTo(was, NIL, ring, 0) && WritesOnly([])
  {
  }

  lemma WritesJoin(es: seq<Event>, fs: seq<Event>)
    requires WritesOnly(es) && WritesOnly(fs)
    ensures WritesOnly(es + fs)
  {
  }

  lemma StillPassed(was: seq<Buf>, b: int, b': int, ring: seq<int>, n: nat)
    requires PassedTo(was, b, ring, n) && n <= |was| && (b != NIL ==> b' != NIL)
    requires Passed(was, b', ring[Position(n + 1, |was|)])
    ensures PassedTo(was, b', ring, n + 1)
  {
  }

  lemma AllPassed(was: seq<Buf>, b: int, ring: seq<int>, m: nat)
    requires |ring| == m && m > 1 && (forall c :: Idx(m, c) ==> c in ring)
    requires |was| == m && PassedTo(was, b, ring, m + 1)
    ensures forall c :: Idx(m, c) ==> Passed(was, b, c)
  {
    forall c | Idx(m, c) ensures Passed(was, b, c) {
      var k :| 0 <= k < m && ring[k] == c;
      var j := if k == 0 then m else k;
      assert Position(j, m) == k;
    }
  }

  /** A dirty buffer is locked and queued in one go. */
  lemma QueueWrite(j: Joint, b: int, rq': R.Sys)
    requires JointInv(j) && |j.sys.bufs| > 0 && Idx(|j.sys.bufs|, b) && j.sys.bufs[b].dirty && j.sys.bufs[b].io.Idle?
    requires |j.rq.slots| == R.NR_REQUEST && RT.Room(j.rq.slots, R.WRITE)
    requires RT.Made(j.rq, rq', R.Request(j.sys.bufs[b].dev, R.WRITE, 2 * j.sys.bufs[b].block, 2, b, NIL))
    ensures var j' := Joint(SetBuf(j.sys, b, j.sys.bufs[b].(dirty := false, io := Writing)), rq');
      JointInv(j') && Runs(j, [AskWrite(b), Queue(b)], j')
  {
    hide JointInv, Runs, RT.Made, RT.Room;
    var x := j.sys.bufs[b];
    var k := Joint(SetBuf(j.sys, b, x.(io := WaitWrite)), j.rq);
    OneStep(j, AskWrite(b), k);
    var j' := Joint(SetBuf(j.sys, b, x.(dirty := false, io := Writing)), rq');
    assert j'.sys == Move(k.sys, Queue(b));
    OneStep(k, Queue(b), j');
    RunsAppend(j, [AskWrite(b)], k, [Queue(b)], j');
    assert [AskWrite(b)] + [Queue(b)] == [AskWrite(b), Queue(b)];
  }
}

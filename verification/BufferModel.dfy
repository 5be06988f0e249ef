/** The buffer cache of fs/buffer.c as a state machine: processes inside getblk, bread and brelse, each
    stopped at one of the places where the source sleeps, and transfers in flight below them. */
module BufferModel {
  import opened Basics
  import R = RequestModel

  type Block = seq<int>

  datatype Key = Key(dev: nat, block: nat)

  /** b_lock and why: waiting for a request slot, or queued. */
  datatype Io = Idle | WaitRead | WaitWrite | Reading | Writing

  datatype Buf = Buf(dev: nat, block: nat, uptodate: bool, dirty: bool, count: nat, io: Io, data: Block)

  /** Where a process is. Those that name a buffer b after Pinned hold one of its b_count. */
  datatype Proc =
    | Out
    | Start(key: Key)                 // at `repeat` in getblk
    | Pinned(key: Key, b: int)        // get_hash_table found b and waits for it to be unlocked
    | Asleep(key: Key)                // on buffer_wait
    | Candidate(key: Key, b: int)     // getblk chose b for eviction and waits for it
    | Got(key: Key, b: int)           // getblk returned b
    | LockWait(key: Key, b: int)      // bread wants to read b and waits in lock_buffer
    | ReadWait(key: Key, b: int)      // bread waits for the transfer
    | Holding(key: Key, b: int)       // bread returned b
    | Releasing(key: Key, b: int)     // brelse waits for b to be unlocked

  datatype Sys = Sys(bufs: seq<Buf>, disk: map<Key, Block>, procs: seq<Proc>)

  /** A device with a driver. */
  predicate IsDev(dev: nat) {
    R.Major(dev) < R.NR_BLK_DEV
  }

  function KeyOf(x: Buf): Key {
    Key(x.dev, x.block)
  }

  function DiskAt(disk: map<Key, Block>, k: Key): Block {
    if k in disk then disk[k] else []
  }

  predicate HasPin(q: Proc) {
    q.Pinned? || q.Got? || q.LockWait? || q.ReadWait? || q.Holding? || q.Releasing?
  }

  predicate PinsIt(q: Proc, b: int) {
    HasPin(q) && q.b == b
  }

  ghost function Pins(procs: seq<Proc>, b: int): set<int> {
    set p | 0 <= p < |procs| && PinsIt(procs[p], b)
  }

  // ---------------------------------------------------------------- the invariant

  /** A clean buffer holds what the disk holds; a dirty one is newer; a buffer being read is not valid yet. */
  ghost predicate DataOk(x: Buf, disk: map<Key, Block>) {
    (x.dirty ==> x.uptodate) && (x.io.WaitRead? || x.io.Reading? ==> !x.uptodate) &&
    (x.io.WaitWrite? || x.io.Writing? ==> x.uptodate) && (x.dev == 0 ==> !x.uptodate && x.io.Idle?) &&
    (x.uptodate && !x.dirty && !x.io.Writing? ==> x.data == DiskAt(disk, KeyOf(x)))
  }

  ghost predicate BufOk(s: Sys, b: int)
    requires Idx(|s.bufs|, b)
  {
    s.bufs[b].count == |Pins(s.procs, b)| && DataOk(s.bufs[b], s.disk) && IsDev(s.bufs[b].dev)
  }

  /** A process that holds a count of b finds in it the block it asked for, and once bread has returned, its data. */
  ghost predicate ProcOk(s: Sys, p: int)
    requires Idx(|s.procs|, p)
  {
    var q := s.procs[p];
    (!q.Out? ==> q.key.dev != 0 && IsDev(q.key.dev)) &&
    (HasPin(q) ==> Idx(|s.bufs|, q.b) && KeyOf(s.bufs[q.b]) == q.key) &&
    (q.Candidate? ==> Idx(|s.bufs|, q.b)) &&
    (q.Holding? ==> s.bufs[q.b].uptodate) &&
    (q.ReadWait? ==> s.bufs[q.b].uptodate || s.bufs[q.b].io.WaitRead? || s.bufs[q.b].io.Reading?)
  }

  /** No two buffers for one block. */
  ghost predicate OneEach(bufs: seq<Buf>) {
    forall a, b :: Idx(|bufs|, a) && Idx(|bufs|, b) && a != b && bufs[a].dev != 0 ==> KeyOf(bufs[a]) != KeyOf(bufs[b])
  }

  ghost predicate Inv(s: Sys) {
    OneEach(s.bufs) &&
    (forall b :: Idx(|s.bufs|, b) ==> BufOk(s, b)) &&
    (forall p :: Idx(|s.procs|, p) ==> ProcOk(s, p))
  }

  // ---------------------------------------------------------------- what the cache stands for

  ghost predicate Cached(s: Sys, k: Key, b: int) {
    Idx(|s.bufs|, b) && KeyOf(s.bufs[b]) == k && s.bufs[b].uptodate
  }

  /** The contents of a block: the valid buffer's data if there is one, the disk's otherwise. */
  ghost function Contents(s: Sys, k: Key): Block {
    if exists b :: Cached(s, k, b) then
      var b :| Cached(s, k, b);
      s.bufs[b].data
    else DiskAt(s.disk, k)
  }

  ghost predicate SameContents(s: Sys, s': Sys) {
    forall k: Key :: k.dev != 0 ==> Contents(s', k) == Contents(s, k)
  }
}

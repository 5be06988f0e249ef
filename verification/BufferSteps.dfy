/** The atomic pieces of getblk, bread, brelse and the driver, between one sleep and the next. Each keeps
    the invariant, and none but a write to a held buffer changes the contents of any block. */
module BufferSteps {
  import opened Basics
  import opened BufferModel

  function SetBuf(s: Sys, b: int, x: Buf): Sys
    requires Idx(|s.bufs|, b)
  {
    s.(bufs := s.bufs[b := x])
  }

  function SetProc(s: Sys, p: int, q: Proc): Sys
    requires Idx(|s.procs|, p)
  {
    s.(procs := s.procs[p := q])
  }

  lemma SetProcPins(procs: seq<Proc>, p: int, q: Proc, b: int)
    requires Idx(|procs|, p)
    ensures |Pins(procs[p := q], b)| == |Pins(procs, b)| - Bit(PinsIt(procs[p], b)) + Bit(PinsIt(q, b))
  {
    var x, y := Pins(procs, b), Pins(procs[p := q], b);
    assert x - {p} == y - {p};
    OneApart(x, y, p);
  }

  /** A pinned buffer is counted. */
  lemma PinIsCounted(s: Sys, p: int)
    requires Inv(s) && Idx(|s.procs|, p) && HasPin(s.procs[p])
    ensures Idx(|s.bufs|, s.procs[p].b) && s.bufs[s.procs[p].b].count > 0
  {
    var b := s.procs[p].b;
    assert ProcOk(s, p) && BufOk(s, b);
    assert p in Pins(s.procs, b);
  }

  // ---------------------------------------------------------------- contents

  /** What buffer x says about its block, falling back on the disk. */
  function Says(x: Buf, disk: map<Key, Block>): Block {
    if x.uptodate then x.data else DiskAt(disk, KeyOf(x))
  }

  lemma ContentsIs(s: Sys, b: int)
    requires OneEach(s.bufs) && Idx(|s.bufs|, b) && s.bufs[b].dev != 0
    ensures Contents(s, KeyOf(s.bufs[b])) == Says(s.bufs[b], s.disk)
  {
    var k := KeyOf(s.bufs[b]);
    assert Cached(s, k, b) <==> s.bufs[b].uptodate;
  }

  ghost predicate NoneFor(bufs: seq<Buf>, k: Key) {
    forall b :: Idx(|bufs|, b) ==> KeyOf(bufs[b]) != k
  }

  lemma ContentsOfDisk(s: Sys, k: Key)
    requires NoneFor(s.bufs, k)
    ensures Contents(s, k) == DiskAt(s.disk, k)
  {
  }

  /** The buffers keep their blocks and say what they said. */
  lemma KeepContents(s: Sys, s': Sys)
    requires OneEach(s.bufs) && OneEach(s'.bufs) && SameKeys(s, s')
    requires forall b :: Idx(|s.bufs|, b) && s.bufs[b].dev != 0 ==> Says(s'.bufs[b], s'.disk) == Says(s.bufs[b], s.disk)
    requires forall k: Key :: NoneFor(s.bufs, k) ==> DiskAt(s'.disk, k) == DiskAt(s.disk, k)
    ensures SameContents(s, s')
  {
    forall k: Key | k.dev != 0 ensures Contents(s', k) == Contents(s, k) {
      if NoneFor(s.bufs, k) {
        assert NoneFor(s'.bufs, k);
        ContentsOfDisk(s, k);
        ContentsOfDisk(s', k);
      } else {
        var b :| Idx(|s.bufs|, b) && KeyOf(s.bufs[b]) == k;
        ContentsIs(s, b);
        ContentsIs(s', b);
      }
    }
  }

  // ---------------------------------------------------------------- one step

  ghost predicate SameKeys(s: Sys, s': Sys) {
    |s'.bufs| == |s.bufs| && forall b :: Idx(|s.bufs|, b) ==> KeyOf(s'.bufs[b]) == KeyOf(s.bufs[b])
  }

  lemma SameKeysOneEach(s: Sys, s': Sys)
    requires OneEach(s.bufs) && SameKeys(s, s')
    ensures OneEach(s'.bufs)
  {
  }

  /** Buffer b becomes x and process p becomes q; the disk changes at most at b's block. */
  ghost predicate Step(s: Sys, s': Sys, b: int, x: Buf, p: int, q: Proc) {
    Idx(|s.bufs|, b) && s'.bufs == s.bufs[b := x] &&
    (if Idx(|s.procs|, p) then s'.procs == s.procs[p := q] else s'.procs == s.procs) &&
    forall k: Key :: k != KeyOf(s.bufs[b]) ==> DiskAt(s'.disk, k) == DiskAt(s.disk, k)
  }

  /** A buffer that was valid, or being read, stays so for those who wait for it. */
  predicate Grows(x: Buf, x': Buf) {
    KeyOf(x') == KeyOf(x) && (x.uptodate ==> x'.uptodate) &&
    (x.io.WaitRead? || x.io.Reading? ==> x'.uptodate || x'.io.WaitRead? || x'.io.Reading?)
  }

  function PinsAt(procs: seq<Proc>, p: int, b: int): nat {
    Bit(Idx(|procs|, p) && PinsIt(procs[p], b))
  }

  lemma StepPins(s: Sys, s': Sys, b: int, x: Buf, p: int, q: Proc, c: int)
    requires Step(s, s', b, x, p, q)
    ensures |Pins(s'.procs, c)| == |Pins(s.procs, c)| - PinsAt(s.procs, p, c) + PinsAt(s'.procs, p, c)
  {
    if Idx(|s.procs|, p) {
      SetProcPins(s.procs, p, q, c);
    }
  }

  lemma StepBuf(s: Sys, s': Sys, b: int, x: Buf, p: int, q: Proc, c: int)
    requires OneEach(s.bufs) && Step(s, s', b, x, p, q) && Grows(s.bufs[b], x) && Idx(|s.bufs|, c) && BufOk(s, c)
    requires DataOk(x, s'.disk)
    requires x.count == s.bufs[b].count - PinsAt(s.procs, p, b) + PinsAt(s'.procs, p, b)
    requires c != b ==> PinsAt(s.procs, p, c) == PinsAt(s'.procs, p, c)
    ensures BufOk(s', c)
  {
    StepPins(s, s', b, x, p, q, c);
    if c != b && s.bufs[c].dev != 0 {
      assert KeyOf(s.bufs[c]) != KeyOf(s.bufs[b]);
    }
  }

  /** Such a step keeps the invariant. */
  lemma StepKeeps(s: Sys, s': Sys, b: int, x: Buf, p: int, q: Proc)
    requires Inv(s) && Step(s, s', b, x, p, q) && Grows(s.bufs[b], x) && DataOk(x, s'.disk)
    requires x.count == s.bufs[b].count - PinsAt(s.procs, p, b) + PinsAt(s'.procs, p, b)
    requires forall c :: Idx(|s.bufs|, c) && c != b ==> PinsAt(s.procs, p, c) == PinsAt(s'.procs, p, c)
    requires Idx(|s.procs|, p) ==> ProcOk(s', p)
    ensures Inv(s')
  {
    SameKeysOneEach(s, s');
    forall c | Idx(|s'.bufs|, c) ensures BufOk(s', c) {
      assert BufOk(s, c);
      StepBuf(s, s', b, x, p, q, c);
    }
    forall r | Idx(|s'.procs|, r) ensures ProcOk(s', r) {
      assert ProcOk(s, r);
    }
  }

  /** And the contents, if the buffer still says the same. */
  lemma StepUnseen(s: Sys, s': Sys, b: int, x: Buf, p: int, q: Proc)
    requires Inv(s) && Inv(s') && Step(s, s', b, x, p, q) && Grows(s.bufs[b], x)
    requires Says(x, s'.disk) == Says(s.bufs[b], s.disk)
    ensures SameContents(s, s')
  {
    forall c | Idx(|s.bufs|, c) && s.bufs[c].dev != 0 ensures Says(s'.bufs[c], s'.disk) == Says(s.bufs[c], s.disk) {
      if c != b {
        assert KeyOf(s.bufs[c]) != KeyOf(s.bufs[b]);
      }
    }
    forall k: Key | NoneFor(s.bufs, k) ensures DiskAt(s'.disk, k) == DiskAt(s.disk, k) {
      assert KeyOf(s.bufs[b]) != k;
    }
    KeepContents(s, s');
  }
}

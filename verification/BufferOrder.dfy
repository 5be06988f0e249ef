/** The order of the free list: buffers in the order in which getblk last returned them, and what that says about
    which block is given up for a new one. */
module BufferOrder {
  import opened Basics
  import opened BufferModel
  import opened BufferLinks
  import opened BufferRequests

  /** Unused, clean and unlocked. */
  predicate Spotless(x: Buf) {
    x.count == 0 && !x.dirty && x.io.Idle?
  }

  /** b has gone to the end, the others keep their order. */
  ghost predicate ToLast(ring: seq<int>, ring': seq<int>, b: int) {
    exists k :: 0 <= k < |ring| && ring[k] == b && ring' == Cut(ring, k) + [b]
  }

  /** getblk has just returned a buffer to process p. */
  predicate Returns(s: Sys, s': Sys, p: int) {
    Idx(|s.procs|, p) && p < |s'.procs| && !s.procs[p].Got? && s'.procs[p].Got?
  }

  ghost predicate OnlyReturn(s: Sys, s': Sys, p: int) {
    Returns(s, s', p) && forall q :: Returns(s, s', q) ==> q == p
  }

  /** Nobody was returned a buffer. */
  ghost predicate NoReturn(procs: seq<Proc>, procs': seq<Proc>) {
    |procs'| == |procs| && forall p :: Idx(|procs|, p) && procs'[p].Got? ==> procs[p].Got?
  }

  /** What a turn does to the free list: the buffer that getblk returned goes last. */
  ghost predicate Listed(s: Sys, ring: seq<int>, s': Sys, ring': seq<int>) {
    ((forall p :: !Returns(s, s', p)) && ring' == ring) ||
    exists p :: OnlyReturn(s, s', p) && ToLast(ring, ring', s'.procs[p].b)
  }

  lemma Unreturned(procs: seq<Proc>)
    ensures NoReturn(procs, procs)
  {
  }

  lemma NotReturned(procs: seq<Proc>, p: int, q: Proc)
    requires Idx(|procs|, p) && !q.Got?
    ensures NoReturn(procs, procs[p := q])
  {
  }

  lemma NothingListed(s: Sys, s': Sys, ring: seq<int>)
    requires NoReturn(s.procs, s'.procs)
    ensures Listed(s, ring, s', ring)
  {
  }

  lemma OneListed(s: Sys, ring: seq<int>, s': Sys, ring': seq<int>, p: int, q: Proc)
    requires Idx(|s.procs|, p) && !s.procs[p].Got? && q.Got? && s'.procs == s.procs[p := q] && ToLast(ring, ring', q.b)
    ensures Listed(s, ring, s', ring')
  {
    assert OnlyReturn(s, s', p);
  }

  // ---------------------------------------------------------------- over a run

  /** In turn n - 1 of the run getblk returned b. */
  ghost predicate UsedIn(trace: seq<Joint>, n: int, b: int) {
    0 < n < |trace| &&
    exists p :: Returns(trace[n - 1].sys, trace[n].sys, p) && trace[n].sys.procs[p].b == b
  }

  /** The last of the first n turns in which getblk returned b, -1 for none. */
  ghost function LastUse(trace: seq<Joint>, n: nat, b: int): int {
    if n == 0 then -1 else if UsedIn(trace, n, b) then n - 1 else LastUse(trace, n - 1, b)
  }

  ghost predicate Earlier(ring: seq<int>, a: int, c: int) {
    exists i, j :: 0 <= i < j < |ring| && ring[i] == a && ring[j] == c
  }

  /** After n turns a was used before c, or neither was and a was ahead of c from the start. */
  ghost predicate Older(trace: seq<Joint>, first: seq<int>, n: nat, a: int, c: int) {
    LastUse(trace, n, a) < LastUse(trace, n, c) ||
    (LastUse(trace, n, a) == -1 && LastUse(trace, n, c) == -1 && Earlier(first, a, c))
  }

  /** The list is in the order of the last use. */
  ghost predicate ByUse(trace: seq<Joint>, first: seq<int>, n: nat, ring: seq<int>) {
    NoDup(ring) && forall i, j :: 0 <= i < j < |ring| ==> Older(trace, first, n, ring[i], ring[j])
  }

  lemma ByUseFirst(trace: seq<Joint>, first: seq<int>)
    requires NoDup(first)
    ensures ByUse(trace, first, 0, first)
  {
    forall i, j | 0 <= i < j < |first| ensures Older(trace, first, 0, first[i], first[j]) {
      assert Earlier(first, first[i], first[j]);
    }
  }

  lemma {:induction false} LastUseBelow(trace: seq<Joint>, n: nat, b: int)
    ensures -1 <= LastUse(trace, n, b) < n
  {
    if n > 0 { LastUseBelow(trace, n - 1, b); }
  }

  /** A longer trace says the same of its beginning. */
  lemma {:induction false} LastUseSame(trace: seq<Joint>, more: seq<Joint>, n: nat, b: int)
    requires n < |trace|
    ensures LastUse(trace + more, n, b) == LastUse(trace, n, b)
  {
    if n > 0 {
      LastUseSame(trace, more, n - 1, b);
      assert (trace + more)[n - 1] == trace[n - 1] && (trace + more)[n] == trace[n];
    }
  }

  lemma ByUseSame(trace: seq<Joint>, more: seq<Joint>, first: seq<int>, n: nat, ring: seq<int>)
    requires n < |trace| && ByUse(trace, first, n, ring)
    ensures ByUse(trace + more, first, n, ring)
  {
    hide LastUse;
    forall i, j | 0 <= i < j < |ring| ensures Older(trace + more, first, n, ring[i], ring[j]) {
      LastUseSame(trace, more, n, ring[i]);
      LastUseSame(trace, more, n, ring[j]);
    }
  }

  /** Which buffers count as used in the turn that leads to trace[n + 1]. */
  lemma UsedOnce(trace: seq<Joint>, n: nat, p: int, b: int)
    requires n + 1 < |trace| && OnlyReturn(trace[n].sys, trace[n + 1].sys, p)
    ensures UsedIn(trace, n + 1, b) <==> b == trace[n + 1].sys.procs[p].b
  {
  }

  lemma ByUseNext(trace: seq<Joint>, first: seq<int>, n: nat, ring: seq<int>, ring': seq<int>)
    requires n + 1 < |trace| && ByUse(trace, first, n, ring) && NoDup(ring')
    requires Listed(trace[n].sys, ring, trace[n + 1].sys, ring')
    ensures ByUse(trace, first, n + 1, ring')
  {
    var s, s' := trace[n].sys, trace[n + 1].sys;
    if p :| OnlyReturn(s, s', p) && ToLast(ring, ring', s'.procs[p].b) {
      var b := s'.procs[p].b;
      var k :| 0 <= k < |ring| && ring[k] == b && ring' == Cut(ring, k) + [b];
      hide OnlyReturn, UsedIn, LastUse;
      forall i, j | 0 <= i < j < |ring'| ensures Older(trace, first, n + 1, ring'[i], ring'[j]) {
        UsedLast(trace, first, n, ring, k, p, i, j);
      }
    } else {
      var m := n + 1;
      forall b: int ensures !UsedIn(trace, m, b) { }
    }
  }

  lemma UsedLast(trace: seq<Joint>, first: seq<int>, n: nat, ring: seq<int>, k: int, p: int, i: int, j: int)
    requires n + 1 < |trace| && ByUse(trace, first, n, ring) && 0 <= k < |ring| && 0 <= i < j < |ring|
    requires OnlyReturn(trace[n].sys, trace[n + 1].sys, p) && trace[n + 1].sys.procs[p].b == ring[k]
    ensures var r := Cut(ring, k) + [ring[k]]; |r| == |ring| && Older(trace, first, n + 1, r[i], r[j])
  {
    var b := ring[k];
    var r := Cut(ring, k) + [b];
    var i0, j0 := if i < k then i else i + 1, if j < k then j else j + 1;
    assert r[i] == ring[i0] && ring[i0] != b;
    UsedOnce(trace, n, p, b);
    UsedOnce(trace, n, p, r[i]);
    UsedOnce(trace, n, p, r[j]);
    hide UsedIn, OnlyReturn;
    assert LastUse(trace, n + 1, b) == n;
    assert LastUse(trace, n + 1, r[i]) == LastUse(trace, n, r[i]);
    if j < |ring| - 1 {
      assert r[j] == ring[j0] && Older(trace, first, n, ring[i0], ring[j0]);
      assert LastUse(trace, n + 1, r[j]) == LastUse(trace, n, r[j]);
    } else {
      LastUseBelow(trace, n, r[i]);
    }
  }

  // ---------------------------------------------------------------- what is given up

  /** The buffer getblk takes when some are spotless: the first of them behind the head of the list, the head last. */
  ghost predicate FirstSpotless(bufs: seq<Buf>, ring: seq<int>, b: int) {
    exists i :: 0 <= i < |ring| && ring[i] == b && Idx(|bufs|, b) && Spotless(bufs[b]) &&
      forall j :: 0 < j < (if i == 0 then |ring| else i) ==> Idx(|bufs|, ring[j]) && !Spotless(bufs[ring[j]])
  }

  /** So of the spotless buffers but the head it is the one that has not been used for longest. */
  lemma GivesUpOldest(trace: seq<Joint>, first: seq<int>, n: nat, bufs: seq<Buf>, ring: seq<int>, b: int, c: int)
    requires ByUse(trace, first, n, ring) && FirstSpotless(bufs, ring, b)
    requires c in ring && Idx(|bufs|, c) && Spotless(bufs[c]) && c != b && c != ring[0]
    ensures Older(trace, first, n, b, c)
  {
    var i :| 0 <= i < |ring| && ring[i] == b && Idx(|bufs|, b) && Spotless(bufs[b]) &&
      forall j :: 0 < j < (if i == 0 then |ring| else i) ==> Idx(|bufs|, ring[j]) && !Spotless(bufs[ring[j]]);
    var j :| 0 <= j < |ring| && ring[j] == c;
    assert i < j;
  }

  /** It is not the oldest of all: that one, at the head, is passed over as long as there is another. */
  lemma HeadIsSpared(trace: seq<Joint>, first: seq<int>, n: nat, bufs: seq<Buf>, ring: seq<int>, b: int)
    requires ByUse(trace, first, n, ring) && FirstSpotless(bufs, ring, b)
    requires Idx(|bufs|, ring[0]) && Spotless(bufs[ring[0]])
    ensures b == ring[0] <==> forall j :: 0 < j < |ring| ==> Idx(|bufs|, ring[j]) && !Spotless(bufs[ring[j]])
    ensures b != ring[0] ==> Older(trace, first, n, ring[0], b)
  {
  }

  /** How getblk chooses where none is spotless: a clean buffer before a dirty one, and of the same kind an unlocked
      one before a locked one. */
  predicate NoWorse(x: Buf, y: Buf) {
    (x.dirty ==> y.dirty) && (x.dirty == y.dirty && !x.io.Idle? ==> !y.io.Idle?)
  }
}

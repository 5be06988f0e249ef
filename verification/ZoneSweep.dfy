/** Taking a file's zones away from below, while other processes hold the buffers of some of them. */
module ZoneSweep {
  import opened ZoneModel
  import opened ZoneSteps
  import opened ZoneOps

  predicate ChildOf(y: Slot, x: Slot) {
    !y.Direct? && Parent(y) == x
  }

  /** The zone at x cannot go: its buffer, or that of a zone below it, is in use. */
  ghost predicate Held(s: Fs, busy: set<nat>, x: Slot)
    decreases 2 - Depth(x)
  {
    Value(s, x) != 0 &&
    (Value(s, x) in busy || exists y :: IsSlot(|s.inodes|, y) && ChildOf(y, x) && Held(s, busy, y))
  }

  /** From s to s' the zones named at the positions `done` of file n have been freed, but for the held ones;
      every other mark, name and block is as it was. */
  ghost predicate Swept(s: Fs, s': Fs, n: int, busy: set<nat>, done: iset<Slot>) {
    Inv(s') && |s'.inodes| == |s.inodes| && |s'.data| == |s.data| && s'.first == s.first && s'.zones == s.zones &&
    (forall y :: IsSlot(|s.inodes|, y) ==>
       Value(s', y) == if y in done && !Held(s, busy, y) then 0 else Value(s, y)) &&
    (forall y :: IsSlot(|s.inodes|, y) && Value(s, y) != 0 ==> (InUse(s', Value(s, y)) <==> Value(s', y) != 0)) &&
    (forall w: nat :: IsZone(s, w) && Unnamed(s, w) ==> (InUse(s', w) <==> InUse(s, w))) &&
    (forall y :: IsSlot(|s.inodes|, y) && y.n != n ==> SameBlock(s, s', Value(s, y)))
  }

  ghost predicate SameBlock(s: Fs, s': Fs, w: nat) {
    w < |s.data| && w < |s'.data| ==> s'.data[w] == s.data[w]
  }

  lemma SweptNone(s: Fs, n: int, busy: set<nat>)
    requires Inv(s)
    ensures Swept(s, s, n, busy, iset{})
  {
  }

  /** Every position under x is done, and x itself is not held: nothing hangs below x any more. */
  lemma NothingBelow(s: Fs, t: Fs, n: int, busy: set<nat>, done: iset<Slot>, x: Slot)
    requires Swept(s, t, n, busy, done) && IsSlot(|s.inodes|, x) && Value(s, x) != 0 && !Held(s, busy, x)
    requires forall y :: IsSlot(|s.inodes|, y) && ChildOf(y, x) ==> y in done
    ensures Bare(t, x)
  {
  }

  /** The zone at x freed and its name erased. */
  lemma SweepOne(s: Fs, t: Fs, n: int, busy: set<nat>, done: iset<Slot>, x: Slot)
    requires Inv(s) && Swept(s, t, n, busy, done) && IsSlot(|s.inodes|, x) && x.n == n && x !in done
    requires Value(s, x) != 0 && !Held(s, busy, x) && Bare(t, x)
    ensures Value(t, x) == Value(s, x) && IsZone(t, Value(t, x)) && InUse(t, Value(t, x))
    ensures HasBit(t.zmap, BitNr(t, Value(t, x))) && Writable(SetBit(t, Value(t, x), false), x)
    ensures Swept(s, Prune(t, x), n, busy, done + iset{x})
  {
    assert IsSlot(|t.inodes|, x);
    PruneKeeps(t, x);
    PruneData(t, x);
    SweepOneValues(s, t, Prune(t, x), n, busy, done, x);
    SweepOneBits(s, t, Prune(t, x), n, busy, done, x);
    SweepOneData(s, t, Prune(t, x), n, busy, done, x);
  }

  /** Only the block that holds x changes, and that belongs to the same file. */
  ghost predicate DataBut(s: Fs, s': Fs, x: Slot) {
    |s'.data| == |s.data| &&
    forall w :: 0 <= w < |s.data| && (x.Direct? || w != Value(s, Parent(x))) ==> s'.data[w] == s.data[w]
  }

  lemma PruneData(t: Fs, x: Slot)
    requires HasBit(t.zmap, BitNr(t, Value(t, x))) && Writable(SetBit(t, Value(t, x), false), x)
    requires Inv(t) && IsSlot(|t.inodes|, x)
    ensures DataBut(t, Prune(t, x), x) && Prune(t, x).first == t.first && Prune(t, x).zones == t.zones
  {
  }

  lemma SweepOneValues(s: Fs, t: Fs, u: Fs, n: int, busy: set<nat>, done: iset<Slot>, x: Slot)
    requires Swept(s, t, n, busy, done) && ValuesBut(t, u, x, 0) && !Held(s, busy, x)
    ensures forall y :: IsSlot(|s.inodes|, y) ==>
              Value(u, y) == if y in done + iset{x} && !Held(s, busy, y) then 0 else Value(s, y)
  {
  }

  lemma SweepOneBits(s: Fs, t: Fs, u: Fs, n: int, busy: set<nat>, done: iset<Slot>, x: Slot)
    requires Inv(s) && Swept(s, t, n, busy, done) && ValuesBut(t, u, x, 0) && IsSlot(|s.inodes|, x)
    requires Value(t, x) == Value(s, x) && Value(s, x) != 0 && BitsBut(t, u, Value(t, x), false)
    ensures forall y :: IsSlot(|s.inodes|, y) && Value(s, y) != 0 ==> (InUse(u, Value(s, y)) <==> Value(u, y) != 0)
    ensures forall w: nat :: IsZone(s, w) && Unnamed(s, w) ==> (InUse(u, w) <==> InUse(s, w))
  {
    hide Value;
    forall y | IsSlot(|s.inodes|, y) && Value(s, y) != 0
      ensures InUse(u, Value(s, y)) <==> Value(u, y) != 0
    {
      assert SlotOk(s, y) && Apart(s, x, y);
      assert IsZone(t, Value(s, y)) && IsSlot(|t.inodes|, y);
    }
    forall w: nat | IsZone(s, w) && Unnamed(s, w) ensures InUse(u, w) <==> InUse(s, w) {
      assert IsZone(t, w);
    }
  }

  lemma SweepOneData(s: Fs, t: Fs, u: Fs, n: int, busy: set<nat>, done: iset<Slot>, x: Slot)
    requires Inv(s) && Swept(s, t, n, busy, done) && IsSlot(|s.inodes|, x) && x.n == n && DataBut(t, u, x)
    requires x.Direct? || Value(t, Parent(x)) != 0
    ensures forall y :: IsSlot(|s.inodes|, y) && y.n != n ==> SameBlock(s, u, Value(s, y))
  {
    hide Value;
    forall y | IsSlot(|s.inodes|, y) && y.n != n ensures SameBlock(s, u, Value(s, y)) {
      var v := Value(s, y);
      if !x.Direct? {
        assert IsSlot(|s.inodes|, Parent(x));
        assert Apart(s, Parent(x), y);
      }
      assert SameBlock(s, t, v);
    }
  }

  /** Positions with no zone, or with a held one, may be counted as done. */
  lemma SweepSkip(s: Fs, t: Fs, n: int, busy: set<nat>, done: iset<Slot>, more: iset<Slot>)
    requires Swept(s, t, n, busy, done)
    requires forall y :: IsSlot(|s.inodes|, y) && y in done ==> y in more
    requires forall y :: IsSlot(|s.inodes|, y) && y in more ==> y in done || Value(s, y) == 0 || Held(s, busy, y)
    ensures Swept(s, t, n, busy, more)
  {
  }

  // ---------------------------------------------------------------- positions under one position

  predicate IsIndex(x: Slot) {
    x.Dind? || (x.Direct? && 7 <= x.k <= 8)
  }

  /** The position with number j in the block named at x. */
  function Kid(x: Slot, j: int): Slot
    requires IsIndex(x)
  {
    if x.Dind? then Leaf(x.n, x.a, j) else if x.k == 7 then Ind(x.n, j) else Dind(x.n, j)
  }

  ghost function Kids(x: Slot, j: int): iset<Slot> {
    iset y: Slot | ChildOf(y, x) && 0 <= Index(y) < j
  }

  lemma KidIsOnly(x: Slot, y: Slot)
    requires IsIndex(x) && ChildOf(y, x)
    ensures y == Kid(x, Index(y))
  {
  }

  lemma KidsNext(x: Slot, j: nat)
    requires IsIndex(x)
    ensures Kids(x, j + 1) == Kids(x, j) + iset{Kid(x, j)}
    ensures ChildOf(Kid(x, j), x) && Index(Kid(x, j)) == j && Kid(x, j) !in Kids(x, j)
  {
  }

  /** A position nothing can hang under. */
  lemma HeldLeaf(s: Fs, busy: set<nat>, x: Slot)
    requires !IsIndex(x) && IsSlot(|s.inodes|, x)
    ensures Held(s, busy, x) <==> Value(s, x) != 0 && Value(s, x) in busy
    ensures Bare(s, x)
  {
  }

  ghost predicate KidHeld(s: Fs, busy: set<nat>, x: Slot, j: nat)
    requires IsIndex(x)
  {
    exists i :: 0 <= i < j && Held(s, busy, Kid(x, i))
  }

  lemma KidHeldNext(s: Fs, busy: set<nat>, x: Slot, j: nat)
    requires IsIndex(x)
    ensures KidHeld(s, busy, x, j + 1) <==> KidHeld(s, busy, x, j) || Held(s, busy, Kid(x, j))
  {
  }

  lemma HeldIndex(s: Fs, busy: set<nat>, x: Slot)
    requires IsIndex(x) && IsSlot(|s.inodes|, x) && Value(s, x) != 0
    ensures Held(s, busy, x) <==> Value(s, x) in busy || KidHeld(s, busy, x, PER_BLOCK)
  {
    if Held(s, busy, x) && Value(s, x) !in busy {
      var y :| IsSlot(|s.inodes|, y) && ChildOf(y, x) && Held(s, busy, y);
      KidIsOnly(x, y);
      assert Held(s, busy, Kid(x, Index(y)));
    }
    if KidHeld(s, busy, x, PER_BLOCK) {
      var i :| 0 <= i < PER_BLOCK && Held(s, busy, Kid(x, i));
      assert ChildOf(Kid(x, i), x);
    }
  }

  /** The double indirect positions below number a, with everything under them. */
  ghost function Under(n: int, a: int): iset<Slot> {
    iset y: Slot | y.n == n && ((y.Dind? && 0 <= y.a < a) || (y.Leaf? && 0 <= y.a < a && 0 <= y.b < PER_BLOCK))
  }

  lemma UnderNext(n: int, a: nat)
    ensures Under(n, a + 1) == Under(n, a) + Kids(Dind(n, a), PER_BLOCK) + iset{Dind(n, a)}
    ensures Dind(n, a) !in Under(n, a) && forall y :: ChildOf(y, Dind(n, a)) ==> y !in Under(n, a)
  {
  }

  /** The first i of the inode's own zone numbers. */
  ghost function Own(n: int, i: int): iset<Slot> {
    iset y: Slot | y.Direct? && y.n == n && 0 <= y.k < i
  }

  ghost predicate OwnHeld(s: Fs, busy: set<nat>, n: int, i: nat) {
    exists k :: 0 <= k < i && Held(s, busy, Direct(n, k))
  }

  lemma OwnHeldNext(s: Fs, busy: set<nat>, n: int, i: nat)
    ensures OwnHeld(s, busy, n, i + 1) <==> OwnHeld(s, busy, n, i) || Held(s, busy, Direct(n, i))
  {
  }

  lemma OwnNext(n: int, i: nat)
    ensures Own(n, i + 1) == Own(n, i) + iset{Direct(n, i)} && Direct(n, i) !in Own(n, i)
  {
  }

  /** All positions of a file, in the order they are visited. */
  ghost function Visited(n: int): iset<Slot> {
    Own(n, 7) + Kids(Direct(n, 7), PER_BLOCK) + iset{Direct(n, 7)} + Under(n, PER_BLOCK) + iset{Direct(n, 8)}
  }

  lemma VisitedAll(s: Fs, t: Fs, n: int, busy: set<nat>)
    requires Swept(s, t, n, busy, Visited(n))
    ensures Swept(s, t, n, busy, All(n))
  {
    hide Inv, Value, Held;
    forall y | IsSlot(|s.inodes|, y) && y.n == n ensures y in Visited(n) {
    }
    SweepSkip(s, t, n, busy, Visited(n), All(n));
  }

  /** Nothing held at the inode's own positions: nothing held at all, and the file is empty after the round. */
  lemma RoundEmpties(s: Fs, t: Fs, n: int, busy: set<nat>)
    requires Inv(s) && 0 <= n < |s.inodes| && Swept(s, t, n, busy, All(n)) && !OwnHeld(s, busy, n, 9)
    ensures Empty(t, n)
  {
  }

  /** No other process holds a buffer of the file's zones. */
  ghost predicate Idle(s: Fs, n: int, busy: set<nat>) {
    forall y :: IsSlot(|s.inodes|, y) && y.n == n && Value(s, y) != 0 ==> Value(s, y) !in busy
  }

  lemma {:induction false} IdleNotHeld(s: Fs, n: int, busy: set<nat>, y: Slot)
    requires IsSlot(|s.inodes|, y) && y.n == n && Idle(s, n, busy)
    ensures !Held(s, busy, y)
    decreases 2 - Depth(y)
  {
    if Held(s, busy, y) {
      var c :| IsSlot(|s.inodes|, c) && ChildOf(c, y) && Held(s, busy, c);
      IdleNotHeld(s, n, busy, c);
    }
  }

  // ---------------------------------------------------------------- several rounds

  /** What any number of rounds over file n does: some of its zones are freed, each mark removed belongs to
      a zone whose name was erased, and the other files and every other mark are untouched. */
  ghost predicate Trimmed(s: Fs, s': Fs, n: int) {
    Inv(s') && |s'.inodes| == |s.inodes| && |s'.data| == |s.data| && s'.first == s.first && s'.zones == s.zones &&
    (forall y :: IsSlot(|s.inodes|, y) ==> Value(s', y) == Value(s, y) || (y.n == n && Value(s', y) == 0)) &&
    (forall y :: IsSlot(|s.inodes|, y) && Value(s, y) != 0 ==> (InUse(s', Value(s, y)) <==> Value(s', y) != 0)) &&
    (forall w: nat :: IsZone(s, w) && Unnamed(s, w) ==> (InUse(s', w) <==> InUse(s, w))) &&
    (forall y :: IsSlot(|s.inodes|, y) && y.n != n ==> SameBlock(s, s', Value(s, y)))
  }

  ghost predicate Empty(s: Fs, n: int) {
    forall y :: IsSlot(|s.inodes|, y) && y.n == n ==> Value(s, y) == 0
  }

  lemma HeldUp(s: Fs, busy: set<nat>, y: Slot)
    requires Inv(s) && IsSlot(|s.inodes|, y) && Held(s, busy, y)
    ensures IsSlot(|s.inodes|, Parent(y)) && Held(s, busy, Parent(y))
  {
    if !y.Direct? { assert ChildOf(y, Parent(y)); }
  }

  lemma RoundMeans(s: Fs, t: Fs, n: int, busy: set<nat>)
    requires Inv(s) && 0 <= n < |s.inodes| && Swept(s, t, n, busy, All(n))
    ensures OwnHeld(s, busy, n, 9) <==> !Idle(s, n, busy)
    ensures forall w: nat :: IsZone(s, w) && w in busy ==> (InUse(t, w) <==> InUse(s, w))
  {
    if y :| IsSlot(|s.inodes|, y) && y.n == n && Value(s, y) != 0 && Value(s, y) in busy {
      HeldUp(s, busy, y);
      HeldUp(s, busy, Parent(y));
    } else {
      forall k | 0 <= k < 9 ensures !Held(s, busy, Direct(n, k)) { IdleNotHeld(s, n, busy, Direct(n, k)); }
    }
    forall w: nat | IsZone(s, w) && w in busy ensures InUse(t, w) <==> InUse(s, w) {
      if !Unnamed(s, w) {
        var y :| IsSlot(|s.inodes|, y) && Value(s, y) == w;
        assert Held(s, busy, y) && SlotOk(s, y);
      }
    }
  }

  ghost function All(n: int): iset<Slot> {
    iset y: Slot | y.n == n
  }

  lemma SweptTrims(s: Fs, t: Fs, n: int, busy: set<nat>)
    requires Swept(s, t, n, busy, All(n))
    ensures Trimmed(s, t, n)
  {
  }

  lemma TrimmedNot(s: Fs, n: int)
    requires Inv(s)
    ensures Trimmed(s, s, n)
  {
  }

  lemma TrimmedTwice(s: Fs, t: Fs, u: Fs, n: int)
    requires Inv(s) && Trimmed(s, t, n) && Trimmed(t, u, n)
    ensures Trimmed(s, u, n)
  {
    TrimmedMarks(s, t, u, n);
    hide Inv, Value;
    forall y | IsSlot(|s.inodes|, y) ensures Value(u, y) == Value(s, y) || (y.n == n && Value(u, y) == 0) {
      assert IsSlot(|t.inodes|, y);
    }
    forall y | IsSlot(|s.inodes|, y) && y.n != n ensures SameBlock(s, u, Value(s, y)) {
      assert IsSlot(|t.inodes|, y);
      assert Value(t, y) == Value(s, y);
      assert SameBlock(s, t, Value(s, y)) && SameBlock(t, u, Value(t, y));
    }
  }

  lemma TrimmedMarks(s: Fs, t: Fs, u: Fs, n: int)
    requires Inv(s) && Trimmed(s, t, n) && Trimmed(t, u, n)
    ensures forall y :: IsSlot(|s.inodes|, y) && Value(s, y) != 0 ==> (InUse(u, Value(s, y)) <==> Value(u, y) != 0)
    ensures forall w: nat :: IsZone(s, w) && Unnamed(s, w) ==> (InUse(u, w) <==> InUse(s, w))
  {
  }
}

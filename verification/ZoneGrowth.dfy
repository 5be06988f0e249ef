/** What giving a file one more block leaves alone. */
module ZoneGrowth {
  import opened ZoneModel
  import opened ZoneSteps
  import opened ZoneOps

  /** Every zone is marked. */
  ghost predicate Full(s: Fs) {
    forall w: nat :: IsZone(s, w) ==> InUse(s, w)
  }

  /** Position x, empty before, has received a fresh zeroed zone z; or z is 0, no zone is free and at most
      a bit beyond the zones has been marked; or x had a zone and nothing happened. */
  ghost predicate Filled(s: Fs, s': Fs, x: Slot, z: nat) {
    Inv(s') && ValuesBut(s, s', x, z) && |s'.data| == |s.data| &&
    if Value(s, x) != 0 then s' == s && z == Value(s, x)
    else if z == 0 then Full(s) && s'.data == s.data && BitsBut(s, s', -1, true)
    else Free(s, z) && BitsBut(s, s', z, true) && s'.data[z] == Zeros() && KeepsOtherData(s, s', x, z)
  }

  ghost predicate KeepsOtherData(s: Fs, s': Fs, x: Slot, z: nat)
    requires |s'.data| == |s.data|
  {
    forall w :: 0 <= w < |s.data| && w != z && (x.Direct? || w != Value(s, Parent(x))) ==> s'.data[w] == s.data[w]
  }

  predicate IsBlock(files: nat, n: int, b: int) {
    0 <= n < files && 0 <= b < MAX_BLOCK
  }

  /** On the way to block b of file n: a position an index block of that file stands at, or b's own. */
  predicate OnPath(x: Slot, n: int, b: int)
    requires 0 <= b < MAX_BLOCK
  {
    x.n == n && (x == Place(n, b) || x == Direct(n, 7) || x == Direct(n, 8) || x.Dind?)
  }

  /** What is kept while block b of file n is given a zone: every zone stays where it is named, every other
      block of every file maps as it did, mapped blocks keep their contents, and a zone marked since is one
      that file n names. */
  ghost predicate Grown(s: Fs, s': Fs, n: int, b: int) {
    Inv(s') && |s'.inodes| == |s.inodes| && |s'.data| == |s.data| && s'.first == s.first && s'.zones == s.zones &&
    (forall x :: IsSlot(|s.inodes|, x) ==> NameKept(s, s', n, x)) &&
    (forall n2, b2 :: IsBlock(|s.inodes|, n2, b2) ==> BlockKept(s, s', n, b, n2, b2)) &&
    (forall w: nat :: IsZone(s, w) ==> Accounted(s, s', n, w))
  }

  /** A zone stays where it is named; a new name is of file n and of a zone that was free. */
  ghost predicate NameKept(s: Fs, s': Fs, n: int, x: Slot) {
    (Value(s, x) != 0 || x.n != n ==> Value(s', x) == Value(s, x)) &&
    (Value(s, x) == 0 && Value(s', x) != 0 ==> IsZone(s, Value(s', x)) && !InUse(s, Value(s', x)))
  }

  ghost predicate BlockKept(s: Fs, s': Fs, n: int, b: int, n2: int, b2: int) {
    (n2 != n || b2 != b ==> Bmap(s', n2, b2) == Bmap(s, n2, b2)) &&
    (0 < Bmap(s, n2, b2) < |s.data| && |s'.data| == |s.data| ==>
       s'.data[Bmap(s, n2, b2)] == s.data[Bmap(s, n2, b2)])
  }

  ghost predicate Accounted(s: Fs, s': Fs, n: int, w: nat) {
    (InUse(s, w) ==> InUse(s', w)) && (InUse(s', w) && !InUse(s, w) ==> NamedBy(s', n, w))
  }

  ghost predicate NamedBy(s: Fs, n: int, w: nat) {
    exists x :: IsSlot(|s.inodes|, x) && x.n == n && Value(s, x) == w
  }

  lemma PlaceIsSlot(files: nat, n: int, b: int)
    requires IsBlock(files, n, b)
    ensures IsSlot(files, Place(n, b))
  {
  }

  lemma FilledKeepsBlock(s: Fs, s': Fs, x: Slot, z: nat, n: int, b: int, n2: int, b2: int)
    requires Inv(s) && Filled(s, s', x, z) && IsSlot(|s.inodes|, x)
    requires IsBlock(|s.inodes|, n, b) && OnPath(x, n, b) && IsBlock(|s.inodes|, n2, b2)
    ensures BlockKept(s, s', n, b, n2, b2)
  {
    var y := Place(n2, b2);
    PlaceIsSlot(|s.inodes|, n2, b2);
    if n2 != n || b2 != b {
      if y == x { PlaceIsOne(n, b, n2, b2); }
    }
    if Value(s, y) != 0 && Value(s, x) == 0 && z != 0 {
      assert SlotOk(s, y);
      if !x.Direct? {
        assert Apart(s, y, Parent(x));
      }
    }
  }

  lemma FilledGrows(s: Fs, s': Fs, x: Slot, z: nat, n: int, b: int)
    requires Inv(s) && Filled(s, s', x, z) && IsSlot(|s.inodes|, x)
    requires IsBlock(|s.inodes|, n, b) && OnPath(x, n, b)
    ensures Grown(s, s', n, b)
  {
    forall y | IsSlot(|s.inodes|, y) ensures NameKept(s, s', n, y) {
    }
    forall n2, b2 | IsBlock(|s.inodes|, n2, b2) ensures BlockKept(s, s', n, b, n2, b2) {
      FilledKeepsBlock(s, s', x, z, n, b, n2, b2);
    }
    forall w: nat | IsZone(s, w) ensures Accounted(s, s', n, w) {
      if z != 0 { assert Value(s', x) == z; }
    }
  }

  lemma GrownTwice(s: Fs, t: Fs, u: Fs, n: int, b: int)
    requires Grown(s, t, n, b) && Grown(t, u, n, b)
    ensures Grown(s, u, n, b)
  {
    hide Inv;
    forall x | IsSlot(|s.inodes|, x) ensures NameKept(s, u, n, x) {
      NameKeptTwice(s, t, u, n, b, x);
    }
    forall n2, b2 | IsBlock(|s.inodes|, n2, b2) ensures BlockKept(s, u, n, b, n2, b2) {
      BlockKeptTwice(s, t, u, n, b, n2, b2);
    }
    forall w: nat | IsZone(s, w) ensures Accounted(s, u, n, w) {
      AccountedTwice(s, t, u, n, b, w);
    }
  }

  lemma NameKeptTwice(s: Fs, t: Fs, u: Fs, n: int, b: int, x: Slot)
    requires Grown(s, t, n, b) && Grown(t, u, n, b) && IsSlot(|s.inodes|, x)
    ensures NameKept(s, u, n, x)
  {
  }

  lemma BlockKeptTwice(s: Fs, t: Fs, u: Fs, n: int, b: int, n2: int, b2: int)
    requires Grown(s, t, n, b) && Grown(t, u, n, b) && IsBlock(|s.inodes|, n2, b2)
    ensures BlockKept(s, u, n, b, n2, b2)
  {
    hide Inv, Value;
    PlaceIsSlot(|s.inodes|, n2, b2);
    assert BlockKept(s, t, n, b, n2, b2) && BlockKept(t, u, n, b, n2, b2);
    assert NameKept(s, t, n, Place(n2, b2));
  }

  lemma AccountedTwice(s: Fs, t: Fs, u: Fs, n: int, b: int, w: nat)
    requires Grown(s, t, n, b) && Grown(t, u, n, b) && IsZone(s, w)
    ensures Accounted(s, u, n, w)
  {
    hide Inv, Value;
    assert IsZone(t, w);
    assert Accounted(s, t, n, w) && Accounted(t, u, n, w);
    if InUse(t, w) && !InUse(s, w) {
      var x :| IsSlot(|t.inodes|, x) && x.n == n && Value(t, x) == w;
      assert NameKept(t, u, n, x);
      if w == 0 { ZoneIsPositive(t, w); }
    }
  }

  lemma ZoneIsPositive(s: Fs, w: nat)
    requires Inv(s) && IsZone(s, w)
    ensures w > 0
  {
  }

  lemma GrownInv(s: Fs, t: Fs, n: int, b: int)
    requires Grown(s, t, n, b)
    ensures Inv(t) && |t.inodes| == |s.inodes|
  {
  }

  lemma GrownNot(s: Fs, n: int, b: int)
    requires Inv(s)
    ensures Grown(s, s, n, b)
  {
  }

  /** Outcome z of asking for block b of file n: its zone, fresh and zeroed when it had none, or 0 when no
      zone is left. */
  ghost predicate Created(s: Fs, s': Fs, n: int, b: int, z: nat) {
    Grown(s, s', n, b) && z == Bmap(s', n, b) &&
    (Bmap(s, n, b) != 0 ==> s' == s) &&
    (Bmap(s, n, b) == 0 && z != 0 ==> Free(s, z) && z < |s'.data| && s'.data[z] == Zeros()) &&
    (z == 0 ==> Full(s'))
  }

  lemma CreatedLast(s: Fs, t: Fs, u: Fs, n: int, b: int, z: nat)
    requires Inv(s) && IsBlock(|s.inodes|, n, b) && Grown(s, t, n, b) && Filled(t, u, Place(n, b), z)
    requires Value(t, Place(n, b)) == Value(s, Place(n, b)) && (Value(s, Place(n, b)) != 0 ==> t == s)
    ensures Created(s, u, n, b, z)
  {
    PlaceIsSlot(|s.inodes|, n, b);
    FilledGrows(t, u, Place(n, b), z, n, b);
    GrownTwice(s, t, u, n, b);
    if Value(s, Place(n, b)) == 0 && z != 0 {
      FreeBefore(s, t, n, b, z);
    }
    if z == 0 {
      FullStays(t, u);
    }
  }

  lemma FreeBefore(s: Fs, t: Fs, n: int, b: int, z: nat)
    requires Grown(s, t, n, b) && Free(t, z)
    ensures Free(s, z)
  {
  }

  lemma FullStays(s: Fs, t: Fs)
    requires Full(s) && BitsBut(s, t, -1, true)
    ensures Full(t)
  {
  }

  /** An index block on the way could not be had. */
  lemma CreatedShort(s: Fs, t: Fs, u: Fs, n: int, b: int, x: Slot)
    requires Inv(s) && IsBlock(|s.inodes|, n, b) && Grown(s, t, n, b) && IsSlot(|s.inodes|, x)
    requires OnPath(x, n, b) && Filled(t, u, x, 0) && Value(u, Place(n, b)) == 0 && Value(s, Place(n, b)) == 0
    ensures Created(s, u, n, b, 0)
  {
    FilledGrows(t, u, x, 0, n, b);
    GrownTwice(s, t, u, n, b);
    FullStays(t, u);
  }

  /** minix_new_block's two outcomes, the zone being written at the empty position x. */
  lemma TakenFills(s: Fs, t: Fs, x: Slot, z: nat)
    requires Inv(s) && IsSlot(|s.inodes|, x) && Writable(s, x) && Value(s, x) == 0 && Free(s, z)
    requires HasBit(s.zmap, BitNr(s, z)) && z < |s.data| && t == Take(s, z) && z > 0
    ensures Writable(t, x) && Filled(s, Put(t, x, z), x, z)
  {
    hide Inv;
    TakeKeeps(s, z);
    StaysWritable(s, x, z);
    TakenIsMarked(s, z);
    hide Value, Writable;
    GraftKeeps(t, x, z);
    TakenValues(s, t, Put(t, x, z), x, z);
    TakenBits(s, t, Put(t, x, z), z);
    TakenData(s, x, z);
  }

  lemma TakenIsMarked(s: Fs, z: nat)
    requires Inv(s) && Free(s, z) && HasBit(s.zmap, BitNr(s, z)) && z < |s.data| && BitsBut(s, Take(s, z), z, true)
    ensures IsZone(Take(s, z), z) && InUse(Take(s, z), z)
  {
  }

  lemma StaysWritable(s: Fs, x: Slot, z: nat)
    requires Inv(s) && IsSlot(|s.inodes|, x) && Writable(s, x) && Free(s, z)
    requires HasBit(s.zmap, BitNr(s, z)) && z < |s.data| && SameValues(s, Take(s, z))
    ensures Writable(Take(s, z), x) && Value(Take(s, z), x) == Value(s, x)
  {
  }

  lemma TakenValues(s: Fs, t: Fs, u: Fs, x: Slot, z: nat)
    requires SameValues(s, t) && ValuesBut(t, u, x, z)
    ensures ValuesBut(s, u, x, z)
  {
  }

  lemma TakenBits(s: Fs, t: Fs, u: Fs, z: nat)
    requires BitsBut(s, t, z, true) && BitsBut(t, u, -1, true)
    ensures BitsBut(s, u, z, true)
  {
  }

  lemma TakenData(s: Fs, x: Slot, z: nat)
    requires Inv(s) && IsSlot(|s.inodes|, x) && Free(s, z) && z > 0
    requires HasBit(s.zmap, BitNr(s, z)) && z < |s.data| && Writable(Take(s, z), x) && SameValues(s, Take(s, z))
    ensures |Put(Take(s, z), x, z).data| == |s.data| && Put(Take(s, z), x, z).data[z] == Zeros()
    ensures KeepsOtherData(s, Put(Take(s, z), x, z), x, z)
  {
    FreeIsUnnamed(s, z);
    if !x.Direct? {
      assert IsSlot(|s.inodes|, Parent(x));
    }
  }

  /** Nothing was free: only spare bits differ. */
  lemma NoneFills(s: Fs, t: Fs, x: Slot)
    requires Inv(s) && Inv(t) && IsSlot(|s.inodes|, x) && Value(s, x) == 0 && Full(s)
    requires t.data == s.data && t.inodes == s.inodes && BitsBut(s, t, -1, true)
    ensures Filled(s, t, x, 0)
  {
    forall y | IsSlot(|s.inodes|, y) ensures Value(t, y) == Value(s, y) {
      SameData(s, t, y);
    }
  }

  lemma {:induction false} SameData(s: Fs, t: Fs, y: Slot)
    requires t.data == s.data && t.inodes == s.inodes
    ensures Value(t, y) == Value(s, y)
    decreases Depth(y)
  {
    if !y.Direct? { SameData(s, t, Parent(y)); }
  }

  lemma HasFilled(s: Fs, x: Slot)
    requires Inv(s) && IsSlot(|s.inodes|, x) && Value(s, x) != 0
    ensures Filled(s, s, x, Value(s, x))
  {
  }
}

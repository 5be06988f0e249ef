/** Giving a position a fresh zone and taking its zone away. */
module ZoneOps {
  import opened ZoneModel
  import opened ZoneSteps

  predicate Free(s: Fs, z: int) {
    IsZone(s, z) && z >= 0 && !InUse(s, z)
  }

  lemma FreeIsUnnamed(s: Fs, z: nat)
    requires Inv(s) && Free(s, z)
    ensures Unnamed(s, z)
  {
  }

  /** minix_new_block's effect: the zone is marked and its block cleared. */
  function Take(s: Fs, z: nat): Fs
    requires HasBit(s.zmap, BitNr(s, z)) && z < |s.data|
  {
    Clear(SetBit(s, z, true), z)
  }

  ghost predicate SameValues(s: Fs, s': Fs) {
    |s'.inodes| == |s.inodes| && forall x :: IsSlot(|s.inodes|, x) ==> Value(s', x) == Value(s, x)
  }

  /** The bits are those of s, but for zone z, which is marked or not. */
  ghost predicate BitsBut(s: Fs, s': Fs, z: int, on: bool) {
    s'.first == s.first && s'.zones == s.zones &&
    forall w: nat :: IsZone(s, w) ==> (InUse(s', w) <==> if w == z then on else InUse(s, w))
  }

  lemma ShapeAfterBit(s: Fs, z: nat, on: bool)
    requires Shape(s) && HasBit(s.zmap, BitNr(s, z)) && BitNr(s, z) != 0
    ensures Shape(SetBit(s, z, on)) && BitsBut(s, SetBit(s, z, on), z, on)
  {
    var s' := SetBit(s, z, on);
    forall w: nat | IsZone(s, w)
      ensures HasBit(s'.zmap, BitNr(s', w)) && (InUse(s', w) <==> if w == z then on else InUse(s, w))
    {
      SetBitMarked(s, z, on, BitNr(s, w));
    }
    SetBitMarked(s, z, on, 0);
  }

  /** Shape and marks are a matter of the bitmap and of the sizes. */
  lemma ShapeSame(s: Fs, s': Fs)
    requires Shape(s) && s'.first == s.first && s'.zones == s.zones && s'.zmap == s.zmap
    requires |s'.data| == |s.data| && forall z :: 0 <= z < |s'.data| ==> |s'.data[z]| == PER_BLOCK
    requires |s'.inodes| == |s.inodes| && forall n :: 0 <= n < |s'.inodes| ==> |s'.inodes[n]| == 9
    ensures Shape(s') && BitsBut(s, s', -1, true)
  {
    forall z: nat | IsZone(s', z) ensures HasBit(s'.zmap, BitNr(s', z)) {
      assert IsZone(s, z) && BitNr(s, z) == BitNr(s', z);
    }
  }

  lemma TakeKeeps(s: Fs, z: nat)
    requires Inv(s) && Free(s, z)
    ensures HasBit(s.zmap, BitNr(s, z)) && z < |s.data| && Inv(Take(s, z)) && SameValues(s, Take(s, z))
    ensures BitsBut(s, Take(s, z), z, true) && Unnamed(Take(s, z), z) && Take(s, z).data == s.data[z := Zeros()]
  {
    FreeIsUnnamed(s, z);
    ShapeAfterBit(s, z, true);
    var s1, s' := SetBit(s, z, true), Take(s, z);
    ShapeSame(s1, s');
    forall x | IsSlot(|s.inodes|, x) ensures Value(s', x) == Value(s, x) && Value(s1, x) == Value(s, x) {
      SetBitValue(s, z, true, x);
      assert Unnamed(s1, z) by {
        forall y | IsSlot(|s.inodes|, y) ensures Value(s1, y) != z { SetBitValue(s, z, true, y); }
      }
      ClearValue(s1, z, x);
    }
    forall x | IsSlot(|s'.inodes|, x) ensures SlotOk(s', x) {
      assert SlotOk(s, x);
    }
    forall x, y | IsSlot(|s'.inodes|, x) && IsSlot(|s'.inodes|, y) ensures Apart(s', x, y) {
      assert Apart(s, x, y);
    }
  }

  /** Every position but x names what it named. */
  ghost predicate ValuesBut(s: Fs, s': Fs, x: Slot, z: nat) {
    |s'.inodes| == |s.inodes| && forall y :: IsSlot(|s.inodes|, y) ==> Value(s', y) == if y == x then z else Value(s, y)
  }

  lemma PutShape(s: Fs, x: Slot, z: nat)
    requires Shape(s) && Writable(s, x)
    ensures Shape(Put(s, x, z)) && BitsBut(s, Put(s, x, z), -1, true)
  {
    ShapeSame(s, Put(s, x, z));
  }

  /** Position x, so far empty, receives the fresh zone z. */
  lemma GraftKeeps(s: Fs, x: Slot, z: nat)
    requires Inv(s) && IsSlot(|s.inodes|, x) && Writable(s, x) && Value(s, x) == 0
    requires IsZone(s, z) && InUse(s, z) && Unnamed(s, z) && s.data[z] == Zeros()
    ensures Inv(Put(s, x, z)) && ValuesBut(s, Put(s, x, z), x, z) && BitsBut(s, Put(s, x, z), -1, true)
  {
    var s' := Put(s, x, z);
    assert AllApart(s);
    assert MayPut(s, x, z);
    forall y | IsSlot(|s.inodes|, y) ensures Value(s', y) == if y == x then z else Value(s, y) {
      PutValue(s, x, z, y);
    }
    PutShape(s, x, z);
    PutInv(s, s', x, z);
  }

  lemma PutInv(s: Fs, s': Fs, x: Slot, z: nat)
    requires Inv(s) && Shape(s') && ValuesBut(s, s', x, z) && IsSlot(|s.inodes|, x)
    requires z != 0 ==> IsZone(s, z) && InUse(s, z) && Unnamed(s, z)
    requires BitsBut(s, s', -1, true)
    ensures Inv(s')
  {
    forall y | IsSlot(|s'.inodes|, y) ensures SlotOk(s', y) {
      assert SlotOk(s, y);
    }
    forall y, w | IsSlot(|s'.inodes|, y) && IsSlot(|s'.inodes|, w) ensures Apart(s', y, w) {
      assert Apart(s, y, w);
    }
  }

  /** minix_free_block of the zone at x, and x cleared. */
  function Prune(s: Fs, x: Slot): Fs
    requires HasBit(s.zmap, BitNr(s, Value(s, x))) && Writable(SetBit(s, Value(s, x), false), x)
  {
    Put(SetBit(s, Value(s, x), false), x, 0)
  }

  ghost predicate Bare(s: Fs, x: Slot) {
    forall y :: IsSlot(|s.inodes|, y) && !y.Direct? && Parent(y) == x ==> Value(s, y) == 0
  }

  lemma PruneKeeps(s: Fs, x: Slot)
    requires Inv(s) && IsSlot(|s.inodes|, x) && Value(s, x) != 0 && Bare(s, x)
    ensures IsZone(s, Value(s, x)) && InUse(s, Value(s, x))
    ensures HasBit(s.zmap, BitNr(s, Value(s, x))) && Writable(SetBit(s, Value(s, x), false), x)
    ensures Inv(Prune(s, x)) && ValuesBut(s, Prune(s, x), x, 0) && BitsBut(s, Prune(s, x), Value(s, x), false)
  {
    hide Inv, Shape, Value, SetBit, Put;
    NamedOk(s, x);
    var z := Value(s, x);
    ShapeAfterBit(s, z, false);
    var s1 := SetBit(s, z, false);
    SetBitSame(s, z, false);
    WritableIfNamed(s, s1, x);
    PruneValues(s, s1, x);
    PutShape(s1, x, 0);
    PruneInv(s, Prune(s, x), x, z);
  }

  lemma NamedOk(s: Fs, x: Slot)
    requires Inv(s) && IsSlot(|s.inodes|, x) && Value(s, x) != 0
    ensures Shape(s) && IsZone(s, Value(s, x)) && InUse(s, Value(s, x))
  {
  }

  lemma SetBitSame(s: Fs, z: nat, on: bool)
    requires HasBit(s.zmap, BitNr(s, z))
    ensures SameValues(s, SetBit(s, z, on)) && SetBit(s, z, on).data == s.data && SetBit(s, z, on).inodes == s.inodes
  {
    forall x | IsSlot(|s.inodes|, x) ensures Value(SetBit(s, z, on), x) == Value(s, x) {
      SetBitValue(s, z, on, x);
    }
  }

  lemma WritableIfNamed(s: Fs, s1: Fs, x: Slot)
    requires Inv(s) && IsSlot(|s.inodes|, x) && Value(s, x) != 0
    requires SameValues(s, s1) && s1.data == s.data && s1.inodes == s.inodes
    ensures Writable(s1, x)
  {
  }

  lemma PruneValues(s: Fs, s1: Fs, x: Slot)
    requires Inv(s) && IsSlot(|s.inodes|, x) && Bare(s, x) && SameValues(s, s1) && Writable(s1, x)
    ensures ValuesBut(s, Put(s1, x, 0), x, 0)
  {
    assert AllApart(s1) by {
      forall y, w | IsSlot(|s.inodes|, y) && IsSlot(|s.inodes|, w) ensures Apart(s1, y, w) {
        assert Apart(s, y, w);
      }
    }
    assert MayPut(s1, x, 0);
    forall y | IsSlot(|s.inodes|, y) ensures Value(Put(s1, x, 0), y) == if y == x then 0 else Value(s, y) {
      PutValue(s1, x, 0, y);
    }
  }

  lemma PruneInv(s: Fs, s': Fs, x: Slot, z: nat)
    requires Inv(s) && Shape(s') && ValuesBut(s, s', x, 0) && IsSlot(|s.inodes|, x) && z == Value(s, x) && z != 0
    requires BitsBut(s, s', z, false)
    ensures Inv(s')
  {
    forall y | IsSlot(|s'.inodes|, y) ensures SlotOk(s', y) {
      assert SlotOk(s, y) && Apart(s, x, y);
    }
    forall y, w | IsSlot(|s'.inodes|, y) && IsSlot(|s'.inodes|, w) ensures Apart(s', y, w) {
      assert Apart(s, y, w);
    }
  }
}

/** Marking a zone, writing one zone number, clearing one: what each does to every position of every file. */
module ZoneSteps {
  import opened ZoneModel

  function Zeros(): (w: Words)
    ensures |w| == PER_BLOCK && forall j :: 0 <= j < PER_BLOCK ==> w[j] == 0
  {
    seq(PER_BLOCK, _ => 0)
  }

  // ---------------------------------------------------------------- writing one zone number

  /** The block or inode that holds position x exists. */
  predicate Writable(s: Fs, x: Slot) {
    if x.Direct? then 0 <= x.n < |s.inodes| && 0 <= x.k < |s.inodes[x.n]|
    else 0 < Value(s, Parent(x)) < |s.data| && 0 <= Index(x) < |s.data[Value(s, Parent(x))]|
  }

  function Put(s: Fs, x: Slot, z: nat): Fs
    requires Writable(s, x)
  {
    if x.Direct? then
      var row: Words := s.inodes[x.n][x.k := z];
      s.(inodes := s.inodes[x.n := row])
    else
      var p := Value(s, Parent(x));
      var row: Words := s.data[p][Index(x) := z];
      s.(data := s.data[p := row])
  }

  /** Positions are told apart by the block they are in and their place there. */
  lemma SlotIsPlace(x: Slot, y: Slot)
    requires !x.Direct? && !y.Direct? && Parent(x) == Parent(y) && Index(x) == Index(y)
    ensures x == y
  {
  }

  ghost predicate Unnamed(s: Fs, z: nat) {
    forall x :: IsSlot(|s.inodes|, x) ==> Value(s, x) != z
  }

  /** z may be written at x: no zone, or one nobody names whose block is all zeros; and nothing hangs below x. */
  ghost predicate MayPut(s: Fs, x: Slot, z: nat) {
    Writable(s, x) && IsSlot(|s.inodes|, x) &&
    (z != 0 ==> z < |s.data| && Unnamed(s, z) && s.data[z] == Zeros()) &&
    (forall y :: IsSlot(|s.inodes|, y) && !y.Direct? && Parent(y) == x ==> Value(s, y) == 0)
  }

  ghost predicate AllApart(s: Fs) {
    forall x, y :: IsSlot(|s.inodes|, x) && IsSlot(|s.inodes|, y) ==> Apart(s, x, y)
  }

  /** Writing one zone number changes what stands at that one position. */
  lemma {:induction false} PutValue(s: Fs, x: Slot, z: nat, y: Slot)
    requires AllApart(s) && MayPut(s, x, z) && IsSlot(|s.inodes|, y)
    ensures Value(Put(s, x, z), y) == if y == x then z else Value(s, y)
    decreases Depth(y)
  {
    var s' := Put(s, x, z);
    if !y.Direct? {
      var p := Parent(y);
      PutValue(s, x, z, p);
      if p != x && !x.Direct? {
        var v := Value(s, Parent(x));
        if Value(s, p) == v {
          assert Apart(s, Parent(x), p);
          if y != x && Index(y) == Index(x) {
            SlotIsPlace(x, y);
          }
        }
      }
    }
  }

  // ---------------------------------------------------------------- marking and unmarking

  function SetBit(s: Fs, z: nat, on: bool): Fs
    requires HasBit(s.zmap, BitNr(s, z))
  {
    var k := BitNr(s, z);
    s.(zmap := s.zmap[k / MAP_BITS := s.zmap[k / MAP_BITS][k % MAP_BITS := on]])
  }

  lemma SetBitMarked(s: Fs, z: nat, on: bool, k: int)
    requires HasBit(s.zmap, BitNr(s, z))
    ensures HasBit(SetBit(s, z, on).zmap, k) == HasBit(s.zmap, k)
    ensures Marked(SetBit(s, z, on).zmap, k) == if k == BitNr(s, z) then on else Marked(s.zmap, k)
  {
  }

  lemma {:induction false} SetBitValue(s: Fs, z: nat, on: bool, x: Slot)
    requires HasBit(s.zmap, BitNr(s, z))
    ensures Value(SetBit(s, z, on), x) == Value(s, x)
    decreases Depth(x)
  {
    if !x.Direct? {
      SetBitValue(s, z, on, Parent(x));
    }
  }

  /** clear_block. */
  function Clear(s: Fs, z: nat): Fs
    requires z < |s.data|
  {
    s.(data := s.data[z := Zeros()])
  }

  lemma {:induction false} ClearValue(s: Fs, z: nat, x: Slot)
    requires 0 < z < |s.data| && IsSlot(|s.inodes|, x) && Unnamed(s, z)
    ensures Value(Clear(s, z), x) == Value(s, x)
    decreases Depth(x)
  {
    if !x.Direct? {
      ClearValue(s, z, Parent(x));
      assert Value(s, Parent(x)) != z;
    }
  }
}

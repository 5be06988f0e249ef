/** Zone allocation, block mapping and truncation of a mounted Minix file system (fs/minix/bitmap.c,
    fs/minix/inode.c, fs/minix/truncate.c). */
module MinixZones {
  import opened ZoneModel
  import opened ZoneSteps
  import opened ZoneOps
  import opened ZoneGrowth
  import opened ZoneSweep
  import opened ZoneLaws

  const WORD_BITS: nat := 32

  /** find_first_zero: word by word, then within the word; MAP_BITS when every bit is set. */
  method FindFirstZero(bits: seq<bool>) returns (j: nat)
    requires |bits| == MAP_BITS
    ensures j <= MAP_BITS && (j < MAP_BITS ==> !bits[j])
    ensures forall i :: 0 <= i < j ==> bits[i]
  {
    j := 0;
    while j < MAP_BITS
      invariant j <= MAP_BITS && j % WORD_BITS == 0
      invariant forall i :: 0 <= i < j ==> bits[i]
    {
      var bit := 0;
      while bit < WORD_BITS && bits[j + bit]
        invariant bit <= WORD_BITS
        invariant forall i :: 0 <= i < j + bit ==> bits[i]
      {
        bit := bit + 1;
      }
      if bit < WORD_BITS {
        return j + bit;
      }
      j := j + WORD_BITS;
    }
  }

  /** Bit k of the maps, 8192 to a map, became b, and nothing else changed. */
  predicate BitSet(zmap: seq<seq<bool>>, zmap': seq<seq<bool>>, k: int, b: bool) {
    0 <= k < 8192 * |zmap| && |zmap[k / 8192]| == 8192 && zmap' == zmap[k / 8192 := zmap[k / 8192][k % 8192 := b]]
  }

  lemma InodeSize(s: Fs, n: int)
    requires Inv(s) && 0 <= n < |s.inodes|
    ensures |s.inodes[n]| == 9
  {
  }

  lemma MappedIs(s: Fs, s': Fs, n: int, block: int, create: bool, z: nat)
    requires Inv(s) && 0 <= n < |s.inodes| && 0 <= block < MAX_BLOCK
    requires if create then Created(s, s', n, block, z) else s' == s && z == Bmap(s, n, block)
    ensures |s'.inodes| == |s.inodes| && |s'.inodes[n]| == 9 && z == ZoneOf(s'.inodes[n], s'.data, block)
  {
    if create { InodeSize(s', n); }
    BmapIsZone(s', n, block);
  }

  function Mounted(disk: Fs): Fs
    requires |disk.zmap| > 0 && |disk.zmap[0]| > 0
  {
    disk.(zmap := disk.zmap[0 := disk.zmap[0][0 := true]])
  }

  /** A new file system: every zone free and every file empty. */
  function Blank(first: nat, zones: nat, maps: nat, files: nat): Fs {
    Fs(first, zones, seq(maps, _ => seq(MAP_BITS, _ => false)), seq(zones, _ => Zeros()),
       seq(files, _ => seq(9, _ => 0)))
  }

  /** Mounted, it satisfies the invariant, so the invariant can be met. */
  lemma BlankIsSound(first: nat, zones: nat, maps: nat, files: nat)
    requires 0 < first <= zones && 0 < maps <= 8 && zones - first < maps * MAP_BITS
    ensures Inv(Mounted(Blank(first, zones, maps, files)))
  {
  }

  class Volume {
    const first: nat
    const zones: nat
    var zmap: seq<seq<bool>>
    var data: seq<Words>
    var inodes: seq<seq<nat>>
    var warnings: nat          // "bit already cleared" messages

    function Abs(): Fs
      reads `zmap, `data, `inodes
    {
      Fs(first, zones, zmap, data, inodes)
    }

    /** minix_read_super: the bitmaps and the rest of the disk as found, unchecked, the first bit of the zone map
        set. */
    constructor (disk: Fs)
      requires |disk.zmap| > 0 && |disk.zmap[0]| > 0
      ensures Abs() == Mounted(disk) && warnings == 0
    {
      first, zones := disk.first, disk.zones;
      zmap := disk.zmap[0 := disk.zmap[0][0 := true]];
      data, inodes, warnings := disk.data, disk.inodes, 0;
    }

    // ------------------------------------------------------------ the bitmap

    /** minix_new_block. A failing call may mark a bit that stands for no zone. */
    method NewBlock() returns (z: nat)
      requires Inv(Abs())
      modifies `zmap, `data
      ensures Inv(Abs())
      ensures z != 0 ==> Free(old(Abs()), z) && HasBit(old(zmap), BitNr(old(Abs()), z)) && z < |old(data)|
                         && Abs() == Take(old(Abs()), z)
      ensures z != 0 ==> first <= z < zones && BitSet(old(zmap), zmap, z - first + 1, true)
      ensures z != 0 ==> data == old(data)[z := Zeros()]
      ensures z != 0 ==> forall w: nat :: IsZone(old(Abs()), w) && w < z ==> InUse(old(Abs()), w)
      ensures z == 0 ==> Full(old(Abs())) && data == old(data) && BitsBut(old(Abs()), Abs(), -1, true)
    {
      ghost var s := Abs();
      var j, i := MAP_BITS, 0;
      while i < 8
        invariant 0 <= i <= 8 && j == MAP_BITS && Abs() == s
        invariant forall k :: 0 <= k < i * MAP_BITS && HasBit(zmap, k) ==> Marked(zmap, k)
      {
        if i < |zmap| {
          j := FindFirstZero(zmap[i]);
          FirstZero(zmap, i, j);
          if j < MAP_BITS {
            break;
          }
        }
        i := i + 1;
      }
      if i >= 8 || i >= |zmap| || j >= MAP_BITS {
        AllMarked(s, i);
        return 0;
      }
      var b := j + i * MAP_BITS;
      assert b / MAP_BITS == i && b % MAP_BITS == j;
      z := b + first - 1;
      ZoneOfBit(s, b);
      ShapeAfterBit(s, z, true);
      zmap := zmap[i := zmap[i][j := true]];
      assert Abs() == SetBit(s, z, true);
      LowestBit(s, b);
      if z >= zones {
        SpareKeeps(s, z);
        return 0;
      }
      TakeKeeps(s, z);
      data := data[z := Zeros()];
    }

    /** minix_free_block; busy says that another process holds the block's buffer. */
    method FreeBlock(z: nat, busy: bool) returns (freed: bool)
      requires Shape(Abs()) && IsZone(Abs(), z)
      modifies `zmap, `warnings
      ensures freed == !busy
      ensures HasBit(old(zmap), BitNr(old(Abs()), z))
      ensures Abs() == if freed then SetBit(old(Abs()), z, false) else old(Abs())
      ensures freed ==> BitSet(old(zmap), zmap, z - first + 1, false)
      ensures warnings == old(warnings) + if freed && !InUse(old(Abs()), z) then 1 else 0
    {
      if busy {
        return false;
      }
      var b := z - first + 1;
      assert HasBit(zmap, BitNr(Abs(), z));
      if !zmap[b / MAP_BITS][b % MAP_BITS] {
        warnings := warnings + 1;
      }
      zmap := zmap[b / MAP_BITS := zmap[b / MAP_BITS][b % MAP_BITS := false]];
      return true;
    }

    // ------------------------------------------------------------ mapping a block

    /** Zone number k of inode n, given a zone first if it has none and create asks for it. */
    method InodeZone(n: nat, k: nat, create: bool) returns (z: nat)
      requires Inv(Abs()) && n < |inodes| && k < 9
      modifies `zmap, `data, `inodes
      ensures if create then Filled(old(Abs()), Abs(), Direct(n, k), z)
              else Abs() == old(Abs()) && z == Value(Abs(), Direct(n, k))
    {
      ghost var s := Abs();
      ghost var x := Direct(n, k);
      z := inodes[n][k];
      if z != 0 || !create {
        if z != 0 { HasFilled(s, x); }
        return;
      }
      z := NewBlock();
      ghost var t := Abs();
      if z != 0 {
        TakenFills(s, t, x, z);
      } else {
        NoneFills(s, t, x);
      }
      var row: Words := inodes[n][k := z];
      inodes := inodes[n := row];
      if z == 0 {
        assert inodes[n] == t.inodes[n] && inodes == t.inodes;
      }
    }

    /** Zone number j of index block p, which stands at x's parent. */
    method WordZone(p: nat, j: nat, create: bool, ghost x: Slot) returns (z: nat)
      requires Inv(Abs()) && IsSlot(|inodes|, x) && !x.Direct? && Index(x) == j
      requires p == Value(Abs(), Parent(x)) && p != 0
      modifies `zmap, `data
      ensures if create then Filled(old(Abs()), Abs(), x, z)
              else Abs() == old(Abs()) && z == Value(Abs(), x)
    {
      hide Filled;
      ghost var s := Abs();
      assert SlotOk(s, Parent(x));
      z := data[p][j];
      if z != 0 || !create {
        if z != 0 { HasFilled(s, x); }
        return;
      }
      z := NewBlock();
      ghost var t := Abs();
      if z != 0 {
        TakenFills(s, t, x, z);
        TakenParent(s, t, x, z);
        var row: Words := data[p][j := z];
        data := data[p := row];
      } else {
        NoneFills(s, t, x);
      }
    }

    /** _minix_bmap: minix_bmap without create, minix_create_block with it. */
    method MapBlock(n: nat, block: int, create: bool) returns (z: nat)
      requires Inv(Abs()) && n < |inodes|
      modifies `zmap, `data, `inodes
      ensures !create ==> Abs() == old(Abs()) && z == Bmap(old(Abs()), n, block)
      ensures |inodes| == |old(inodes)| && |inodes[n]| == 9 && z == ZoneOf(inodes[n], data, block)
      ensures create && 0 <= block < MAX_BLOCK ==> Created(old(Abs()), Abs(), n, block, z)
      ensures !(0 <= block < MAX_BLOCK) ==> z == 0 && Abs() == old(Abs())
    {
      hide Inv, Shape, Filled, Grown, Created, ZoneOf;
      ghost var s := Abs();
      InodeSize(s, n);
      if block < 0 || block >= MAX_BLOCK {
        BmapIsZone(s, n, block);
        return 0;
      }
      ghost var x := Place(n, block);
      if block < 7 {
        z := InodeZone(n, block, create);
        if create { GrownNot(s, n, block); CreatedLast(s, s, Abs(), n, block, z); }
        MappedIs(s, Abs(), n, block, create, z);
        return;
      }
      var b := block - 7;
      if b < PER_BLOCK {
        z := InodeZone(n, 7, create);
        ghost var t := Abs();
        if create { FirstStep(s, t, n, block, Direct(n, 7), z); GrownInv(s, t, n, block); }
        if z == 0 {
          MappedIs(s, Abs(), n, block, create, 0);
          return 0;
        }
        z := WordZone(z, b, create, x);
        if create { CreatedLast(s, t, Abs(), n, block, z); }
        MappedIs(s, Abs(), n, block, create, z);
        return;
      }
      b := b - PER_BLOCK;
      z := InodeZone(n, 8, create);
      ghost var t := Abs();
      if create { FirstStep(s, t, n, block, Direct(n, 8), z); GrownInv(s, t, n, block); }
      if z == 0 {
        MappedIs(s, Abs(), n, block, create, 0);
        return 0;
      }
      z := WordZone(z, b / PER_BLOCK, create, Parent(x));
      ghost var u := Abs();
      if create { SecondStep(s, t, u, n, block, Parent(x), z); GrownInv(s, u, n, block); }
      if z == 0 {
        MappedIs(s, Abs(), n, block, create, 0);
        return 0;
      }
      z := WordZone(z, b % PER_BLOCK, create, x);
      if create { CreatedLast(s, u, Abs(), n, block, z); }
      MappedIs(s, Abs(), n, block, create, z);
    }

    // ------------------------------------------------------------ truncation

    /** Number j of index block p, if it names a zone: free that zone and clear the number. */
    method FreeWord(p: nat, j: nat, busy: set<nat>, ghost s: Fs, ghost x: Slot, ghost done: iset<Slot>)
      returns (blocked: bool)
      requires Inv(s) && Swept(s, Abs(), x.n, busy, done)
      requires IsSlot(|s.inodes|, x) && IsIndex(x) && !(x == Direct(x.n, 8))
      requires p == Value(s, x) && p != 0 && x !in done && j < PER_BLOCK && Kid(x, j) !in done
      modifies `zmap, `data, `warnings
      ensures Swept(s, Abs(), x.n, busy, done + iset{Kid(x, j)}) && warnings == old(warnings)
      ensures blocked == Held(s, busy, Kid(x, j))
    {
      hide Inv, Shape, Swept, Held, Value, Prune;
      ghost var t := Abs();
      ghost var y := Kid(x, j);
      HeldLeaf(s, busy, y);
      SweptAt(s, t, x.n, busy, done, x);
      SweptAt(s, t, x.n, busy, done, y);
      WordIsValue(t, y, x);
      var z := data[p][j];
      if z == 0 {
        SweepSkip(s, t, x.n, busy, done, done + iset{y});
        return false;
      }
      HeldLeaf(t, busy, y);
      NamedOk(t, y);
      var freed := FreeBlock(z, z in busy);
      if freed {
        SweepOne(s, t, x.n, busy, done, y);
        PrunedWord(t, y, x);
        var row: Words := data[p][j := 0];
        data := data[p := row];
        assert Abs() == Prune(t, y);
      } else {
        SweepSkip(s, t, x.n, busy, done, done + iset{y});
      }
      return !freed;
    }

    /** minix_free_ind on the zone p named at x. Its caller clears the name. */
    method FreeInd(p: nat, busy: set<nat>, ghost s: Fs, ghost x: Slot, ghost done: iset<Slot>)
      returns (ok: bool, ghost t: Fs)
      requires Inv(s) && Swept(s, Abs(), x.n, busy, done)
      requires IsSlot(|s.inodes|, x) && IsIndex(x) && !(x == Direct(x.n, 8))
      requires p == Value(s, x) && x !in done && forall y :: ChildOf(y, x) ==> y !in done
      modifies `zmap, `data, `warnings
      ensures ok == !Held(s, busy, x) && warnings == old(warnings)
      ensures Swept(s, t, x.n, busy, done + Kids(x, PER_BLOCK))
      ensures Unnaming(t, Abs(), x, p, ok)
    {
      hide Inv, Shape, Swept, Held, Value;
      if p == 0 {
        NoKids(s, Abs(), x.n, busy, done, x);
        return true, Abs();
      }
      var j, blocked := 0, false;
      assert done + Kids(x, 0) == done;
      while j < PER_BLOCK
        invariant 0 <= j <= PER_BLOCK && warnings == old(warnings)
        invariant Swept(s, Abs(), x.n, busy, done + Kids(x, j))
        invariant blocked == KidHeld(s, busy, x, j)
      {
        KidsNext(x, j);
        var b := FreeWord(p, j, busy, s, x, done + Kids(x, j));
        KidHeldNext(s, busy, x, j);
        assert done + Kids(x, j + 1) == done + Kids(x, j) + iset{Kid(x, j)};
        blocked := blocked || b;
        j := j + 1;
      }
      t := Abs();
      ok := FreeIndex(p, blocked, busy, s, x, done + Kids(x, PER_BLOCK));
    }

    /** The end of minix_free_ind and minix_free_dind: the index block itself, unless something under it stays. */
    method FreeIndex(p: nat, blocked: bool, busy: set<nat>, ghost s: Fs, ghost x: Slot, ghost done: iset<Slot>)
      returns (ok: bool)
      requires Inv(s) && Swept(s, Abs(), x.n, busy, done) && IsSlot(|s.inodes|, x) && IsIndex(x)
      requires p == Value(s, x) && p != 0 && x !in done
      requires (forall y :: IsSlot(|s.inodes|, y) && ChildOf(y, x) ==> y in done)
      requires blocked == KidHeld(s, busy, x, PER_BLOCK)
      modifies `zmap, `warnings
      ensures ok == !Held(s, busy, x) && warnings == old(warnings)
      ensures Unnaming(old(Abs()), Abs(), x, p, ok)
    {
      hide Inv, Shape, Swept, Held, Value;
      HeldIndex(s, busy, x);
      if blocked {
        return false;
      }
      ghost var t := Abs();
      SweptAt(s, t, x.n, busy, done, x);
      NamedOk(t, x);
      ok := FreeBlock(p, p in busy);
      if ok {
        NothingBelow(s, t, x.n, busy, done, x);
      }
    }

    /** Number a of the double indirect block p: the index block it names, with all under it. */
    method FreeBranch(p: nat, a: nat, busy: set<nat>, ghost s: Fs, ghost n: nat, ghost done: iset<Slot>)
      returns (blocked: bool)
      requires Inv(s) && n < |s.inodes| && a < PER_BLOCK && Swept(s, Abs(), n, busy, done + Under(n, a))
      requires p == Value(s, Direct(n, 8)) && p != 0 && Early(n, done)
      modifies `zmap, `data, `warnings
      ensures Swept(s, Abs(), n, busy, done + Under(n, a + 1)) && warnings == old(warnings)
      ensures blocked == Held(s, busy, Dind(n, a))
    {
      hide Inv, Shape, Swept, Held, Value, Prune;
      ghost var x, y := Direct(n, 8), Dind(n, a);
      UnderNext(n, a);
      ghost var reg := done + Under(n, a);
      ghost var below := reg + Kids(y, PER_BLOCK);
      assert done + Under(n, a + 1) == below + iset{y};
      SweptAt(s, Abs(), n, busy, reg, x);
      SweptAt(s, Abs(), n, busy, reg, y);
      WordIsValue(Abs(), y, x);
      var z := data[p][a];
      if z == 0 {
        NoKids(s, Abs(), n, busy, reg, y);
        SweepSkip(s, Abs(), n, busy, below, below + iset{y});
        return false;
      }
      var ok;
      ghost var t;
      ok, t := FreeInd(z, busy, s, y, reg);
      SweptAt(s, t, n, busy, below, x);
      SweptAt(s, t, n, busy, below, y);
      if ok {
        SweepOne(s, t, n, busy, below, y);
        PrunedWord(t, y, x);
        var row: Words := data[p][a := 0];
        data := data[p := row];
        assert Abs() == Prune(t, y);
      } else {
        SweepSkip(s, t, n, busy, below, below + iset{y});
      }
      return !ok;
    }

    /** minix_free_dind on the zone p named by the last number of inode n. */
    method FreeDind(p: nat, busy: set<nat>, ghost s: Fs, ghost n: nat, ghost done: iset<Slot>)
      returns (ok: bool, ghost t: Fs)
      requires Inv(s) && n < |s.inodes| && Swept(s, Abs(), n, busy, done)
      requires p == Value(s, Direct(n, 8)) && Early(n, done)
      modifies `zmap, `data, `warnings
      ensures ok == !Held(s, busy, Direct(n, 8)) && warnings == old(warnings)
      ensures Swept(s, t, n, busy, done + Under(n, PER_BLOCK))
      ensures Unnaming(t, Abs(), Direct(n, 8), p, ok)
    {
      hide Inv, Shape, Swept, Held, Value;
      ghost var x := Direct(n, 8);
      if p == 0 {
        NoneUnder(s, Abs(), n, busy, done);
        return true, Abs();
      }
      var a, blocked := 0, false;
      assert done + Under(n, 0) == done;
      while a < PER_BLOCK
        invariant 0 <= a <= PER_BLOCK && warnings == old(warnings)
        invariant Swept(s, Abs(), n, busy, done + Under(n, a))
        invariant blocked == KidHeld(s, busy, x, a)
      {
        var b := FreeBranch(p, a, busy, s, n, done);
        KidHeldNext(s, busy, x, a);
        blocked := blocked || b;
        a := a + 1;
      }
      t := Abs();
      ok := FreeIndex(p, blocked, busy, s, x, done + Under(n, PER_BLOCK));
    }

    /** Number i < 7 of the inode. */
    method FreeOwn(n: nat, i: nat, busy: set<nat>, ghost s: Fs) returns (blocked: bool)
      requires Inv(s) && n < |s.inodes| && i < 7 && Swept(s, Abs(), n, busy, Own(n, i))
      modifies `zmap, `inodes, `warnings
      ensures Swept(s, Abs(), n, busy, Own(n, i + 1)) && warnings == old(warnings)
      ensures blocked == Held(s, busy, Direct(n, i))
    {
      hide Inv, Swept, Held, Prune;
      ghost var t, x := Abs(), Direct(n, i);
      OwnNext(n, i);
      HeldLeaf(s, busy, x);
      SweptAt(s, t, n, busy, Own(n, i), x);
      if inodes[n][i] == 0 {
        SweepSkip(s, t, n, busy, Own(n, i), Own(n, i + 1));
        return false;
      }
      var z := inodes[n][i];
      HeldLeaf(t, busy, x);
      NamedOk(t, x);
      var freed := FreeBlock(z, z in busy);
      if freed {
        SweepOne(s, t, n, busy, Own(n, i), x);
        ClearOwn(n, i, t);
      } else {
        SweepSkip(s, t, n, busy, Own(n, i), Own(n, i + 1));
      }
      return !freed;
    }

    /** The name of a zone that has just lost its mark is cleared. */
    method ClearOwn(n: nat, k: nat, ghost t: Fs)
      requires Shape(t) && n < |t.inodes| && k < 9 && Value(t, Direct(n, k)) != 0
      requires HasBit(t.zmap, BitNr(t, Value(t, Direct(n, k)))) && Abs() == SetBit(t, Value(t, Direct(n, k)), false)
      modifies `inodes
      ensures Writable(SetBit(t, Value(t, Direct(n, k)), false), Direct(n, k)) && Abs() == Prune(t, Direct(n, k))
    {
      var row: Words := inodes[n][k := 0];
      inodes := inodes[n := row];
    }

    /** After minix_free_ind or minix_free_dind at number k of the inode. */
    method Finish(n: nat, k: nat, ok: bool, busy: set<nat>, ghost s: Fs, ghost t: Fs, ghost done: iset<Slot>)
      requires Inv(s) && n < |s.inodes| && 7 <= k < 9 && Swept(s, t, n, busy, done) && Direct(n, k) !in done
      requires Unnaming(t, Abs(), Direct(n, k), Value(s, Direct(n, k)), ok) && ok == !Held(s, busy, Direct(n, k))
      modifies `inodes
      ensures Swept(s, Abs(), n, busy, done + iset{Direct(n, k)})
    {
      hide Inv, Swept, Held, Prune;
      ghost var x := Direct(n, k);
      SweptAt(s, t, n, busy, done, x);
      if ok {
        if inodes[n][k] != 0 {
          SweepOne(s, t, n, busy, done, x);
          ClearOwn(n, k, t);
          return;
        }
      }
      SweepSkip(s, t, n, busy, done, done + iset{x});
    }

    /** One round of minix_truncate, the buffers of the zones `busy` being held by others all along. */
    method TruncateRound(n: nat, busy: set<nat>) returns (ok: bool)
      requires Inv(Abs()) && n < |inodes|
      modifies `zmap, `data, `inodes, `warnings
      ensures Swept(old(Abs()), Abs(), n, busy, All(n)) && warnings == old(warnings)
      ensures ok == !OwnHeld(old(Abs()), busy, n, 9)
      ensures ok <==> Idle(old(Abs()), n, busy)
      ensures forall w: nat :: IsZone(old(Abs()), w) && w in busy ==> (InUse(Abs(), w) <==> InUse(old(Abs()), w))
    {
      hide Inv, Shape, Swept, Held, Value;
      ghost var s := Abs();
      SweptNone(s, n, busy);
      assert Own(n, 0) == iset{};
      var i := 0;
      ok := true;
      while i < 7
        invariant 0 <= i <= 7 && warnings == old(warnings)
        invariant Swept(s, Abs(), n, busy, Own(n, i)) && ok == !OwnHeld(s, busy, n, i)
      {
        var b := FreeOwn(n, i, busy, s);
        OwnHeldNext(s, busy, n, i);
        ok := ok && !b;
        i := i + 1;
      }
      var freed;
      ghost var t, done;
      done := Own(n, 7);
      ReadOwn(s, Abs(), n, busy, done, 7);
      freed, t := FreeInd(inodes[n][7], busy, s, Direct(n, 7), done);
      done := done + Kids(Direct(n, 7), PER_BLOCK);
      Finish(n, 7, freed, busy, s, t, done);
      done := done + iset{Direct(n, 7)};
      OwnHeldNext(s, busy, n, 7);
      ok := ok && freed;
      ReadOwn(s, Abs(), n, busy, done, 8);
      freed, t := FreeDind(inodes[n][8], busy, s, n, done);
      done := done + Under(n, PER_BLOCK);
      Finish(n, 8, freed, busy, s, t, done);
      OwnHeldNext(s, busy, n, 8);
      ok := ok && freed;
      VisitedAll(s, Abs(), n, busy);
      RoundMeans(s, Abs(), n, busy);
    }

    /** minix_truncate of file n: rounds until one finds nothing busy, with the acts of others between them as given.
        done is false when the given rounds were not enough; a round whose busy zones are none of those the file had
        at the start is always enough. Without other acts nothing but file n has changed. */
    method Truncate(n: nat, acts: seq<Act>) returns (done: bool, ghost trace: seq<Fs>)
      requires Inv(Abs()) && n < |inodes|
      modifies `zmap, `data, `inodes, `warnings
      ensures 1 <= |trace| <= |acts| + 1 && trace[0] == old(Abs()) && trace[|trace| - 1] == Abs()
      ensures forall k :: 0 <= k < |trace| - 1 ==> Acted(trace[k], trace[k + 1], n, acts[k])
      ensures Shrunk(old(Abs()), Abs(), n) && warnings == old(warnings)
      ensures if done then Empty(Abs(), n) else |trace| == |acts| + 1
      ensures (exists r :: 0 <= r < |acts| && acts[r].Round? && Idle(old(Abs()), n, acts[r].busy)) ==> done
      ensures (forall r :: 0 <= r < |acts| ==> acts[r].Round?) ==> Trimmed(old(Abs()), Abs(), n)
    {
      hide Inv, Shape, Swept, Held, Value, Trimmed, Idle, Empty, Shrunk, Acted;
      ghost var s := Abs();
      TrimmedNot(s, n);
      ShrunkNot(s, n);
      trace := [s];
      var r := 0;
      while r < |acts|
        invariant 0 <= r <= |acts| && warnings == old(warnings) && n < |inodes| && Inv(Abs()) && Shrunk(s, Abs(), n)
        invariant |trace| == r + 1 && trace[0] == s && trace[r] == Abs()
        invariant forall k :: 0 <= k < r ==> Acted(trace[k], trace[k + 1], n, acts[k])
        invariant forall k :: 0 <= k < r && acts[k].Round? ==> !Idle(s, n, acts[k].busy)
        invariant (forall k :: 0 <= k < r ==> acts[k].Round?) ==> Trimmed(s, Abs(), n)
      {
        ghost var t := Abs();
        if acts[r].Round? {
          done := TruncateRound(n, acts[r].busy);
          RoundActs(s, t, Abs(), n, acts[r].busy);
        } else {
          OtherAct(n, acts[r]);
          done := false;
        }
        ActShrinks(s, t, Abs(), n, acts[r]);
        ShrunkInv(s, Abs(), n);
        trace := trace + [Abs()];
        if done {
          return;
        }
        r := r + 1;
      }
      done := false;
    }

    /** Another process's act on another file. */
    method OtherAct(n: nat, a: Act)
      requires Inv(Abs()) && n < |inodes| && !a.Round?
      modifies `zmap, `data, `inodes, `warnings
      ensures Acted(old(Abs()), Abs(), n, a) && warnings == old(warnings)
    {
      hide Inv, Swept, Created, Grown;
      match a
      case Create(m, block) =>
        if m != n && m < |inodes| && 0 <= block < MAX_BLOCK {
          var z := MapBlock(m, block, true);
          CreatedGrows(old(Abs()), Abs(), m, block, z);
        }
      case Other(m, busy) =>
        if m != n && m < |inodes| {
          var ok := TruncateRound(m, busy);
        }
    }
  }

  lemma CreatedGrows(s: Fs, t: Fs, n: nat, block: int, z: nat)
    requires Created(s, t, n, block, z)
    ensures Grown(s, t, n, block)
  {
  }

  lemma ShrunkInv(s: Fs, t: Fs, n: nat)
    requires Shrunk(s, t, n)
    ensures Inv(t) && |t.inodes| == |s.inodes|
  {
  }

  /** One round of the truncation itself. */
  lemma RoundActs(s: Fs, t: Fs, u: Fs, n: nat, busy: set<nat>)
    requires Inv(s) && Inv(t) && n < |t.inodes| && Shrunk(s, t, n) && Swept(t, u, n, busy, All(n))
    ensures Acted(t, u, n, Round(busy))
    ensures !OwnHeld(t, busy, n, 9) ==> Empty(u, n)
    ensures Idle(s, n, busy) ==> !OwnHeld(t, busy, n, 9)
    ensures Trimmed(s, t, n) ==> Trimmed(s, u, n)
  {
    SweptTrims(t, u, n, busy);
    hide Value, Held, Swept, Trimmed;
    if Trimmed(s, t, n) { TrimmedTwice(s, t, u, n); }
    if !OwnHeld(t, busy, n, 9) {
      RoundEmpties(t, u, n, busy);
    }
    if Idle(s, n, busy) {
      IdleLater(s, t, n, busy);
      forall k | 0 <= k < 9 ensures !Held(t, busy, Direct(n, k)) {
        IdleNotHeld(t, n, busy, Direct(n, k));
      }
    }
  }

  lemma ReadOwn(s: Fs, t: Fs, n: nat, busy: set<nat>, done: iset<Slot>, k: nat)
    requires Swept(s, t, n, busy, done) && n < |s.inodes| && k < 9 && Direct(n, k) !in done
    ensures n < |t.inodes| && |t.inodes[n]| == 9 && t.inodes[n][k] == Value(s, Direct(n, k))
  {
  }

  lemma NoneUnder(s: Fs, t: Fs, n: nat, busy: set<nat>, done: iset<Slot>)
    requires Swept(s, t, n, busy, done) && Value(s, Direct(n, 8)) == 0
    ensures Swept(s, t, n, busy, done + Under(n, PER_BLOCK)) && !Held(s, busy, Direct(n, 8))
  {
  }

  // ------------------------------------------------------------ positions during a round

  /** From t, the zone p at x has lost its mark but is still named there; or, not freed, nothing happened. */
  ghost predicate Unnaming(t: Fs, u: Fs, x: Slot, p: nat, freed: bool) {
    if freed && p != 0 then HasBit(t.zmap, BitNr(t, p)) && u == SetBit(t, p, false) && Bare(t, x) else u == t
  }

  /** Positions visited before the double indirect ones. */
  ghost predicate Early(n: int, done: iset<Slot>) {
    forall y :: y in done ==> y.n == n && (y.Ind? || (y.Direct? && y.k < 8))
  }

  lemma SweptAt(s: Fs, t: Fs, n: int, busy: set<nat>, done: iset<Slot>, x: Slot)
    requires Swept(s, t, n, busy, done) && IsSlot(|s.inodes|, x) && x !in done
    ensures Inv(t) && Shape(t) && IsSlot(|t.inodes|, x) && Value(t, x) == Value(s, x)
  {
  }

  lemma WordIsValue(t: Fs, y: Slot, x: Slot)
    requires Inv(t) && IsSlot(|t.inodes|, y) && ChildOf(y, x) && IsSlot(|t.inodes|, x) && Value(t, x) != 0
    ensures 0 < Value(t, x) < |t.data| && |t.data[Value(t, x)]| == PER_BLOCK && 0 <= Index(y) < PER_BLOCK
    ensures Value(t, y) == t.data[Value(t, x)][Index(y)]
  {
  }

  lemma PrunedWord(t: Fs, y: Slot, x: Slot)
    requires Inv(t) && IsSlot(|t.inodes|, y) && ChildOf(y, x) && IsSlot(|t.inodes|, x) && Value(t, x) != 0
    requires HasBit(t.zmap, BitNr(t, Value(t, y))) && Writable(SetBit(t, Value(t, y), false), y)
    ensures 0 < Value(t, x) < |t.data| && |t.data[Value(t, x)]| == PER_BLOCK && 0 <= Index(y) < PER_BLOCK
    ensures Prune(t, y).inodes == t.inodes && Prune(t, y).zmap == SetBit(t, Value(t, y), false).zmap
    ensures Prune(t, y).data == t.data[Value(t, x) := t.data[Value(t, x)][Index(y) := 0]]
    ensures Prune(t, y).first == t.first && Prune(t, y).zones == t.zones
  {
    WordIsValue(t, y, x);
    SetBitValue(t, Value(t, y), false, x);
  }

  lemma NoKids(s: Fs, t: Fs, n: int, busy: set<nat>, done: iset<Slot>, x: Slot)
    requires Swept(s, t, n, busy, done) && Value(s, x) == 0
    ensures Swept(s, t, n, busy, done + Kids(x, PER_BLOCK)) && !Held(s, busy, x)
  {
  }

  // ------------------------------------------------------------ paths

  lemma FirstStep(s: Fs, t: Fs, n: nat, b: int, x: Slot, z: nat)
    requires Inv(s) && IsBlock(|s.inodes|, n, b) && 7 <= b
    requires (x == if b < 7 + PER_BLOCK then Direct(n, 7) else Direct(n, 8))
    requires Filled(s, t, x, z)
    ensures Grown(s, t, n, b) && Value(t, Place(n, b)) == Value(s, Place(n, b)) && Value(t, x) == z
    ensures Value(s, Place(n, b)) != 0 ==> t == s
    ensures z == 0 ==> Created(s, t, n, b, 0)
  {
    PlaceIsSlot(|s.inodes|, n, b);
    FilledGrows(s, t, x, z, n, b);
    if z == 0 {
      GrownNot(s, n, b);
      CreatedShort(s, s, t, n, b, x);
    }
  }

  lemma SecondStep(s: Fs, t: Fs, u: Fs, n: nat, b: int, x: Slot, z: nat)
    requires Inv(s) && IsBlock(|s.inodes|, n, b) && 7 + PER_BLOCK <= b && x == Parent(Place(n, b))
    requires Grown(s, t, n, b) && Value(t, Place(n, b)) == Value(s, Place(n, b))
    requires Value(s, Place(n, b)) != 0 ==> t == s
    requires Filled(t, u, x, z)
    ensures Grown(s, u, n, b) && Value(u, Place(n, b)) == Value(s, Place(n, b)) && Value(u, x) == z
    ensures Value(s, Place(n, b)) != 0 ==> u == s
    ensures z == 0 ==> Created(s, u, n, b, 0)
  {
    PlaceIsSlot(|s.inodes|, n, b);
    assert IsSlot(|s.inodes|, x);
    FilledGrows(t, u, x, z, n, b);
    GrownTwice(s, t, u, n, b);
    if z == 0 {
      CreatedShort(s, t, u, n, b, x);
    }
  }

  lemma TakenParent(s: Fs, t: Fs, x: Slot, z: nat)
    requires Inv(s) && Free(s, z) && IsSlot(|s.inodes|, x) && !x.Direct?
    requires HasBit(s.zmap, BitNr(s, z)) && z < |s.data| && t == Take(s, z)
    ensures Value(t, Parent(x)) == Value(s, Parent(x))
  {
    TakeKeeps(s, z);
    assert IsSlot(|s.inodes|, Parent(x));
  }

  // ------------------------------------------------------------ bit arithmetic

  lemma FirstZero(zmap: seq<seq<bool>>, i: nat, j: nat)
    requires i < |zmap| && |zmap[i]| == MAP_BITS && j <= MAP_BITS
    requires forall k :: 0 <= k < i * MAP_BITS && HasBit(zmap, k) ==> Marked(zmap, k)
    requires forall k :: 0 <= k < j ==> zmap[i][k]
    ensures forall k :: 0 <= k < i * MAP_BITS + j && HasBit(zmap, k) ==> Marked(zmap, k)
  {
  }

  lemma AllMarked(s: Fs, i: nat)
    requires Shape(s) && |s.zmap| <= i && forall k :: 0 <= k < i * MAP_BITS && HasBit(s.zmap, k) ==> Marked(s.zmap, k)
    ensures Full(s) && BitsBut(s, s, -1, true)
  {
  }

  lemma ZoneOfBit(s: Fs, b: nat)
    requires Shape(s) && HasBit(s.zmap, b) && !Marked(s.zmap, b)
    ensures b > 0 && BitNr(s, b + s.first - 1) == b && b + s.first - 1 >= s.first
  {
  }

  lemma LowestBit(s: Fs, b: nat)
    requires Shape(s) && 0 < b && forall k :: 0 <= k < b && HasBit(s.zmap, k) ==> Marked(s.zmap, k)
    ensures forall w: nat :: IsZone(s, w) && w < b + s.first - 1 ==> InUse(s, w)
  {
  }

  lemma SpareKeeps(s: Fs, z: nat)
    requires Inv(s) && s.zones <= z && HasBit(s.zmap, BitNr(s, z)) && BitNr(s, z) != 0
    ensures Inv(SetBit(s, z, true)) && BitsBut(s, SetBit(s, z, true), -1, true)
  {
    var s' := SetBit(s, z, true);
    ShapeAfterBit(s, z, true);
    SetBitSame(s, z, true);
    forall x | IsSlot(|s'.inodes|, x) ensures SlotOk(s', x) {
      assert SlotOk(s, x);
    }
    forall x, y | IsSlot(|s'.inodes|, x) && IsSlot(|s'.inodes|, y) ensures Apart(s', x, y) {
      assert Apart(s, x, y);
    }
  }
}

/** Zones, zone bitmap and index trees of a Minix file system (fs/minix): the positions from which a file
    names its zones, and the invariant that every zone is named at most once and then marked in use. */
module ZoneModel {

  const PER_BLOCK: nat := 512        // 16-bit entries in a block
  const MAP_BITS: nat := 8192        // bits in a block
  const MAX_BLOCK: int := 7 + 512 + 512 * 512

  /** One block seen as 512 zone numbers. */
  type Words = seq<nat>

  /** Where a zone number can stand: in the inode, in the single indirect block, in the double indirect
      block, or in one of the blocks that one names. */
  datatype Slot =
    | Direct(n: int, k: int)
    | Ind(n: int, j: int)
    | Dind(n: int, a: int)
    | Leaf(n: int, a: int, b: int)

  /** first and zones are s_firstdatazone and s_nzones; inodes[n] the nine zone numbers of inode n. */
  datatype Fs = Fs(first: nat, zones: nat, zmap: seq<seq<bool>>, data: seq<Words>, inodes: seq<seq<nat>>)

  predicate IsSlot(files: nat, x: Slot) {
    0 <= x.n < files &&
    match x
    case Direct(_, k) => 0 <= k < 9
    case Ind(_, j) => 0 <= j < PER_BLOCK
    case Dind(_, a) => 0 <= a < PER_BLOCK
    case Leaf(_, a, b) => 0 <= a < PER_BLOCK && 0 <= b < PER_BLOCK
  }

  /** The position that names the block holding this one; an inode holds its own. */
  function Parent(x: Slot): Slot {
    match x
    case Direct(_, _) => x
    case Ind(n, _) => Direct(n, 7)
    case Dind(n, _) => Direct(n, 8)
    case Leaf(n, a, _) => Dind(n, a)
  }

  function Index(x: Slot): int {
    match x
    case Direct(_, k) => k
    case Ind(_, j) => j
    case Dind(_, a) => a
    case Leaf(_, _, b) => b
  }

  function WordAt(data: seq<Words>, z: nat, j: int): nat {
    if 0 < z < |data| && 0 <= j < |data[z]| then data[z][j] else 0
  }

  function Depth(x: Slot): nat {
    if x.Direct? then 0 else if x.Leaf? then 2 else 1
  }

  function InInode(inodes: seq<seq<nat>>, n: int, k: int): nat {
    if 0 <= n < |inodes| && 0 <= k < |inodes[n]| then inodes[n][k] else 0
  }

  /** The zone named at a position, 0 for none. */
  function Value(s: Fs, x: Slot): nat
    decreases Depth(x)
  {
    if x.Direct? then InInode(s.inodes, x.n, x.k) else WordAt(s.data, Value(s, Parent(x)), Index(x))
  }

  // ---------------------------------------------------------------- the bitmap

  predicate HasBit(zmap: seq<seq<bool>>, k: int) {
    0 <= k < |zmap| * MAP_BITS && |zmap[k / MAP_BITS]| == MAP_BITS
  }

  predicate Marked(zmap: seq<seq<bool>>, k: int) {
    HasBit(zmap, k) && zmap[k / MAP_BITS][k % MAP_BITS]
  }

  /** The bit of zone z. */
  function BitNr(s: Fs, z: nat): int {
    z - s.first + 1
  }

  predicate InUse(s: Fs, z: nat) {
    Marked(s.zmap, BitNr(s, z))
  }

  predicate IsZone(s: Fs, z: int) {
    s.first <= z < s.zones
  }

  // ---------------------------------------------------------------- the invariant

  ghost predicate Shape(s: Fs) {
    0 < s.first <= s.zones && |s.data| == s.zones && |s.zmap| <= 8 &&
    (forall i :: 0 <= i < |s.zmap| ==> |s.zmap[i]| == MAP_BITS) &&
    (forall z: nat :: IsZone(s, z) ==> HasBit(s.zmap, BitNr(s, z))) &&
    (forall z :: 0 <= z < |s.data| ==> |s.data[z]| == PER_BLOCK) &&
    (forall n :: 0 <= n < |s.inodes| ==> |s.inodes[n]| == 9) &&
    Marked(s.zmap, 0)
  }

  /** A named zone is a data zone, is marked, and has no other name. */
  ghost predicate SlotOk(s: Fs, x: Slot) {
    Value(s, x) != 0 ==> IsZone(s, Value(s, x)) && InUse(s, Value(s, x))
  }

  ghost predicate Apart(s: Fs, x: Slot, y: Slot) {
    Value(s, x) != 0 && x != y ==> Value(s, x) != Value(s, y)
  }

  ghost predicate Inv(s: Fs) {
    Shape(s) &&
    (forall x :: IsSlot(|s.inodes|, x) ==> SlotOk(s, x)) &&
    (forall x, y :: IsSlot(|s.inodes|, x) && IsSlot(|s.inodes|, y) ==> Apart(s, x, y))
  }

  // ---------------------------------------------------------------- files

  /** The position of logical block `block` of file n. */
  function Place(n: int, block: int): Slot
    requires 0 <= block < MAX_BLOCK
  {
    if block < 7 then Direct(n, block)
    else if block < 7 + PER_BLOCK then Ind(n, block - 7)
    else Leaf(n, (block - 7 - PER_BLOCK) / PER_BLOCK, (block - 7 - PER_BLOCK) % PER_BLOCK)
  }

  /** minix_bmap: the zone of a logical block, 0 for a hole or a number out of range. */
  function Bmap(s: Fs, n: int, block: int): nat {
    if 0 <= block < MAX_BLOCK then Value(s, Place(n, block)) else 0
  }

  /** Different logical blocks stand at different positions. */
  lemma PlaceIsOne(n: int, b: int, n2: int, b2: int)
    requires 0 <= b < MAX_BLOCK && 0 <= b2 < MAX_BLOCK && Place(n, b) == Place(n2, b2)
    ensures n == n2 && b == b2
  {
  }

  /** The zone of a logical block read off the inode's nine numbers and the words of the index blocks they name: seven
      direct ones, 512 by way of number 7, and 512 times 512 by way of number 8. */
  function ZoneOf(inode: seq<nat>, data: seq<Words>, block: int): nat
    requires |inode| == 9
  {
    if block < 0 || block >= 7 + 512 + 512 * 512 then 0
    else if block < 7 then inode[block]
    else if block < 519 then WordAt(data, inode[7], block - 7)
    else WordAt(data, WordAt(data, inode[8], (block - 519) / 512), (block - 519) % 512)
  }

  lemma BmapIsZone(s: Fs, n: int, block: int)
    requires 0 <= n < |s.inodes| && |s.inodes[n]| == 9
    ensures Bmap(s, n, block) == ZoneOf(s.inodes[n], s.data, block)
  {
    if 519 <= block < MAX_BLOCK {
      var a, b := (block - 519) / 512, (block - 519) % 512;
      assert Value(s, Dind(n, a)) == WordAt(s.data, Value(s, Direct(n, 8)), a);
      assert Value(s, Leaf(n, a, b)) == WordAt(s.data, Value(s, Dind(n, a)), b);
    } else if 7 <= block < 519 {
      assert Value(s, Ind(n, block - 7)) == WordAt(s.data, Value(s, Direct(n, 7)), block - 7);
    }
  }
}

/** Minix directories as finite maps from names of at most 14 bytes to inode numbers (fs/minix/namei.c). */
module DirModel {
  import opened Basics

  const NAME_LEN: nat := 14
  const PER_BLOCK: nat := 64          // directory entries in a block
  const DOT: Byte := 46

  /** inode is 0 in a free entry; the name is padded with zero bytes. */
  datatype Entry = Entry(inode: nat, name: seq<Byte>)

  /** The first size entries of the blocks are the directory. */
  datatype Dir = Dir(blocks: seq<seq<Entry>>, size: nat)

  // ---------------------------------------------------------------- names

  function Cut(n: seq<Byte>): (c: seq<Byte>)
    ensures |c| <= NAME_LEN && (NulFree(n) ==> NulFree(c))
  {
    if |n| > NAME_LEN then n[..NAME_LEN] else n
  }

  function Zeros(k: nat): (z: seq<Byte>)
    ensures |z| == k && forall i :: 0 <= i < k ==> z[i] == 0
  {
    seq(k, i => 0)
  }

  function Padded(n: seq<Byte>): (p: seq<Byte>)
    requires |n| <= NAME_LEN
    ensures |p| == NAME_LEN
  {
    n + Zeros(NAME_LEN - |n|)
  }

  /** The stored form a name is looked up under; the empty name stands for the directory itself. */
  function Key(n: seq<Byte>): (p: seq<Byte>)
    ensures |p| == NAME_LEN
  {
    if n == [] then Padded([DOT]) else Padded(Cut(n))
  }

  /** Byte by byte: the first 14 bytes of the name, then zeros; a dot for the empty name. */
  lemma KeyIs(n: seq<Byte>, i: int)
    requires 0 <= i < 14
    ensures |Key(n)| == 14 && Key(n)[i] == if i < |n| then n[i] else if n == [] && i == 0 then 46 else 0
  {
  }

  /** A stored name: not empty, and zero from its first zero byte on. */
  predicate Stored(p: seq<Byte>) {
    |p| == NAME_LEN && p[0] != 0 && forall i, j :: 0 <= i < j < NAME_LEN && p[i] == 0 ==> p[j] == 0
  }

  lemma KeyIsStored(n: seq<Byte>)
    requires NulFree(n)
    ensures Stored(Key(n))
  {
  }

  /** minix_match on a name already cut. */
  predicate Match(n: seq<Byte>, e: Entry)
    requires |n| <= NAME_LEN && |e.name| == NAME_LEN
  {
    e.inode != 0 &&
    if n == [] && e.name[0] == DOT && e.name[1] == 0 then true
    else if |n| < NAME_LEN && e.name[|n|] != 0 then false
    else e.name[..|n|] == n
  }

  /** minix_match recognises exactly the stored form of the name. */
  lemma MatchIsKey(n: seq<Byte>, e: Entry)
    requires NulFree(n) && Stored(e.name)
    ensures Match(Cut(n), e) <==> e.inode != 0 && e.name == Key(n)
  {
  }

  // ---------------------------------------------------------------- the map

  predicate IsEntry(d: Dir, k: int) {
    0 <= k < d.size
  }

  function At(d: Dir, k: int): Entry {
    var b, o := k / PER_BLOCK, k % PER_BLOCK;
    if 0 <= b < |d.blocks| && o < |d.blocks[b]| then d.blocks[b][o] else Entry(0, Padded([]))
  }

  predicate Live(d: Dir, k: int) {
    IsEntry(d, k) && At(d, k).inode != 0
  }

  ghost predicate Shape(d: Dir) {
    |d.blocks| > 0 && d.size <= |d.blocks| * PER_BLOCK &&
    (forall b :: 0 <= b < |d.blocks| ==> |d.blocks[b]| == PER_BLOCK) &&
    (forall b, i :: 0 <= b < |d.blocks| && 0 <= i < |d.blocks[b]| ==> |d.blocks[b][i].name| == NAME_LEN)
  }

  /** All blocks are there, live entries carry stored names, and no two the same. */
  ghost predicate Ok(d: Dir) {
    Shape(d) &&
    (forall k :: Live(d, k) ==> Stored(At(d, k).name)) &&
    (forall j, k :: Live(d, j) && Live(d, k) ==> Apart(d, j, k))
  }

  /** Every entry of every block is taken. */
  ghost predicate Packed(d: Dir) {
    d.size == |d.blocks| * PER_BLOCK && forall j :: 0 <= j < d.size ==> Live(d, j)
  }

  predicate Apart(d: Dir, j: int, k: int) {
    j != k ==> At(d, j).name != At(d, k).name
  }

  /** The directory as a map. */
  ghost function Names(d: Dir): (m: map<seq<Byte>, nat>)
    requires Ok(d)
    ensures forall k :: Live(d, k) ==> At(d, k).name in m && m[At(d, k).name] == At(d, k).inode
    ensures forall n :: n in m ==> exists k :: Live(d, k) && At(d, k).name == n
  {
    hide At, Shape, Stored;
    map k | 0 <= k < d.size && Live(d, k) :: At(d, k).name := At(d, k).inode
  }

  /** Entry k written over; the rest, and the other blocks, as they were. */
  ghost predicate Written(d: Dir, d': Dir, k: int, e: Entry) {
    Ok(d) && Shape(d') && 0 <= k < d'.size && d.size <= d'.size <= d.size + 1 && (d'.size > d.size ==> k == d.size) &&
    At(d', k) == e && forall j :: IsEntry(d, j) && j != k ==> At(d', j) == At(d, j)
  }

  /** A name that was not there enters at a free entry. */
  lemma InsertKeeps(d: Dir, d': Dir, k: int, e: Entry)
    requires Written(d, d', k, e) && !Live(d, k) && e.inode != 0 && Stored(e.name) && e.name !in Names(d)
    ensures Ok(d') && Names(d') == Names(d)[e.name := e.inode]
  {
    hide At, Names, Stored, Shape;
    forall j | Live(d', j) ensures Stored(At(d', j).name) && (j != k ==> Live(d, j) && At(d', j).name != e.name) {
      if j != k { assert Live(d, j); }
    }
    forall i, j | Live(d', i) && Live(d', j) ensures Apart(d', i, j) {
      if i != k && j != k { assert Apart(d, i, j); }
    }
    var m, m' := Names(d), Names(d');
    forall n | n in m'.Keys ensures n in m[e.name := e.inode] && m'[n] == m[e.name := e.inode][n] {
      var j :| Live(d', j) && At(d', j).name == n;
    }
    forall n | n in m[e.name := e.inode].Keys ensures n in m' {
      if n != e.name {
        var j :| Live(d, j) && At(d, j).name == n;
        assert Live(d', j);
      } else {
        assert Live(d', k);
      }
    }
  }

  /** A live entry is freed. */
  lemma DeleteKeeps(d: Dir, d': Dir, k: int)
    requires Live(d, k) && Written(d, d', k, At(d, k).(inode := 0)) && d'.size == d.size
    ensures Ok(d') && Names(d') == Names(d) - {At(d, k).name}
  {
    hide At, Names, Stored, Shape;
    forall j | Live(d', j) ensures Live(d, j) && j != k { }
    forall i, j | Live(d', i) && Live(d', j) ensures Apart(d', i, j) {
      assert Apart(d, i, j);
    }
    var m, m' := Names(d), Names(d');
    forall n | n in m'.Keys ensures n in m - {At(d, k).name} && m'[n] == m[n] {
      var j :| Live(d', j) && At(d', j).name == n;
      assert Apart(d, j, k);
    }
    forall n | n in (m - {At(d, k).name}).Keys ensures n in m' {
      var j :| Live(d, j) && At(d, j).name == n;
      assert Live(d', j);
    }
  }

  // ---------------------------------------------------------------- links

  /** How many of the first n entries name inode ino. */
  function Count(d: Dir, ino: nat, n: nat): nat {
    if n == 0 then 0 else Count(d, ino, n - 1) + if At(d, n - 1).inode == ino then 1 else 0
  }

  lemma {:induction false} CountWritten(d: Dir, d': Dir, k: int, e: Entry, ino: nat, n: nat)
    requires Written(d, d', k, e) && n <= d.size
    ensures Count(d', ino, n) == Count(d, ino, n)
      + (if k < n && e.inode == ino then 1 else 0) - (if k < n && At(d, k).inode == ino then 1 else 0)
  {
    hide At, Shape, Stored;
    if n > 0 {
      CountWritten(d, d', k, e, ino, n - 1);
    }
  }

  function Links(d: Dir, ino: nat): nat {
    Count(d, ino, d.size)
  }

  lemma LinksWritten(d: Dir, d': Dir, k: int, e: Entry, ino: nat)
    requires Written(d, d', k, e) && ino != 0
    ensures Links(d', ino) == Links(d, ino)
      + (if e.inode == ino then 1 else 0) - (if Live(d, k) && At(d, k).inode == ino then 1 else 0)
  {
    hide At, Shape, Stored;
    CountWritten(d, d', k, e, ino, d.size);
  }
}

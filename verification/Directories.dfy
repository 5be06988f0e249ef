/** minix_find_entry, minix_add_entry, minix_mknod, minix_link and minix_unlink (fs/minix/namei.c), on directories
    without holes. */
module Directories {
  import opened Basics
  import opened DirModel

  datatype Code = Done | NoEntry | NotPermitted | Exists | NoSpace

  /** minix_find_entry: the entry that holds the name, -1 for none. */
  method FindEntry(d: Dir, name: seq<Byte>) returns (k: int)
    requires Ok(d) && NulFree(name)
    ensures k == -1 || (Live(d, k) && At(d, k).name == Key(name))
    ensures k == -1 <==> Key(name) !in Names(d)
  {
    hide Names, Stored;
    var n := Cut(name);
    var i, o := 0, 0;
    var block := d.blocks[0];
    while i < d.size
      invariant 0 <= i <= d.size && 0 <= o <= PER_BLOCK && |block| == PER_BLOCK
      invariant if o < PER_BLOCK then i / PER_BLOCK < |d.blocks| && block == d.blocks[i / PER_BLOCK] &&
                                      o == i % PER_BLOCK
                else i % PER_BLOCK == 0
      invariant forall j :: 0 <= j < i ==> !(Live(d, j) && At(d, j).name == Key(name))
    {
      if o >= PER_BLOCK {
        block, o := d.blocks[i / PER_BLOCK], 0;
      }
      assert block[o] == At(d, i) && IsEntry(d, i) && |At(d, i).name| == NAME_LEN;
      if Live(d, i) { MatchIsKey(name, At(d, i)); }
      if Match(n, block[o]) {
        return i;
      }
      o, i := o + 1, i + 1;
    }
    return -1;
  }

  /** minix_add_entry: the first free entry, or one more at the end, receives the name and is handed out with
      inode 0. room says that a block can be had if one is needed. */
  method AddEntry(d: Dir, name: seq<Byte>, room: bool) returns (d': Dir, k: int)
    requires Ok(d) && NulFree(name)
    ensures k == -1 ==> d' == d
    ensures k != -1 ==> Written(d, d', k, Entry(0, Key(name))) && !Live(d, k)
    ensures name == [] ==> k == -1
    ensures k == -1 <==> name == [] || (!room && Packed(d))
    ensures k != -1 ==> forall j :: 0 <= j < k ==> Live(d, j)
  {
    hide Names, Stored, Ok, At;
    var n := Cut(name);
    if n == [] {
      return d, -1;
    }
    var i, o := 0, 0;
    var blocks := d.blocks;
    FirstBlock(d);
    while true
      invariant 0 <= i <= d.size && 0 <= o <= PER_BLOCK && blocks == d.blocks
      invariant if o < PER_BLOCK then i / PER_BLOCK < |blocks| && o == i % PER_BLOCK else i % PER_BLOCK == 0
      invariant forall j :: 0 <= j < i ==> Live(d, j)
      decreases d.size - i
    {
      if o >= PER_BLOCK {
        NewPlace(d, i);
        if i / PER_BLOCK >= |blocks| {
          if !room {
            return d, -1;
          }
          blocks := blocks + [BlankBlock()];
        }
        o := 0;
      }
      if i >= d.size || At(d, i).inode == 0 {
        NotPacked(d, i);
        break;
      }
      NextPlace(i);
      o, i := o + 1, i + 1;
    }
    var e := Entry(0, Padded(n));
    PutEntry(d, blocks, i, e);
    d' := Dir(blocks[i / PER_BLOCK := blocks[i / PER_BLOCK][o := e]], if i >= d.size then i + 1 else d.size);
    k := i;
  }

  function BlankBlock(): (b: seq<Entry>)
    ensures |b| == PER_BLOCK && forall i :: 0 <= i < PER_BLOCK ==> b[i] == Entry(0, Zeros(NAME_LEN))
  {
    seq(PER_BLOCK, _ => Entry(0, Zeros(NAME_LEN)))
  }

  lemma FirstBlock(d: Dir)
    requires Ok(d)
    ensures |d.blocks| > 0 && d.size <= |d.blocks| * PER_BLOCK
  {
  }

  /** The place after entry i: in the same block, or the first of the next. */
  lemma NextPlace(i: nat)
    ensures if i % PER_BLOCK + 1 < PER_BLOCK
            then (i + 1) / PER_BLOCK == i / PER_BLOCK && (i + 1) % PER_BLOCK == i % PER_BLOCK + 1
            else (i + 1) % PER_BLOCK == 0
  {
  }

  /** Past the last block the directory is full. */
  lemma NewPlace(d: Dir, i: nat)
    requires Ok(d) && i % PER_BLOCK == 0 && i <= d.size
    ensures i / PER_BLOCK <= |d.blocks|
    ensures i / PER_BLOCK == |d.blocks| ==> i == d.size == |d.blocks| * PER_BLOCK
  {
  }

  lemma NotPacked(d: Dir, i: nat)
    requires i <= d.size && (i >= d.size || At(d, i).inode == 0)
    ensures i / PER_BLOCK < |d.blocks| ==> !Packed(d)
  {
    if i < d.size { assert !Live(d, i); }
  }

  /** Entry i written, in a block of the directory or in a new one. */
  lemma PutEntry(d: Dir, blocks: seq<seq<Entry>>, i: nat, e: Entry)
    requires Ok(d) && i <= d.size && |e.name| == NAME_LEN
    requires blocks == d.blocks || (blocks == d.blocks + [BlankBlock()] && i == d.size)
    requires i / PER_BLOCK < |blocks|
    ensures |blocks[i / PER_BLOCK]| == PER_BLOCK
    ensures var b := i / PER_BLOCK;
      Written(d, Dir(blocks[b := blocks[b][i % PER_BLOCK := e]], if i >= d.size then i + 1 else d.size), i, e)
  {
    var b := i / PER_BLOCK;
    var d' := Dir(blocks[b := blocks[b][i % PER_BLOCK := e]], if i >= d.size then i + 1 else d.size);
    forall j | IsEntry(d, j) && j != i ensures At(d', j) == At(d, j) {
      SamePlace(j, i);
    }
  }

  lemma SamePlace(j: int, k: int)
    requires j != k
    ensures j / PER_BLOCK != k / PER_BLOCK || j % PER_BLOCK != k % PER_BLOCK
  {
  }

  // ---------------------------------------------------------------- link counts

  /** i_nlink is one byte. */
  function LinkedOnce(n: Byte): Byte {
    (n + 1) % 256
  }

  /** minix_unlink puts a count of 0 to 1 before it takes one off. */
  function UnlinkedOnce(n: Byte): Byte {
    if n == 0 then 0 else n - 1
  }

  /** Linking and then unlinking restores the count exactly when it was below 255; at 255 the count is lost
      and the file looks deleted. */
  lemma LinkUnlink(n: Byte)
    ensures UnlinkedOnce(LinkedOnce(n)) == n <==> n < 255
    ensures n == 255 ==> LinkedOnce(n) == 0 && UnlinkedOnce(LinkedOnce(n)) == 0
  {
  }

  /** Entries naming ino in the first n directories. */
  function Total(dirs: seq<Dir>, ino: nat, n: nat): nat
    requires n <= |dirs|
  {
    if n == 0 then 0 else Total(dirs, ino, n - 1) + Links(dirs[n - 1], ino)
  }

  lemma {:induction false} TotalChanges(dirs: seq<Dir>, x: nat, d: Dir, ino: nat, n: nat)
    requires x < |dirs| && n <= |dirs|
    ensures Total(dirs[x := d], ino, n) ==
            Total(dirs, ino, n) + if x < n then Links(d, ino) - Links(dirs[x], ino) else 0
  {
    if n > 0 { TotalChanges(dirs, x, d, ino, n - 1); }
  }

  lemma {:induction false} NoneNamed(dirs: seq<Dir>, ino: nat, n: nat)
    requires n <= |dirs| && forall x :: 0 <= x < |dirs| ==> dirs[x].size == 0
    ensures Total(dirs, ino, n) == 0
  {
    if n > 0 { NoneNamed(dirs, ino, n - 1); }
  }

  /** Entries name inodes below n. */
  ghost predicate Numbered(d: Dir, n: nat)
    requires Ok(d)
  {
    forall s :: s in Names(d) ==> 0 < Names(d)[s] < n
  }

  datatype Event =
    | Mknod(dir: nat, name: seq<Byte>, ino: nat, room: bool)
    | Link(dir: nat, name: seq<Byte>, ino: nat, room: bool)
    | Unlink(dir: nat, name: seq<Byte>, allowed: bool)

  // ---------------------------------------------------------------- volumes

  /** nlink is by inode number; wrapped are the files whose count has passed 255. */
  datatype Vol = Vol(dirs: seq<Dir>, nlink: seq<Byte>, wrapped: set<nat>)

  /** A file's count is the number of entries that name it, unless it has passed 255. */
  ghost predicate Counted(directories: set<nat>, v: Vol, i: nat) {
    0 < i < |v.nlink| && i !in directories && i !in v.wrapped ==> v.nlink[i] == Total(v.dirs, i, |v.dirs|)
  }

  ghost predicate Sound(directories: set<nat>, v: Vol) {
    (forall x :: 0 <= x < |v.dirs| ==> Ok(v.dirs[x]) && Numbered(v.dirs[x], |v.nlink|)) &&
    (forall i :: 0 < i < |v.nlink| ==> Counted(directories, v, i))
  }

  /** An inode number minix_new_inode may hand out: iput has given the inode back, its count being 0. */
  predicate Fresh(directories: set<nat>, nlink: seq<Byte>, ino: nat) {
    0 < ino < |nlink| && ino !in directories && nlink[ino] == 0
  }

  /** Whether the call makes sense: a directory that exists, a name without zero bytes, an inode that exists or,
      for minix_mknod, one that may be handed out. */
  predicate Sensible(directories: set<nat>, dirs: seq<Dir>, nlink: seq<Byte>, e: Event) {
    e.dir < |dirs| && NulFree(e.name) && (e.Mknod? ==> e.ino == 0 || Fresh(directories, nlink, e.ino)) &&
    (e.Link? ==> 0 < e.ino < |nlink|)
  }

  /** Only directory x has changed, and is now the map m. */
  ghost predicate Only(a: Vol, b: Vol, x: nat, m: map<seq<Byte>, nat>) {
    |b.dirs| == |a.dirs| && |b.nlink| == |a.nlink| && x < |b.dirs| &&
    (forall y :: 0 <= y < |b.dirs| && y != x ==> b.dirs[y] == a.dirs[y]) && Ok(b.dirs[x]) && Names(b.dirs[x]) == m
  }

  /** No entry can be made: the name is empty, or the directory is full and no block can be had. */
  ghost predicate NoPlace(d: Dir, name: seq<Byte>, room: bool) {
    name == [] || (!room && Packed(d))
  }

  /** What minix_mknod answers and does. */
  ghost predicate MadeNode(a: Vol, e: Event, r: Code, b: Vol)
    requires e.Mknod? && e.dir < |a.dirs| && Ok(a.dirs[e.dir])
  {
    var m := Names(a.dirs[e.dir]);
    r == (if Key(e.name) in m then Exists
          else if e.ino == 0 || NoPlace(a.dirs[e.dir], e.name, e.room) then NoSpace else Done) &&
    Only(a, b, e.dir, if r == Done then m[Key(e.name) := e.ino] else m) &&
    (r == Done ==> e.ino < |a.nlink| && b.nlink == a.nlink[e.ino := 1]) && (r != Done ==> b.nlink == a.nlink) &&
    b.wrapped == if r == Done && Total(a.dirs, e.ino, |a.dirs|) == 0 then a.wrapped - {e.ino} else a.wrapped
  }

  /** What minix_link answers and does. A count of 255 passes to 0. */
  ghost predicate Linked(directories: set<nat>, a: Vol, e: Event, r: Code, b: Vol)
    requires e.Link? && e.dir < |a.dirs| && Ok(a.dirs[e.dir]) && e.ino < |a.nlink|
  {
    var m := Names(a.dirs[e.dir]);
    r == (if e.ino in directories then NotPermitted else if Key(e.name) in m then Exists
          else if NoPlace(a.dirs[e.dir], e.name, e.room) then NoSpace else Done) &&
    Only(a, b, e.dir, if r == Done then m[Key(e.name) := e.ino] else m) &&
    b.nlink == (if r == Done then a.nlink[e.ino := LinkedOnce(a.nlink[e.ino])] else a.nlink) &&
    b.wrapped == a.wrapped + if r == Done && a.nlink[e.ino] == 255 then {e.ino} else {}
  }

  /** What minix_unlink answers and does. */
  ghost predicate Unlinked(directories: set<nat>, a: Vol, e: Event, r: Code, b: Vol)
    requires e.Unlink? && e.dir < |a.dirs| && Ok(a.dirs[e.dir])
  {
    var m, key := Names(a.dirs[e.dir]), Key(e.name);
    r == (if key !in m then NoEntry else if !e.allowed || m[key] in directories then NotPermitted else Done) &&
    Only(a, b, e.dir, if r == Done then m - {key} else m) && b.wrapped == a.wrapped &&
    (r != Done ==> b.nlink == a.nlink) &&
    (r == Done ==> m[key] < |a.nlink| && b.nlink == a.nlink[m[key] := UnlinkedOnce(a.nlink[m[key]])])
  }

  ghost predicate Did(directories: set<nat>, a: Vol, e: Event, r: Code, b: Vol) {
    if !Sensible(directories, a.dirs, a.nlink, e) then b == a && r == NotPermitted
    else if e.Mknod? then Ok(a.dirs[e.dir]) && MadeNode(a, e, r, b)
    else if e.Link? then Ok(a.dirs[e.dir]) && Linked(directories, a, e, r, b)
    else Ok(a.dirs[e.dir]) && Unlinked(directories, a, e, r, b)
  }

  /** The event links a file whose count was 255. */
  predicate Overruns(a: Vol, e: Event, r: Code, i: nat) {
    e.Link? && e.ino == i && r == Done && i < |a.nlink| && a.nlink[i] == 255
  }

  class Volume {
    var dirs: seq<Dir>
    var nlink: seq<Byte>
    const directories: set<nat>      // inodes that are directories
    ghost var wrapped: set<nat>

    ghost function Abs(): Vol
      reads this
    {
      Vol(dirs, nlink, wrapped)
    }

    ghost predicate Valid()
      reads this
    {
      Sound(directories, Abs())
    }

    /** A volume with `count` empty directories and no files. */
    constructor (count: nat, inodes: nat, isDirectory: set<nat>)
      ensures Valid() && |dirs| == count && |nlink| == inodes && directories == isDirectory
    {
      var d := Dir([seq(PER_BLOCK, _ => Entry(0, Zeros(NAME_LEN)))], 0);
      dirs := seq(count, _ => d);
      nlink := seq(inodes, _ => 0);
      directories, wrapped := isDirectory, {};
      new;
      assert Ok(d) && Numbered(d, inodes);
      forall i | 0 < i < |nlink| ensures Counted(directories, Abs(), i) {
        NoneNamed(dirs, i, |dirs|);
      }
    }

    /** The entry that d' has and dirs[x] had not, or the other way round, is one for ino. */
    ghost predicate Moved(x: nat, d': Dir, ino: nat, change: int)
      requires x < |dirs|
      reads this
    {
      forall i: nat :: i > 0 ==> Links(d', i) == Links(dirs[x], i) + if i == ino then change else 0
    }

    lemma TotalMoved(x: nat, d': Dir, ino: nat, change: int, i: nat)
      requires x < |dirs| && Moved(x, d', ino, change) && i > 0
      ensures Total(dirs[x := d'], i, |dirs|) == Total(dirs, i, |dirs|) + if i == ino then change else 0
    {
      TotalChanges(dirs, x, d', i, |dirs|);
      assert Links(d', i) == Links(dirs[x], i) + if i == ino then change else 0;
    }

    /** A new entry for ino in directory x, the name having been looked for in vain. */
    method Enter(x: nat, name: seq<Byte>, ino: nat, room: bool) returns (ok: bool)
      requires Valid() && x < |dirs| && NulFree(name) && 0 < ino < |nlink| && Key(name) !in Names(dirs[x])
      modifies `dirs
      ensures |dirs| == |old(dirs)| && (forall y :: 0 <= y < |dirs| && y != x ==> dirs[y] == old(dirs)[y])
      ensures Ok(dirs[x]) && Numbered(dirs[x], |nlink|) && (ok <==> name != [] && (room || !Packed(old(dirs)[x])))
      ensures Names(dirs[x]) == if ok then Names(old(dirs)[x])[Key(name) := ino] else Names(old(dirs)[x])
      ensures forall i: nat :: i > 0 ==>
                Total(dirs, i, |dirs|) == Total(old(dirs), i, |dirs|) + if ok && i == ino then 1 else 0
    {
      hide Names, Stored, Ok, Written, Links, Total, Packed;
      assert Ok(dirs[x]);
      var d, k := AddEntry(dirs[x], name, room);
      if k == -1 {
        return false;
      }
      KeyIsStored(name);
      var d' := Filled(dirs[x], d, k, Key(name), ino);
      EnterLinks(x, d', k, Entry(ino, Key(name)), ino);
      forall i: nat | i > 0
        ensures Total(dirs[x := d'], i, |dirs|) == Total(dirs, i, |dirs|) + if i == ino then 1 else 0
      {
        TotalMoved(x, d', ino, 1, i);
      }
      InsertKeeps(dirs[x], d', k, Entry(ino, Key(name)));
      dirs := dirs[x := d'];
      return true;
    }

    lemma EnterLinks(x: nat, d': Dir, k: int, e: Entry, ino: nat)
      requires x < |dirs| && Written(dirs[x], d', k, e) && e.inode == ino && !Live(dirs[x], k)
      ensures Moved(x, d', ino, 1)
    {
      hide Links, Written;
      forall i: nat | i > 0 ensures Links(d', i) == Links(dirs[x], i) + if i == ino then 1 else 0 {
        LinksWritten(dirs[x], d', k, e, i);
      }
    }

    lemma LeaveLinks(x: nat, d': Dir, k: int, e: Entry, ino: nat)
      requires x < |dirs| && Written(dirs[x], d', k, e) && e.inode == 0
      requires Live(dirs[x], k) && At(dirs[x], k).inode == ino
      ensures Moved(x, d', ino, -1)
    {
      hide Links, Written;
      forall i: nat | i > 0 ensures Links(d', i) == Links(dirs[x], i) + if i == ino then -1 else 0 {
        LinksWritten(dirs[x], d', k, e, i);
      }
    }

    /** minix_mknod; ino is the inode minix_new_inode hands out, 0 for none. It may be one that entries still name,
        if its count has passed 255 before. */
    method DoMknod(e: Event) returns (r: Code)
      requires Valid() && e.Mknod? && Sensible(directories, dirs, nlink, e)
      modifies `dirs, `nlink, `wrapped
      ensures Valid() && Ok(old(dirs)[e.dir]) && MadeNode(old(Abs()), e, r, Abs())
      ensures r == Exists <==> Key(e.name) in Names(old(dirs)[e.dir])
      ensures r == Done || r == Exists || r == NoSpace
    {
      hide Names, Stored, Ok, Links, Total, Packed, Numbered;
      ghost var a := Abs();
      var x, ino := e.dir, e.ino;
      assert Ok(dirs[x]);
      var k := FindEntry(dirs[x], e.name);
      if k != -1 {
        return Exists;
      }
      if ino == 0 {
        return NoSpace;
      }
      assert Counted(directories, a, ino);
      var ok := Enter(x, e.name, ino, e.room);
      if !ok {
        nlink := nlink[ino := 0];
        Recounted(directories, a, Abs());
        return NoSpace;
      }
      nlink := nlink[ino := 1];
      if Total(a.dirs, ino, |a.dirs|) == 0 {
        wrapped := wrapped - {ino};
      }
      forall i | 0 < i < |nlink| ensures Counted(directories, Abs(), i) {
        assert Counted(directories, a, i);
      }
      return Done;
    }

    /** minix_link of the file ino. Its count stays right exactly when it was below 255. */
    method DoLink(e: Event) returns (r: Code)
      requires Valid() && e.Link? && Sensible(directories, dirs, nlink, e)
      modifies `dirs, `nlink, `wrapped
      ensures Valid() && Ok(old(dirs)[e.dir]) && Linked(directories, old(Abs()), e, r, Abs())
      ensures r == NotPermitted <==> e.ino in directories
      ensures r == Exists <==> e.ino !in directories && Key(e.name) in Names(old(dirs)[e.dir])
      ensures r != NoEntry
      ensures r == Done && e.ino !in old(wrapped) && e.ino < |nlink| ==>
                (nlink[e.ino] == Total(dirs, e.ino, |dirs|) <==> old(nlink)[e.ino] < 255)
    {
      hide Names, Stored, Ok, Links, Total, Packed, Numbered;
      ghost var a := Abs();
      var x, ino := e.dir, e.ino;
      assert Ok(dirs[x]);
      if ino in directories {
        return NotPermitted;
      }
      var k := FindEntry(dirs[x], e.name);
      if k != -1 {
        return Exists;
      }
      assert Counted(directories, a, ino);
      var ok := Enter(x, e.name, ino, e.room);
      if !ok {
        Recounted(directories, a, Abs());
        return NoSpace;
      }
      if nlink[ino] == 255 {
        wrapped := wrapped + {ino};
      }
      nlink := nlink[ino := LinkedOnce(nlink[ino])];
      forall i | 0 < i < |nlink| ensures Counted(directories, Abs(), i) {
        assert Counted(directories, a, i);
      }
      return Done;
    }

    /** minix_unlink; allowed stands for the test of the sticky bit. */
    method DoUnlink(e: Event) returns (r: Code)
      requires Valid() && e.Unlink? && Sensible(directories, dirs, nlink, e)
      modifies `dirs, `nlink
      ensures Valid() && Ok(old(dirs)[e.dir]) && Unlinked(directories, old(Abs()), e, r, Abs())
      ensures r == NoEntry <==> Key(e.name) !in Names(old(dirs)[e.dir])
      ensures r == NotPermitted <==> r != NoEntry && (!e.allowed || Names(old(dirs)[e.dir])[Key(e.name)] in directories)
    {
      hide Names, Stored, Ok, Links, Total, Packed;
      ghost var a := Abs();
      var x := e.dir;
      assert Ok(dirs[x]);
      var k := FindEntry(dirs[x], e.name);
      if k == -1 {
        return NoEntry;
      }
      var ino := At(dirs[x], k).inode;
      assert At(dirs[x], k).name == Key(e.name) && Live(dirs[x], k);
      assert Names(dirs[x])[Key(e.name)] == ino && Numbered(dirs[x], |nlink|);
      if !e.allowed || ino in directories {
        return NotPermitted;
      }
      Erase(x, k);
      nlink := nlink[ino := UnlinkedOnce(nlink[ino])];
      forall i | 0 < i < |nlink| ensures Counted(directories, Abs(), i) {
        assert Counted(directories, a, i);
      }
      return Done;
    }

    method Do(e: Event) returns (r: Code)
      requires Valid()
      modifies `dirs, `nlink, `wrapped
      ensures Valid() && Did(directories, old(Abs()), e, r, Abs())
    {
      hide MadeNode, Linked, Unlinked, Sound;
      r := NotPermitted;
      if Sensible(directories, dirs, nlink, e) {
        match e
        case Mknod(_, _, _, _) => r := DoMknod(e);
        case Link(_, _, _, _) => r := DoLink(e);
        case Unlink(_, _, _) => r := DoUnlink(e);
      }
    }

    /** Any run: each call inserts, deletes or refuses as its directory's map says and leaves the other directories
        alone; every directory stays a map with unique names; and a file's count is the number of its names unless a
        link found it at 255. */
    method Run(es: seq<Event>) returns (rs: seq<Code>, ghost trace: seq<Vol>)
      requires Valid()
      modifies `dirs, `nlink, `wrapped
      ensures |rs| == |es| && |trace| == |es| + 1 && trace[0] == old(Abs()) && trace[|es|] == Abs()
      ensures forall k :: 0 <= k < |es| ==> Did(directories, trace[k], es[k], rs[k], trace[k + 1])
      ensures forall k :: 0 <= k <= |es| ==> Sound(directories, trace[k])
      ensures forall i :: i in wrapped ==>
                i in old(wrapped) || exists k :: 0 <= k < |es| && Overruns(trace[k], es[k], rs[k], i)
      ensures |nlink| == |old(nlink)| && forall i :: 0 < i < |nlink| && i !in directories ==>
                i in wrapped || nlink[i] == Total(dirs, i, |dirs|)
    {
      hide Did, Sound, Overruns, Total;
      rs, trace := [], [Abs()];
      for n := 0 to |es|
        invariant Valid() && |rs| == n && |trace| == n + 1 && trace[0] == old(Abs()) && trace[n] == Abs()
        invariant |nlink| == |old(nlink)|
        invariant forall k :: 0 <= k < n ==> Did(directories, trace[k], es[k], rs[k], trace[k + 1])
        invariant forall k :: 0 <= k <= n ==> Sound(directories, trace[k])
        invariant forall i :: i in wrapped ==>
                    i in old(wrapped) || exists k :: 0 <= k < n && Overruns(trace[k], es[k], rs[k], i)
      {
        ghost var a := Abs();
        var r := Do(es[n]);
        WrapsBy(directories, a, es[n], r, Abs());
        ghost var was, tr := rs, trace;
        rs, trace := rs + [r], trace + [Abs()];
        forall i | i in wrapped
          ensures i in old(wrapped) || exists k :: 0 <= k < n + 1 && Overruns(trace[k], es[k], rs[k], i)
        {
          if i in a.wrapped {
            if i !in old(wrapped) {
              ghost var k :| 0 <= k < n && Overruns(tr[k], es[k], was[k], i);
              assert Overruns(trace[k], es[k], rs[k], i);
            }
          } else {
            assert Overruns(trace[n], es[n], rs[n], i);
          }
        }
      }
      forall i | 0 < i < |nlink| && i !in directories ensures i in wrapped || nlink[i] == Total(dirs, i, |dirs|) {
        CountedAt(directories, Abs(), i);
      }
    }

    /** The live entry k of directory x is freed. */
    method Erase(x: nat, k: int)
      requires Valid() && x < |dirs| && Live(dirs[x], k)
      modifies `dirs
      ensures |dirs| == |old(dirs)| && (forall y :: 0 <= y < |dirs| && y != x ==> dirs[y] == old(dirs)[y])
      ensures Ok(old(dirs)[x]) && Ok(dirs[x]) && Names(dirs[x]) == Names(old(dirs)[x]) - {At(old(dirs)[x], k).name}
      ensures forall i: nat :: i > 0 ==>
                Total(dirs, i, |dirs|) == Total(old(dirs), i, |dirs|) - if i == At(old(dirs)[x], k).inode then 1 else 0
    {
      hide Names, Stored, Links, Total;
      ghost var ino := At(dirs[x], k).inode;
      assert Ok(dirs[x]);
      var d' := SetInode(dirs[x], k, 0);
      assert Written(dirs[x], d', k, At(dirs[x], k).(inode := 0));
      LeaveLinks(x, d', k, At(dirs[x], k).(inode := 0), ino);
      forall i: nat | i > 0
        ensures Total(dirs[x := d'], i, |dirs|) == Total(dirs, i, |dirs|) - if i == ino then 1 else 0
      {
        TotalMoved(x, d', ino, -1, i);
      }
      DeleteKeeps(dirs[x], d', k);
      dirs := dirs[x := d'];
    }
  }

  lemma CountedAt(directories: set<nat>, v: Vol, i: nat)
    requires Sound(directories, v) && 0 < i < |v.nlink|
    ensures Counted(directories, v, i)
  {
  }

  /** A file leaves the rule only when a link finds its count at 255. */
  lemma WrapsBy(directories: set<nat>, a: Vol, e: Event, r: Code, b: Vol)
    requires Did(directories, a, e, r, b)
    ensures |b.nlink| == |a.nlink| && forall i :: i in b.wrapped && i !in a.wrapped ==> Overruns(a, e, r, i)
  {
    hide Names, Ok, Total;
  }

  /** Nothing has changed that counts. */
  lemma Recounted(directories: set<nat>, a: Vol, b: Vol)
    requires forall i :: 0 < i < |a.nlink| ==> Counted(directories, a, i)
    requires b.nlink == a.nlink && b.wrapped == a.wrapped && |b.dirs| == |a.dirs|
    requires forall i: nat :: i > 0 ==> Total(b.dirs, i, |b.dirs|) == Total(a.dirs, i, |a.dirs|)
    ensures forall i :: 0 < i < |b.nlink| ==> Counted(directories, b, i)
  {
    hide Total;
    forall i | 0 < i < |b.nlink| ensures Counted(directories, b, i) {
      assert Counted(directories, a, i);
    }
  }

  /** de->inode is set in the entry minix_add_entry handed out. */
  method Filled(d0: Dir, d: Dir, k: int, key: seq<Byte>, ino: nat) returns (d': Dir)
    requires Written(d0, d, k, Entry(0, key)) && |key| == NAME_LEN
    ensures Written(d0, d', k, Entry(ino, key)) && d'.size == d.size
  {
    d' := SetInode(d, k, ino);
  }

  method SetInode(d: Dir, k: int, ino: nat) returns (d': Dir)
    requires Shape(d) && 0 <= k < d.size
    ensures Shape(d') && d'.size == d.size && At(d', k) == At(d, k).(inode := ino)
    ensures forall j :: 0 <= j && j != k ==> At(d', j) == At(d, j)
  {
    var b, o := k / PER_BLOCK, k % PER_BLOCK;
    d' := d.(blocks := d.blocks[b := d.blocks[b][o := d.blocks[b][o].(inode := ino)]]);
    forall j | 0 <= j && j != k ensures At(d', j) == At(d, j) {
      SamePlace(j, k);
    }
  }
}

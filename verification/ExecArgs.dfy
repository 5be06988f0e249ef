/** copy_strings, the page placement of change_ldt, and create_tables (fs/exec.c): a new program reads from its
    argv and envp exactly the strings it was given. */
module ExecArgs {
  import opened Basics
  import opened ExecModel

  class ArgPages {
    var pages: seq<seq<Byte>>
    var free: nat                   // pages get_free_page can still hand out

    constructor (available: nat)
      ensures PagesOk(pages) && Pool() == available && Space(pages) == seq(ARG_SPACE, _ => 0)
      ensures UpTo(pages, ARG_SPACE - 4)
    {
      pages := seq(MAX_ARG_PAGES, _ => []);
      free := available;
      new;
      NoneTaken(pages, |pages|);
    }

    /** Pages taken and pages still to be had. */
    function Pool(): nat
      reads this
    {
      free + Taken(pages, |pages|)
    }

    /** One byte goes to p. offset and page are carried from byte to byte: while offset is not below zero they are
        p's place in the page last written to. */
    method PutByte(p: nat, offset: int, page: int, c: Byte) returns (ok: bool, offset': int, page': int)
      requires PagesOk(pages) && p < ARG_SPACE
      requires offset >= 0 ==> page == p / PAGE_SIZE && offset == p % PAGE_SIZE && |pages[page]| == PAGE_SIZE
      modifies this
      ensures PagesOk(pages)
      ensures ok ==> Space(pages) == old(Space(pages))[p := c]
      ensures ok ==> page' == p / PAGE_SIZE && offset' == p % PAGE_SIZE && |pages[page']| == PAGE_SIZE
      ensures !ok ==> pages == old(pages) && Pool() < MAX_ARG_PAGES
      ensures ok ==> |old(pages)| == MAX_ARG_PAGES && forall i :: 0 <= i < MAX_ARG_PAGES ==>
                (pages[i] != [] <==> old(pages)[i] != [] || i == p / PAGE_SIZE)
      ensures !ok ==> old(pages)[p / PAGE_SIZE] == [] && old(free) == 0
      ensures Pool() == old(Pool())
    {
      ghost var was := pages;
      offset', page', ok := offset, page, true;
      TakenChanges(pages, p / PAGE_SIZE, [0], |pages|);
      if offset < 0 {
        offset', page' := p % PAGE_SIZE, p / PAGE_SIZE;
        if |pages[page']| == 0 {
          if free == 0 {
            return false, offset', page';
          }
          free := free - 1;
          pages := pages[page' := seq(PAGE_SIZE, _ => 0)];
        }
      }
      var written: seq<Byte> := pages[page'][offset' := c];
      pages := pages[page' := written];
      ByteWritten(was, pages, p, c);
      TakenChanges(was, page', written, |was|);
    }

    lemma PoolIs(p: nat)
      requires UpTo(pages, p)
      ensures Pool() == free + PagesFor(p)
    {
      TakenUpTo(pages, p, |pages|);
    }

    /** offset and page are not in use yet, or they are p's place in a page that has been taken. */
    predicate Placed(p: nat, offset: int, page: int, started: bool)
      reads this
    {
      if started then
        page == p / PAGE_SIZE && offset == p % PAGE_SIZE && 0 <= page < |pages| && |pages[page]| == PAGE_SIZE
      else offset == 0
    }

    /** One string with its zero byte, from its end. If it is longer than what is left, its last bytes fill that, and
        the next one would go below the first page. */
    method CopyOne(text: seq<Byte>, top: nat, offset0: int, page0: int, ghost started0: bool)
      returns (fate: Fate, p: nat, offset: int, page: int, ghost started: bool)
      requires PagesOk(pages) && top <= ARG_SPACE && Placed(top, offset0, page0, started0)
      modifies this
      ensures PagesOk(pages) && Pool() == old(Pool())
      ensures fate.Through? ==> |text| <= top && p == top - |text|
      ensures fate.Through? ==> Copied(old(Space(pages)), Space(pages), p, top, text)
      ensures fate.Through? ==> Placed(p, offset, page, started)
      ensures fate.NoPage? ==> Pool() < MAX_ARG_PAGES && top - |text| <= p < top
      ensures fate.Overrun? ==> |text| > top && p == 0
      ensures fate.Overrun? ==> Copied(old(Space(pages)), Space(pages), 0, top, text[|text| - top..])
      ensures UpTo(old(pages), top) && !fate.NoPage? ==> UpTo(pages, p) && Pool() >= PagesFor(p)
      ensures UpTo(old(pages), top) && fate.NoPage? ==> Pool() < PagesFor(p)
    {
      hide PagesOk, Space, Taken, UpTo, PagesFor;
      ghost var was := Space(pages);
      if UpTo(pages, top) { PoolIs(top); }
      fate, p, offset, page, started := Through, top, offset0, page0, started0;
      var len := |text|;
      assert text[len..] == [];
      while len > 0
        invariant PagesOk(pages) && Pool() == old(Pool()) && 0 <= len <= |text| && |text| - len <= top
        invariant p == top - (|text| - len) && fate.Through?
        invariant Copied(was, Space(pages), p, top, text[len..]) && Placed(p, offset, page, started)
        invariant UpTo(old(pages), top) ==> UpTo(pages, p) && Pool() >= PagesFor(p)
      {
        if p == 0 {
          return Overrun, 0, offset, page, started;
        }
        ghost var now, before := Space(pages), pages;
        if UpTo(pages, p) { PoolIs(p); }
        p, len, offset := p - 1, len - 1, offset - 1;
        PageOf(pages, p, offset, page, started);
        var ok;
        ok, offset, page := PutByte(p, offset, page, text[len]);
        if UpTo(before, p + 1) {
          if ok {
            UpToNext(before, pages, p + 1);
            PoolIs(p);
          } else {
            NotTaken(before, p + 1);
          }
        }
        if !ok {
          return NoPage, p, offset, page, started;
        }
        started := true;
        CopiedMore(was, now, Space(pages), p, top, text[len + 1..], text[len]);
        assert text[len..] == [text[len]] + text[len + 1..];
      }
      assert text[0..] == text;
    }

    /** copy_strings: the last string first, each from its end, downwards from top; 0 when top is 0 or no page can be
        had. The copy stays within the pages if and only if the strings fit; else, if pages last, it fills them from
        top down to 0 with the last bytes of the strings and goes on below. */
    method CopyStrings(ss: seq<seq<Byte>>, top: nat) returns (p: nat, over: bool)
      requires PagesOk(pages) && top <= ARG_SPACE
      modifies this
      ensures PagesOk(pages) && Pool() == old(Pool())
      ensures over ==> Size(ss) > top > 0
      ensures over ==> Copied(old(Space(pages)), Space(pages), 0, top, Packed(ss)[Size(ss) - top..])
      ensures !over && p != 0 ==> p == top - Size(ss) && Copied(old(Space(pages)), Space(pages), p, top, Packed(ss))
      ensures !over && p == 0 ==> Pool() < MAX_ARG_PAGES || top == Size(ss) || top == 0
      ensures Pool() >= MAX_ARG_PAGES && top > 0 ==> (over <==> Size(ss) > top)
      ensures UpTo(old(pages), top) ==> (over <==> Size(ss) > top > 0 && Pool() >= MAX_ARG_PAGES)
      ensures UpTo(old(pages), top) ==> (p > 0 <==> Size(ss) < top && Pool() >= PagesFor(top - Size(ss)))
      ensures UpTo(old(pages), top) && p > 0 ==> UpTo(pages, p)
    {
      hide Packed, PagesOk, Space, Taken, Copied, UpTo, PagesFor;
      ghost var was := Space(pages);
      if UpTo(pages, top) { PoolIs(top); }
      p, over := top, false;
      if p == 0 {
        return;
      }
      var argc := |ss|;
      var offset, page := 0, -1;
      ghost var started := false;
      assert ss[..argc] == ss && ss[argc..] == [];
      NothingPacked();
      CopiedNone(was, top);
      while argc > 0
        invariant PagesOk(pages) && Pool() == old(Pool()) && 0 <= argc <= |ss|
        invariant |Packed(ss[argc..])| <= top && p == top - |Packed(ss[argc..])|
        invariant Copied(was, Space(pages), p, top, Packed(ss[argc..])) && Placed(p, offset, page, started)
        invariant UpTo(old(pages), top) ==> UpTo(pages, p) && Pool() >= PagesFor(p)
      {
        argc := argc - 1;
        Peel(ss, argc);
        ghost var now, mid := Space(pages), p;
        var fate;
        fate, p, offset, page, started := CopyOne(ss[argc] + [0], p, offset, page, started);
        SuffixSize(ss, argc);
        PagesForLess(0, p);
        if Size(ss) <= top && fate.NoPage? { PagesForLess(top - Size(ss), p); }
        if fate.NoPage? {
          return 0, false;
        }
        if fate.Overrun? {
          ghost var tail := (ss[argc] + [0])[|ss[argc]| + 1 - mid..];
          CopiedTwice(was, now, Space(pages), 0, mid, top, tail, Packed(ss[argc + 1..]));
          LastBytes(ss, argc, mid, top);
          return 0, true;
        }
        CopiedTwice(was, now, Space(pages), p, mid, top, ss[argc] + [0], Packed(ss[argc + 1..]));
      }
      assert ss[0..] == ss;
    }
  }

  /** The table at `table` points at the strings in turn and ends with 0. */
  ghost predicate Points(mem: seq<Byte>, table: int, ss: seq<seq<Byte>>) {
    (forall k :: 0 <= k < |ss| ==> StringAt(mem, Long(mem, table + 4 * k), ss[k])) && Long(mem, table + 4 * |ss|) == 0
  }

  class UserSpace {
    var mem: seq<Byte>

    constructor ()
      ensures |mem| == STACK_TOP && mem == seq(STACK_TOP, _ => 0)
    {
      mem := seq(STACK_TOP, _ => 0);
    }

    /** The loop of change_ldt: the argument pages, the last first, fill the top of a fresh address space. */
    method PlacePages(pages: seq<seq<Byte>>)
      requires PagesOk(pages) && mem == seq(STACK_TOP, _ => 0)
      modifies this
      ensures |mem| == STACK_TOP && mem[ARG_BASE..] == Space(pages)
    {
      var i, base := MAX_ARG_PAGES, STACK_TOP;
      while i > 0
        invariant 0 <= i <= MAX_ARG_PAGES && base == ARG_BASE + i * PAGE_SIZE && |mem| == STACK_TOP
        invariant forall b :: base <= b < STACK_TOP ==> mem[b] == ByteAt(pages, b - ARG_BASE)
        invariant forall b :: 0 <= b < base ==> mem[b] == 0
      {
        i := i - 1;
        base := base - PAGE_SIZE;
        if |pages[i]| != 0 {
          mem := mem[..base] + pages[i] + mem[base + PAGE_SIZE..];
        }
        forall b | base <= b < base + PAGE_SIZE ensures mem[b] == ByteAt(pages, b - ARG_BASE) {
          InPage(b - ARG_BASE, i);
        }
      }
    }

    /** One of create_tables' loops: pointers to the strings from p on go into the table, which lies below them. */
    method PutPointers(table: nat, p0: nat, n: nat, ghost low: nat, ghost ss: seq<seq<Byte>>) returns (p: nat)
      requires |mem| == STACK_TOP && n == |ss| && table + 4 * n + 4 <= low <= p0 && p0 + Size(ss) <= STACK_TOP
      requires mem[p0..p0 + Size(ss)] == Packed(ss) && forall k :: 0 <= k < n ==> NulFree(ss[k])
      modifies this
      ensures |mem| == STACK_TOP && p == p0 + Size(ss) && mem[low..] == old(mem)[low..] && Points(mem, table, ss)
      ensures forall k :: 0 <= k < n ==> p0 <= Long(mem, table + 4 * k)
      ensures forall b :: 0 <= b && (b + 4 <= table || table + 4 * n + 4 <= b) ==> Long(mem, b) == Long(old(mem), b)
    {
      hide Packed, Long, PutLong;
      p := p0;
      var k := 0;
      assert ss[..0] == [];
      NothingPacked();
      while k < n
        invariant 0 <= k <= n && |mem| == STACK_TOP && p == p0 + Size(ss[..k]) && mem[low..] == old(mem)[low..]
        invariant forall j :: 0 <= j < k ==> Long(mem, table + 4 * j) == p0 + Size(ss[..j])
        invariant forall b :: 0 <= b && (b + 4 <= table || table + 4 * k <= b) ==> Long(mem, b) == Long(old(mem), b)
      {
        ghost var was := mem;
        Same(old(mem), mem, low, p0, ss);
        PackedString(mem, p0, ss, k);
        mem := PutLong(mem, table + 4 * k, p);
        PutAbove(was, table + 4 * k, p, low);
        forall b ensures b == table + 4 * k ==> Long(mem, b) == p
          ensures 0 <= b && (b + 4 <= table + 4 * k || table + 4 * k + 4 <= b) ==> Long(mem, b) == Long(was, b)
        {
          PutGet(was, table + 4 * k, p, b);
        }
        Same(old(mem), mem, low, p0, ss);
        PackedString(mem, p0, ss, k);
        p := SkipString(p, ss[k]);
        k := k + 1;
      }
      ghost var was := mem;
      mem := PutLong(mem, table + 4 * n, 0);
      PutAbove(was, table + 4 * n, 0, low);
      forall b ensures b == table + 4 * n ==> Long(mem, b) == 0
        ensures 0 <= b && (b + 4 <= table + 4 * n || table + 4 * n + 4 <= b) ==> Long(mem, b) == Long(was, b)
      {
        PutGet(was, table + 4 * n, 0, b);
      }
      Same(old(mem), mem, low, p0, ss);
      forall j | 0 <= j < n ensures StringAt(mem, Long(mem, table + 4 * j), ss[j]) && p0 <= Long(mem, table + 4 * j) {
        PackedString(mem, p0, ss, j);
        assert Long(mem, table + 4 * j) == p0 + Size(ss[..j]);
      }
      assert ss[..n] == ss;
    }

    /** create_tables: below the strings, aligned, argc, argv and envp and the two tables. */
    method CreateTables(p0: nat, ghost args: seq<seq<Byte>>, ghost envs: seq<seq<Byte>>, argc: nat, envc: nat)
      returns (sp: nat)
      requires |mem| == STACK_TOP && argc == |args| && envc == |envs| && ARG_BASE <= p0
      requires p0 + Size(args + envs) <= STACK_TOP && mem[p0..p0 + Size(args + envs)] == Packed(args + envs)
      requires forall s :: s in args + envs ==> NulFree(s)
      modifies this
      ensures |mem| == STACK_TOP && Started(mem, sp, p0, args, envs) && mem[p0..] == old(mem)[p0..]
    {
      hide Packed, Long, PutLong, Points;
      CountFits(args + envs);
      PackedConcat(args, envs);
      SplitPacked(mem, p0, args, envs);
      ghost var was := mem;
      sp := p0 - p0 % 4;
      sp := sp - 4 * (envc + 1);
      var envp := sp;
      sp := sp - 4 * (argc + 1);
      var argv := sp;
      PutThree(sp - 12, argc, argv, envp, p0);
      sp := sp - 12;
      ghost var m1 := mem;
      Same(was, m1, p0, p0, args);
      Same(was, m1, p0, p0 + Size(args), envs);
      var p := PutPointers(argv, p0, argc, p0, args);
      ghost var m2 := mem;
      Same(m1, m2, p0, p0 + Size(args), envs);
      p := PutPointers(envp, p, envc, p0, envs);
      assert Long(mem, sp) == argc && Long(mem, sp + 4) == argv && Long(mem, sp + 8) == envp;
      PointsStill(m2, mem, argv, args, p0);
      Aligned(p0, argc + envc);
    }

    method PutThree(sp: nat, a: nat, b: nat, c: nat, ghost low: nat)
      requires |mem| == STACK_TOP && sp + 12 <= low <= STACK_TOP && a < STACK_TOP && b < STACK_TOP && c < STACK_TOP
      modifies this
      ensures |mem| == STACK_TOP && mem[low..] == old(mem)[low..]
      ensures Long(mem, sp) == a && Long(mem, sp + 4) == b && Long(mem, sp + 8) == c
    {
      hide Long, PutLong;
      ghost var m0 := mem;
      mem := PutLong(mem, sp + 8, c);
      ghost var m1 := mem;
      mem := PutLong(mem, sp + 4, b);
      ghost var m2 := mem;
      mem := PutLong(mem, sp, a);
      PutAbove(m0, sp + 8, c, low);
      PutAbove(m1, sp + 4, b, low);
      PutAbove(m2, sp, a, low);
      PutGet(m0, sp + 8, c, sp + 8);
      PutGet(m1, sp + 4, b, sp + 8);
      PutGet(m1, sp + 4, b, sp + 4);
      PutGet(m2, sp, a, sp + 8);
      PutGet(m2, sp, a, sp + 4);
      PutGet(m2, sp, a, sp);
    }

    /** The scan for the zero byte that ends a string. */
    method SkipString(p0: nat, ghost s: seq<Byte>) returns (p: nat)
      requires StringAt(mem, p0, s) && NulFree(s)
      ensures p == p0 + |s| + 1
    {
      forall i | p0 <= i < p0 + |s| ensures mem[i] != 0 {
        assert mem[i] == mem[p0..p0 + |s|][i - p0];
      }
      p := p0;
      while mem[p] != 0
        invariant p0 <= p <= p0 + |s|
        decreases p0 + |s| - p
      {
        p := p + 1;
      }
      p := p + 1;
    }
  }

  /** What the new program finds at its stack pointer: argc, argv and envp, whose tables read back the strings in
      order; all of it aligned and below the strings at p. */
  ghost predicate Started(mem: seq<Byte>, sp: nat, p: nat, args: seq<seq<Byte>>, envs: seq<seq<Byte>>) {
    var argv, envp := Long(mem, sp + 4), Long(mem, sp + 8);
    sp % 4 == 0 && Long(mem, sp) == |args| && argv == sp + 12 && envp == argv + 4 * (|args| + 1) &&
    envp + 4 * (|envs| + 1) <= p && Points(mem, argv, args) && Points(mem, envp, envs)
  }

  lemma Aligned(p: nat, n: nat)
    ensures (p - p % 4 - 4 * n - 20) % 4 == 0
  {
  }

  lemma {:induction false} CountFits(ss: seq<seq<Byte>>)
    ensures |ss| <= Size(ss)
  {
    if ss != [] { CountFits(ss[..|ss| - 1]); }
  }

  lemma SplitPacked(mem: seq<Byte>, p: nat, a: seq<seq<Byte>>, b: seq<seq<Byte>>)
    requires Packed(a + b) == Packed(a) + Packed(b)
    requires p + Size(a + b) <= |mem| && mem[p..p + Size(a + b)] == Packed(a + b)
    ensures mem[p..p + Size(a)] == Packed(a) && mem[p + Size(a)..p + Size(a) + Size(b)] == Packed(b)
  {
    hide Packed;
    var w := mem[p..p + Size(a + b)];
    assert w[..Size(a)] == Packed(a) && w[Size(a)..] == Packed(b);
  }

  /** Writing elsewhere below the strings leaves a finished table good. */
  lemma PointsStill(was: seq<Byte>, now: seq<Byte>, table: nat, ss: seq<seq<Byte>>, low: nat)
    requires |was| == |now| && low <= |was| && now[low..] == was[low..] && Points(was, table, ss)
    requires forall k :: 0 <= k <= |ss| ==> Long(now, table + 4 * k) == Long(was, table + 4 * k)
    requires forall k :: 0 <= k < |ss| ==> low <= Long(was, table + 4 * k)
    ensures Points(now, table, ss)
  {
    hide Long;
    forall k | 0 <= k < |ss| ensures StringAt(now, Long(now, table + 4 * k), ss[k]) {
      var a := Long(was, table + 4 * k);
      assert StringAt(was, a, ss[k]) && low <= a && Long(now, table + 4 * k) == a;
      StringStill(was, now, low, a, ss[k]);
    }
  }

  lemma StringStill(was: seq<Byte>, now: seq<Byte>, low: nat, a: nat, s: seq<Byte>)
    requires |was| == |now| && low <= a && low <= |was| && now[low..] == was[low..] && StringAt(was, a, s)
    ensures StringAt(now, a, s)
  {
    Slices(now, low, a, a + |s|);
    Slices(was, low, a, a + |s|);
    Slices(now, low, low, a);
    Slices(was, low, low, a);
    assert now[a..] == was[a..];
    assert now[a + |s|] == now[a..][|s|] && was[a + |s|] == was[a..][|s|];
  }

  lemma InPage(a: nat, i: nat)
    requires i * PAGE_SIZE <= a < (i + 1) * PAGE_SIZE
    ensures a / PAGE_SIZE == i && a % PAGE_SIZE == a - i * PAGE_SIZE
  {
  }

  lemma NothingPacked()
    ensures Packed([]) == [] && Size([]) == 0
  {
  }

  lemma Same(was: seq<Byte>, now: seq<Byte>, low: nat, p: nat, ss: seq<seq<Byte>>)
    requires |was| == |now| && low <= p && p + Size(ss) <= |was|
    requires now[low..] == was[low..] && was[p..p + Size(ss)] == Packed(ss)
    ensures now[p..p + Size(ss)] == Packed(ss)
  {
  }

  /** The bytes from p up to top are w, all others as in `was`. */
  ghost predicate Copied(was: seq<Byte>, now: seq<Byte>, p: nat, top: nat, w: seq<Byte>) {
    |was| == |now| && p <= top <= |now| && now[p..top] == w && now[..p] == was[..p] && now[top..] == was[top..]
  }

  lemma {:induction false} NoneTaken(pages: seq<seq<Byte>>, n: nat)
    requires n <= |pages| && forall i :: 0 <= i < n ==> pages[i] == []
    ensures Taken(pages, n) == 0
  {
    if n > 0 { NoneTaken(pages, n - 1); }
  }

  /** The two copies together: argv's strings, then envp's, from p up to the last word. */
  lemma Gathered(s1: seq<Byte>, s2: seq<Byte>, mem: seq<Byte>, p: nat, args: seq<seq<Byte>>, envs: seq<seq<Byte>>)
    requires |s1| == |s2| == ARG_SPACE && |mem| == STACK_TOP && mem[ARG_BASE..] == s2
    requires Size(args) + Size(envs) <= ARG_SPACE - 4 && p == ARG_SPACE - 4 - Size(envs) - Size(args)
    requires Copied(s1, s2, p, p + Size(args), Packed(args)) && s1[p + Size(args)..ARG_SPACE - 4] == Packed(envs)
    ensures Size(args + envs) == Size(args) + Size(envs)
    ensures mem[ARG_BASE + p..ARG_BASE + p + Size(args + envs)] == Packed(args + envs)
  {
    PackedConcat(args, envs);
    hide Packed;
    var m, n := p + Size(args), ARG_SPACE - 4;
    assert s2[m..n] == s2[m..][..n - m] == s1[m..][..n - m] == s1[m..n];
    assert s2[p..n] == s2[p..m] + s2[m..n];
    assert mem[ARG_BASE + p..ARG_BASE + n] == mem[ARG_BASE..][p..n];
  }

  lemma CopiedTwice(was: seq<Byte>, now: seq<Byte>, next: seq<Byte>, p: nat, mid: nat, top: nat, u: seq<Byte>,
                    w: seq<Byte>)
    requires Copied(was, now, mid, top, w) && Copied(now, next, p, mid, u)
    ensures Copied(was, next, p, top, u + w)
  {
    Slices(next, p, mid, top);
    Slices(now, p, mid, top);
    Slices(was, p, mid, top);
  }

  lemma Slices(s: seq<Byte>, p: nat, mid: nat, top: nat)
    requires p <= mid <= top <= |s|
    ensures s[p..top] == s[p..mid] + s[mid..top] && s[..p] == s[..mid][..p]
    ensures s[mid..top] == s[mid..][..top - mid] && s[top..] == s[mid..][top - mid..]
  {
  }

  lemma CopiedNone(was: seq<Byte>, top: nat)
    requires top <= |was|
    ensures Copied(was, was, top, top, [])
  {
  }

  /** What fills the space when string k does not fit into the mid bytes that are left. */
  lemma LastBytes(ss: seq<seq<Byte>>, k: nat, mid: nat, top: nat)
    requires k < |ss| && mid + |Packed(ss[k + 1..])| == top && mid < |ss[k]| + 1
    ensures Size(ss) > top
    ensures (ss[k] + [0])[|ss[k]| + 1 - mid..] + Packed(ss[k + 1..]) == Packed(ss)[Size(ss) - top..]
  {
    hide Packed;
    PackedSplit(ss, k);
    Tail(Packed(ss[..k]), ss[k] + [0], Packed(ss[k + 1..]), mid);
  }

  lemma Tail(u: seq<Byte>, w: seq<Byte>, v: seq<Byte>, mid: nat)
    requires mid <= |w|
    ensures w[|w| - mid..] + v == (u + w + v)[|u + w + v| - (mid + |v|)..]
  {
  }

  lemma Peel(ss: seq<seq<Byte>>, k: nat)
    requires k < |ss|
    ensures Packed(ss[k..]) == (ss[k] + [0]) + Packed(ss[k + 1..])
    ensures |Packed(ss[..k + 1])| == |Packed(ss[..k])| + |ss[k]| + 1
  {
    PackedSplit(ss, k);
    var r := ss[k..];
    assert r[0] == ss[k] && r[1..] == ss[k + 1..] && r[..0] == [];
    PackedSplit(r, 0);
    assert Packed([]) + (r[0] + [0]) == r[0] + [0];
  }

  lemma SuffixSize(ss: seq<seq<Byte>>, k: nat)
    requires k <= |ss|
    ensures |Packed(ss[k..])| <= Size(ss)
  {
    PackedConcat(ss[..k], ss[k..]);
    assert ss[..k] + ss[k..] == ss;
  }

  lemma CopiedMore(was: seq<Byte>, now: seq<Byte>, next: seq<Byte>, p: nat, top: nat, w: seq<Byte>, c: Byte)
    requires p + 1 <= top <= |now| && Copied(was, now, p + 1, top, w) && next == now[p := c]
    ensures Copied(was, next, p, top, [c] + w)
  {
    assert next[p..top] == [c] + now[p + 1..top];
  }

  lemma PageOf(pages: seq<seq<Byte>>, p: nat, offset: int, page: int, started: bool)
    requires PagesOk(pages) && p < ARG_SPACE
    requires started ==> page == (p + 1) / PAGE_SIZE && offset + 1 == (p + 1) % PAGE_SIZE
    requires started ==> 0 <= page < |pages| && |pages[page]| == PAGE_SIZE
    requires !started ==> offset == -1
    ensures |pages| == MAX_ARG_PAGES
    ensures offset >= 0 ==> page == p / PAGE_SIZE && offset == p % PAGE_SIZE
    ensures offset >= 0 ==> 0 <= page < |pages| && |pages[page]| == PAGE_SIZE
  {
  }

  /** do_execve's handling of the argument and environment strings: envp is copied first, argv below it, the pages
      go to the top of the new address space and the tables below them. The new program gets its strings if and only
      if they fit with a byte to spare and there are pages for them; when they are longer and all pages can be had the
      copy overruns them, unless envp alone ends exactly at 0, which like a full space is taken for want of memory. */
  method Execve(args: seq<seq<Byte>>, envs: seq<seq<Byte>>, available: nat)
    returns (fate: Fate, user: UserSpace, sp: nat)
    requires forall s :: s in args + envs ==> NulFree(s)
    ensures fate.Through? ==>
              exists p :: ARG_BASE < p < STACK_TOP && |user.mem| == STACK_TOP && Started(user.mem, sp, p, args, envs)
    ensures fate.Through? <==> Size(args) + Size(envs) < ARG_SPACE - 4 &&
                               available >= PagesFor(ARG_SPACE - 4 - Size(args) - Size(envs))
    ensures fate.Overrun? <==> Size(args) + Size(envs) > ARG_SPACE - 4 && Size(envs) != ARG_SPACE - 4 &&
                               available >= MAX_ARG_PAGES
  {
    hide Packed, PagesOk, Space, Taken, Started, UpTo, PagesFor;
    var room := ARG_SPACE - 4;
    PagesForLess(0, room);
    if Size(args) + Size(envs) < room { PagesForLess(room - Size(args) - Size(envs), room - Size(envs)); }
    var a := new ArgPages(available);
    user := new UserSpace();
    sp := 0;
    var p, over := a.CopyStrings(envs, ARG_SPACE - 4);
    if over {
      return Overrun, user, 0;
    }
    ghost var s1 := Space(a.pages);
    if p != 0 {
      p, over := a.CopyStrings(args, p);
      if over {
        return Overrun, user, 0;
      }
    }
    if p == 0 {
      return NoPage, user, 0;
    }
    user.PlacePages(a.pages);
    Gathered(s1, Space(a.pages), user.mem, p, args, envs);
    sp := user.CreateTables(p + TASK_SIZE - LIBRARY_SIZE - MAX_ARG_PAGES * PAGE_SIZE, args, envs, |args|, |envs|);
    fate := Through;
  }
}

/** Argument strings, four-byte words in memory, and the pages strings are gathered in (fs/exec.c). */
module ExecModel {
  import opened Basics

  const ARG_SPACE: nat := PAGE_SIZE * MAX_ARG_PAGES
  const TASK_SIZE: nat := 0x400_0000
  const LIBRARY_SIZE: nat := 0x40_0000
  const STACK_TOP: nat := TASK_SIZE - LIBRARY_SIZE
  const ARG_BASE: nat := STACK_TOP - ARG_SPACE

  // ---------------------------------------------------------------- strings

  /** The strings one after the other, each with its zero byte. */
  function Packed(ss: seq<seq<Byte>>): seq<Byte> {
    if ss == [] then [] else Packed(ss[..|ss| - 1]) + (ss[|ss| - 1] + [0])
  }

  /** The bytes of a string with its zero byte. */
  function Size(ss: seq<seq<Byte>>): nat {
    |Packed(ss)|
  }

  lemma {:induction false} PackedConcat(a: seq<seq<Byte>>, b: seq<seq<Byte>>)
    ensures Packed(a + b) == Packed(a) + Packed(b)
    decreases |b|
  {
    if b == [] {
      assert a + b == a;
    } else {
      var k := |b| - 1;
      PackedConcat(a, b[..k]);
      assert (a + b)[..|a + b| - 1] == a + b[..k];
      assert Packed(a + b) == Packed(a + b[..k]) + (b[k] + [0]);
      assert Packed(a) + (Packed(b[..k]) + (b[k] + [0])) == Packed(a) + Packed(b[..k]) + (b[k] + [0]);
    }
  }

  /** String s, NUL and all, stands at address a. */
  predicate StringAt(mem: seq<Byte>, a: int, s: seq<Byte>) {
    0 <= a && a + |s| < |mem| && mem[a..a + |s|] == s && mem[a + |s|] == 0
  }

  /** At most one string without zero bytes stands at an address: what a reader finds there is what was put. */
  lemma StringIsOne(mem: seq<Byte>, a: int, s: seq<Byte>, t: seq<Byte>)
    requires StringAt(mem, a, s) && StringAt(mem, a, t) && NulFree(s) && NulFree(t)
    ensures s == t
  {
  }

  /** String number k of the packed strings begins where the ones before it end. */
  lemma PackedString(mem: seq<Byte>, p: nat, ss: seq<seq<Byte>>, k: nat)
    requires k < |ss| && p + Size(ss) <= |mem| && mem[p..p + Size(ss)] == Packed(ss)
    ensures Size(ss[..k]) + |ss[k]| + 1 == Size(ss[..k + 1]) <= Size(ss)
    ensures StringAt(mem, p + Size(ss[..k]), ss[k])
  {
    hide Packed;
    PackedSplit(ss, k);
    var u, v := Packed(ss[..k]), Packed(ss[k + 1..]);
    Window(mem, p, u, ss[k] + [0], v);
    EndsWithZero(mem, p + |u|, ss[k]);
  }

  lemma EndsWithZero(mem: seq<Byte>, a: nat, s: seq<Byte>)
    requires a + |s| + 1 <= |mem| && mem[a..a + (|s| + 1)] == s + [0]
    ensures StringAt(mem, a, s)
  {
    var w := mem[a..a + (|s| + 1)];
    assert mem[a + |s|] == w[|s|];
    assert mem[a..a + |s|] == w[..|s|];
  }

  lemma PackedSplit(ss: seq<seq<Byte>>, k: nat)
    requires k < |ss|
    ensures Packed(ss) == Packed(ss[..k]) + (ss[k] + [0]) + Packed(ss[k + 1..])
    ensures Packed(ss[..k + 1]) == Packed(ss[..k]) + (ss[k] + [0])
  {
    hide Packed;
    Halves(ss, k);
    PackedLast(ss[..k + 1]);
    PackedConcat(ss[..k + 1], ss[k + 1..]);
  }

  lemma Halves(ss: seq<seq<Byte>>, k: nat)
    requires k < |ss|
    ensures ss[..k + 1] + ss[k + 1..] == ss && ss[..k + 1][..|ss[..k + 1]| - 1] == ss[..k]
    ensures ss[..k + 1][|ss[..k + 1]| - 1] == ss[k]
  {
  }

  lemma PackedLast(ss: seq<seq<Byte>>)
    requires ss != []
    ensures Packed(ss) == Packed(ss[..|ss| - 1]) + (ss[|ss| - 1] + [0])
  {
  }

  lemma Window(mem: seq<Byte>, p: nat, u: seq<Byte>, w: seq<Byte>, v: seq<Byte>)
    requires p + |u + w + v| <= |mem| && mem[p..p + |u + w + v|] == u + w + v
    ensures mem[p + |u|..p + |u| + |w|] == w
  {
    var m := mem[p..p + |u + w + v|];
    forall i | 0 <= i < |w| ensures mem[p + |u|..p + |u| + |w|][i] == w[i] {
      assert m[|u| + i] == w[i];
    }
  }

  // ---------------------------------------------------------------- the test that never fires

  /** How copy_strings fares: all copied; no page to be had; or at p == 0 with bytes left to copy. */
  datatype Fate = Through | NoPage | Overrun

  /** Arithmetic on an unsigned long. */
  function Unsigned(x: int): (u: nat)
    ensures u < 0x1_0000_0000
  {
    x % 0x1_0000_0000
  }

  /** copy_strings means to stop when the string is longer than what is left, but its test asks whether an unsigned
      difference is negative, so it passes every string. One byte further down from p == 0 is the top of all memory,
      whose page number is far outside the table of 32. */
  lemma NeverTooLong(p: nat, len: nat)
    ensures !(Unsigned(p - len) < 0)
    ensures Unsigned(0 - 1) / PAGE_SIZE == 0xFFFFF > MAX_ARG_PAGES
  {
  }

  /** One string that does not fit. */
  lemma LongString()
    ensures Size([seq<Byte>(ARG_SPACE, _ => 97)]) > ARG_SPACE - 4 && NulFree(seq<Byte>(ARG_SPACE, _ => 97))
  {
    var s: seq<Byte> := seq<Byte>(ARG_SPACE, _ => 97);
    assert [s][..0] == [] && Packed([s]) == Packed([]) + (s + [0]);
  }

  // ---------------------------------------------------------------- words

  /** A long as the processor stores it, low byte first. */
  function Bytes4(v: nat): (b: seq<Byte>)
    ensures |b| == 4
  {
    [v % 256, v / 256 % 256, v / 65536 % 256, v / 16777216 % 256]
  }

  function Word(a: nat, b: nat, c: nat, d: nat): nat {
    a + 256 * b + 65536 * c + 16777216 * d
  }

  function Long(mem: seq<Byte>, a: int): nat {
    if 0 <= a && a + 4 <= |mem| then Word(mem[a], mem[a + 1], mem[a + 2], mem[a + 3]) else 0
  }

  /** Low byte first. */
  lemma LongIs(mem: seq<Byte>, a: nat)
    requires a + 4 <= |mem|
    ensures Long(mem, a) == mem[a] as int + 0x100 * (mem[a + 1] as int) + 0x10000 * (mem[a + 2] as int) +
                            0x1000000 * (mem[a + 3] as int)
  {
  }

  function PutLong(mem: seq<Byte>, a: nat, v: nat): (m: seq<Byte>)
    requires a + 4 <= |mem|
    ensures |m| == |mem|
  {
    mem[..a] + Bytes4(v) + mem[a + 4..]
  }

  lemma LongBack(v: nat)
    requires v < 0x1_0000_0000
    ensures Word(v % 256, v / 256 % 256, v / 65536 % 256, v / 16777216 % 256) == v
  {
    Quotients(v);
    Assemble(v, v / 256, v / 65536, v / 16777216, v % 256, v / 256 % 256, v / 65536 % 256);
  }

  lemma Quotients(v: nat)
    requires v < 0x1_0000_0000
    ensures v == 256 * (v / 256) + v % 256 && v / 256 == 256 * (v / 65536) + v / 256 % 256
    ensures v / 65536 == 256 * (v / 16777216) + v / 65536 % 256 && v / 16777216 % 256 == v / 16777216
  {
  }

  lemma Assemble(v: nat, a: nat, b: nat, c: nat, x: nat, y: nat, z: nat)
    requires v == 256 * a + x && a == 256 * b + y && b == 256 * c + z
    ensures Word(x, y, z, c) == v
  {
  }

  /** A long put is the long got, and nothing four bytes away changes. */
  lemma PutGet(mem: seq<Byte>, a: nat, v: nat, b: int)
    requires a + 4 <= |mem| && v < 0x1_0000_0000
    ensures b == a ==> Long(PutLong(mem, a, v), b) == v
    ensures 0 <= b && (b + 4 <= a || a + 4 <= b) ==> Long(PutLong(mem, a, v), b) == Long(mem, b)
  {
    var m := PutLong(mem, a, v);
    if b == a {
      LongBack(v);
      assert m[a] == v % 256 && m[a + 1] == v / 256 % 256;
      assert m[a + 2] == v / 65536 % 256 && m[a + 3] == v / 16777216 % 256;
    } else if 0 <= b && b + 4 <= a {
      assert m[b] == mem[b] && m[b + 1] == mem[b + 1] && m[b + 2] == mem[b + 2] && m[b + 3] == mem[b + 3];
    } else if a + 4 <= b && b + 4 <= |mem| {
      assert m[b] == mem[b] && m[b + 1] == mem[b + 1] && m[b + 2] == mem[b + 2] && m[b + 3] == mem[b + 3];
    }
  }

  lemma PutAbove(mem: seq<Byte>, a: nat, v: nat, p: nat)
    requires a + 4 <= p <= |mem|
    ensures PutLong(mem, a, v)[p..] == mem[p..]
  {
  }

  // ---------------------------------------------------------------- pages

  /** page[i] is [] while no page has been taken for it. */
  predicate PagesOk(pages: seq<seq<Byte>>) {
    |pages| == MAX_ARG_PAGES && forall i :: 0 <= i < MAX_ARG_PAGES ==> |pages[i]| == 0 || |pages[i]| == PAGE_SIZE
  }

  /** How many of the first n pages have been taken. */
  function Taken(pages: seq<seq<Byte>>, n: nat): nat
    requires n <= |pages|
  {
    if n == 0 then 0 else Taken(pages, n - 1) + if pages[n - 1] == [] then 0 else 1
  }

  lemma {:induction false} TakenChanges(pages: seq<seq<Byte>>, i: nat, page: seq<Byte>, n: nat)
    requires n <= |pages| && i < |pages| && page != []
    ensures Taken(pages[i := page], n) == Taken(pages, n) + if i < n && pages[i] == [] then 1 else 0
    ensures i < n && pages[i] == [] ==> Taken(pages, n) < n
    ensures Taken(pages, n) <= n
  {
    if n > 0 { TakenChanges(pages, i, page, n - 1); }
  }

  /** The pages touched by the bytes from p up to the end of the argument space, whose last four are not used. */
  function PagesFor(p: nat): nat {
    if p >= ARG_SPACE - 4 then 0 else MAX_ARG_PAGES - p / PAGE_SIZE
  }

  /** Exactly these pages have been taken. */
  predicate UpTo(pages: seq<seq<Byte>>, p: nat) {
    p <= ARG_SPACE - 4 && |pages| == MAX_ARG_PAGES &&
    forall i :: 0 <= i < MAX_ARG_PAGES ==> (pages[i] != [] <==> i >= MAX_ARG_PAGES - PagesFor(p))
  }

  lemma {:induction false} TakenUpTo(pages: seq<seq<Byte>>, p: nat, n: nat)
    requires UpTo(pages, p) && n <= MAX_ARG_PAGES
    ensures Taken(pages, n) == if n <= MAX_ARG_PAGES - PagesFor(p) then 0 else n - (MAX_ARG_PAGES - PagesFor(p))
  {
    if n > 0 { TakenUpTo(pages, p, n - 1); }
  }

  /** One byte further down: the page of that byte joins those taken. */
  lemma UpToNext(pages: seq<seq<Byte>>, pages': seq<seq<Byte>>, p: nat)
    requires UpTo(pages, p) && 0 < p && |pages'| == MAX_ARG_PAGES
    requires forall i :: 0 <= i < MAX_ARG_PAGES ==> (pages'[i] != [] <==> pages[i] != [] || i == (p - 1) / PAGE_SIZE)
    ensures UpTo(pages', p - 1)
  {
    OnePageMore(p);
  }

  lemma OnePageMore(p: nat)
    requires 0 < p <= ARG_SPACE - 4
    ensures PagesFor(p - 1) == MAX_ARG_PAGES - (p - 1) / PAGE_SIZE
    ensures PagesFor(p) <= PagesFor(p - 1) <= PagesFor(p) + 1
  {
  }

  lemma NotTaken(pages: seq<seq<Byte>>, p: nat)
    requires UpTo(pages, p) && 0 < p && pages[(p - 1) / PAGE_SIZE] == []
    ensures PagesFor(p - 1) == PagesFor(p) + 1
  {
    OnePageMore(p);
  }

  lemma PagesForLess(p: nat, q: nat)
    requires p <= q
    ensures PagesFor(q) <= PagesFor(p) <= MAX_ARG_PAGES && PagesFor(0) == MAX_ARG_PAGES
  {
    Quotient(p, q);
  }

  lemma Quotient(p: nat, q: nat)
    requires p <= q
    ensures p / PAGE_SIZE <= q / PAGE_SIZE
  {
  }

  function ByteAt(pages: seq<seq<Byte>>, a: int): Byte {
    var i, o := a / PAGE_SIZE, a % PAGE_SIZE;
    if 0 <= i < |pages| && o < |pages[i]| then pages[i][o] else 0
  }

  /** The 32 pages as one stretch of memory. */
  function Space(pages: seq<seq<Byte>>): (s: seq<Byte>)
    ensures |s| == ARG_SPACE && forall a :: 0 <= a < ARG_SPACE ==> s[a] == ByteAt(pages, a)
  {
    seq(ARG_SPACE, a => ByteAt(pages, a))
  }

  /** Exactly the byte at p has been written, in a page that may have been taken for it. */
  lemma ByteWritten(pages: seq<seq<Byte>>, pages': seq<seq<Byte>>, p: nat, c: Byte)
    requires PagesOk(pages) && p < ARG_SPACE
    requires var i := p / PAGE_SIZE;
             var page := if |pages[i]| == 0 then seq(PAGE_SIZE, _ => 0) else pages[i];
             pages' == pages[i := page[p % PAGE_SIZE := c]]
    ensures PagesOk(pages') && Space(pages') == Space(pages)[p := c]
  {
  }
}

/** How far a call of swap_out looks: exactly which entries it tries, and which it misses. */
module PagingScan {
  import opened Basics
  import opened PagingModel
  import opened PagingFrames
  import opened PagingSwap

  const VM_PAGES: nat := (ENTRIES - TASK_DIRS) * ENTRIES

  /** What swap_out's counter loses on its way past directory entries a to b - 1. */
  function Toll(dir: seq<Pde>, a: int, b: int): nat
    decreases b - a
  {
    if a >= b then 0 else Toll(dir, a, b - 1) + ENTRIES + Bit(Tabled(dir, b - 1))
  }

  /** The directory entry a round goes on with. */
  function Normal(de: int): int {
    if de >= ENTRIES then TASK_DIRS else de
  }

  /** On its way from directory entry x round to d. */
  function Way(dir: seq<Pde>, x: int, d: int): nat {
    if x <= d then Toll(dir, x, d) else Toll(dir, x, ENTRIES) + Toll(dir, TASK_DIRS, d)
  }

  function Round(dir: seq<Pde>): nat {
    Toll(dir, TASK_DIRS, ENTRIES)
  }

  /** Whether directory entry y lies on the way from x round to d. */
  predicate Between(x: int, y: int, d: int) {
    TASK_DIRS <= y < ENTRIES && if x <= d then x <= y < d else x <= y || y < d
  }

  /** The first table from x on is the one at d, and entry i of it lies at or behind the mark pe. */
  ghost predicate Passed(dir: seq<Pde>, x: int, pe: int, d: int, i: int) {
    i <= pe && forall y :: Between(x, y, d) ==> !Tabled(dir, y)
  }

  /** What the counter has lost when a call that starts at the mark (de, pe) tries entry (d, i): 1024 for each
      directory entry without a table, 1025 for one with. A mark inside a table is kept past entries without one. */
  ghost function Distance(dir: seq<Pde>, de: int, pe: int, d: int, i: int): int {
    Way(dir, Normal(de), d) + i - (pe + 1) + if Passed(dir, Normal(de), pe, d, i) then Round(dir) else 0
  }

  lemma {:induction false} TollFront(dir: seq<Pde>, a: int, b: int)
    requires a < b
    ensures Toll(dir, a, b) == ENTRIES + Bit(Tabled(dir, a)) + Toll(dir, a + 1, b)
    decreases b - a
  {
    if a < b - 1 { TollFront(dir, a, b - 1); }
  }

  lemma {:induction false} TollSplit(dir: seq<Pde>, a: int, m: int, b: int)
    requires a <= m <= b
    ensures Toll(dir, a, b) == Toll(dir, a, m) + Toll(dir, m, b)
    decreases b - m
  {
    if m < b { TollSplit(dir, a, m, b - 1); }
  }

  /** One directory entry further. */
  lemma WayOn(dir: seq<Pde>, x: int, d: int)
    requires IsDir(x) && IsDir(d)
    ensures x != d ==> Way(dir, x, d) == ENTRIES + Bit(Tabled(dir, x)) + Way(dir, Normal(x + 1), d)
    ensures x == d ==> Round(dir) == ENTRIES + Bit(Tabled(dir, x)) + Way(dir, Normal(x + 1), d)
    ensures forall y :: Between(x, y, d) <==> x != d && (y == x || Between(Normal(x + 1), y, d))
    ensures Tabled(dir, x) && x != d ==> !forall y :: Between(x, y, d) ==> !Tabled(dir, y)
  {
    if x == d {
      TollSplit(dir, TASK_DIRS, x, ENTRIES);
      TollFront(dir, x, ENTRIES);
    } else {
      TollFront(dir, x, if x < d then d else ENTRIES);
      assert Between(x, x, d);
    }
  }

  /** Where a call stands after its counter has lost n: every entry was tried and could not go, or is as far from
      here as it was from the start, less n. */
  ghost predicate Scanned(s: State, de0: int, pe0: int, de: int, pe: int, n: int) {
    forall d, i :: IsUser(d, i) && Tabled(s.dir, d) ==> ScannedAt(s, de0, pe0, de, pe, n, d, i)
  }

  ghost predicate ScannedAt(s: State, de0: int, pe0: int, de: int, pe: int, n: int, d: int, i: int) {
    (Distance(s.dir, de0, pe0, d, i) < n && !CanGo(s, d, i)) ||
    Distance(s.dir, de0, pe0, d, i) == n + Distance(s.dir, de, pe, d, i)
  }

  lemma DistanceGap(dir: seq<Pde>, x: int, pe: int, d: int, i: int)
    requires IsDir(x) && !Tabled(dir, x) && IsUser(d, i) && Tabled(dir, d)
    ensures Distance(dir, x, pe, d, i) == ENTRIES + Distance(dir, x + 1, pe, d, i)
  {
    WayOn(dir, x, d);
  }

  lemma DistanceEnd(dir: seq<Pde>, x: int, d: int, i: int)
    requires IsDir(x) && Tabled(dir, x) && IsUser(d, i) && Tabled(dir, d)
    ensures Distance(dir, x, ENTRIES - 1, d, i) == 1 + Distance(dir, x + 1, -1, d, i)
  {
    WayOn(dir, x, d);
  }

  lemma DistanceOn(dir: seq<Pde>, x: int, pe: int, d: int, i: int)
    requires IsUser(x, pe + 1) && Tabled(dir, x) && IsUser(d, i)
    ensures (d, i) != (x, pe + 1) ==> Distance(dir, x, pe, d, i) == 1 + Distance(dir, x, pe + 1, d, i)
    ensures Distance(dir, x, pe, x, pe + 1) == 0
  {
    WayOn(dir, x, d);
  }

  lemma {:induction false} TollAtLeast(dir: seq<Pde>, a: int, b: int)
    ensures a <= b ==> Toll(dir, a, b) >= ENTRIES * (b - a)
    ensures a < b && (forall y :: a <= y < b ==> !Tabled(dir, y)) ==> Toll(dir, a, b) == ENTRIES * (b - a)
    decreases b - a
  {
    if a < b { TollAtLeast(dir, a, b - 1); }
  }

  /** No entry lies behind. */
  lemma DistanceIsNat(dir: seq<Pde>, de: int, pe: int, d: int, i: int)
    requires TASK_DIRS <= de && -1 <= pe < ENTRIES && IsUser(d, i) && Tabled(dir, d)
    ensures Distance(dir, de, pe, d, i) >= 0
  {
    var x := Normal(de);
    if x < ENTRIES && i <= pe {
      if y :| Between(x, y, d) && Tabled(dir, y) {
        TollAtLeast(dir, x, if x <= d then d else ENTRIES);
      } else {
        TollAtLeast(dir, TASK_DIRS, ENTRIES);
      }
    }
  }

  lemma ScanStarts(s: State, de: int, pe: int)
    ensures Scanned(s, de, pe, de, pe, 0)
  {
  }

  lemma ScanWraps(s: State, de0: int, pe0: int, de: int, pe: int, n: int)
    requires Scanned(s, de0, pe0, de, pe, n)
    ensures Scanned(s, de0, pe0, Normal(de), pe, n)
  {
    hide CanGo, Way, Passed, Round;
    forall d, i | IsUser(d, i) && Tabled(s.dir, d) ensures ScannedAt(s, de0, pe0, Normal(de), pe, n, d, i) {
      assert ScannedAt(s, de0, pe0, de, pe, n, d, i);
    }
  }

  lemma ScanGap(s: State, de0: int, pe0: int, x: int, pe: int, n: int)
    requires Scanned(s, de0, pe0, x, pe, n) && IsDir(x) && !Tabled(s.dir, x)
    ensures Scanned(s, de0, pe0, x + 1, pe, n + ENTRIES)
  {
    hide Distance, CanGo;
    forall d, i | IsUser(d, i) && Tabled(s.dir, d) ensures ScannedAt(s, de0, pe0, x + 1, pe, n + ENTRIES, d, i) {
      assert ScannedAt(s, de0, pe0, x, pe, n, d, i);
      DistanceGap(s.dir, x, pe, d, i);
    }
  }

  lemma ScanEnd(s: State, de0: int, pe0: int, x: int, n: int)
    requires Scanned(s, de0, pe0, x, ENTRIES - 1, n) && IsDir(x) && Tabled(s.dir, x)
    ensures Scanned(s, de0, pe0, x + 1, -1, n + 1)
  {
    hide Distance, CanGo;
    forall d, i | IsUser(d, i) && Tabled(s.dir, d) ensures ScannedAt(s, de0, pe0, x + 1, -1, n + 1, d, i) {
      assert ScannedAt(s, de0, pe0, x, ENTRIES - 1, n, d, i);
      DistanceEnd(s.dir, x, d, i);
    }
  }

  lemma ScanOn(s: State, de0: int, pe0: int, x: int, pe: int, n: int)
    requires Scanned(s, de0, pe0, x, pe, n) && IsUser(x, pe + 1) && Tabled(s.dir, x)
    ensures Distance(s.dir, de0, pe0, x, pe + 1) < n || Distance(s.dir, de0, pe0, x, pe + 1) == n
    ensures CanGo(s, x, pe + 1) ==> Distance(s.dir, de0, pe0, x, pe + 1) == n
    ensures !CanGo(s, x, pe + 1) ==> Scanned(s, de0, pe0, x, pe + 1, n + 1)
  {
    hide Distance, CanGo;
    assert ScannedAt(s, de0, pe0, x, pe, n, x, pe + 1);
    DistanceOn(s.dir, x, pe, x, pe + 1);
    if !CanGo(s, x, pe + 1) {
      forall d, i | IsUser(d, i) && Tabled(s.dir, d) ensures ScannedAt(s, de0, pe0, x, pe + 1, n + 1, d, i) {
        assert ScannedAt(s, de0, pe0, x, pe, n, d, i);
        DistanceOn(s.dir, x, pe, d, i);
      }
    }
  }

  /** What a call from the mark (de, pe) can reach. */
  ghost predicate InReach(s: State, de: int, pe: int, d: int, i: int) {
    IsUser(d, i) && CanGo(s, d, i) && Distance(s.dir, de, pe, d, i) <= VM_PAGES
  }

  /** Once the counter is used up, nothing in reach is left. */
  lemma ScanOver(s: State, de0: int, pe0: int, de: int, pe: int, n: int)
    requires Scanned(s, de0, pe0, de, pe, n) && n > VM_PAGES && TASK_DIRS <= de && -1 <= pe < ENTRIES
    ensures forall d, i :: !InReach(s, de0, pe0, d, i)
  {
    hide Distance;
    forall d, i ensures !InReach(s, de0, pe0, d, i) {
      if IsUser(d, i) && CanGo(s, d, i) {
        assert ScannedAt(s, de0, pe0, de, pe, n, d, i);
        DistanceIsNat(s.dir, de, pe, d, i);
      }
    }
  }

  /** The one that goes is the first in reach. */
  lemma ScanFinds(s: State, de0: int, pe0: int, x: int, pe: int, n: int)
    requires Scanned(s, de0, pe0, x, pe, n) && IsUser(x, pe + 1) && CanGo(s, x, pe + 1) && n <= VM_PAGES
    requires TASK_DIRS <= x && -1 <= pe < ENTRIES
    ensures InReach(s, de0, pe0, x, pe + 1)
    ensures forall d, i :: InReach(s, de0, pe0, d, i) ==>
              Distance(s.dir, de0, pe0, x, pe + 1) <= Distance(s.dir, de0, pe0, d, i)
  {
    hide Distance;
    ScanOn(s, de0, pe0, x, pe, n);
    forall d, i | InReach(s, de0, pe0, d, i)
      ensures Distance(s.dir, de0, pe0, x, pe + 1) <= Distance(s.dir, de0, pe0, d, i)
    {
      assert ScannedAt(s, de0, pe0, x, pe, n, d, i);
      DistanceIsNat(s.dir, x, pe, d, i);
    }
  }

  // ---------------------------------------------------------------- where a call leaves the mark

  /** Where the mark stands once the counter has run down from n, no page having gone. */
  function Halt(dir: seq<Pde>, de: int, pe: int, n: int): (int, int)
    decreases n + 1
  {
    var x := Normal(de);
    if n < 0 then (de, pe)
    else if !Tabled(dir, x) then Halt(dir, x + 1, pe, n - ENTRIES)
    else if pe + 1 >= ENTRIES then Halt(dir, x + 1, -1, n - 1)
    else Halt(dir, x, pe + 1, n - 1)
  }

  /** The mark has come nearer, by more than n, to every page that lay beyond the count. */
  lemma {:induction false} HaltNearer(dir: seq<Pde>, de: int, pe: int, n: int, d: int, i: int)
    requires TASK_DIRS <= de && -1 <= pe < ENTRIES && IsUser(d, i) && Tabled(dir, d)
    requires Distance(dir, de, pe, d, i) > n
    ensures var h := Halt(dir, de, pe, n);
      TASK_DIRS <= h.0 && -1 <= h.1 < ENTRIES && Distance(dir, de, pe, d, i) - Distance(dir, h.0, h.1, d, i) > n
    decreases n + 1
  {
    hide Distance;
    var x := Normal(de);
    assert Distance(dir, x, pe, d, i) == Distance(dir, de, pe, d, i) by { DistanceWraps(dir, de, pe, d, i); }
    if n >= 0 {
      if !Tabled(dir, x) {
        DistanceGap(dir, x, pe, d, i);
        HaltNearer(dir, x + 1, pe, n - ENTRIES, d, i);
      } else if pe + 1 >= ENTRIES {
        DistanceEnd(dir, x, d, i);
        HaltNearer(dir, x + 1, -1, n - 1, d, i);
      } else {
        DistanceOn(dir, x, pe, d, i);
        HaltNearer(dir, x, pe + 1, n - 1, d, i);
      }
    }
  }

  lemma DistanceWraps(dir: seq<Pde>, de: int, pe: int, d: int, i: int)
    ensures Distance(dir, Normal(de), pe, d, i) == Distance(dir, de, pe, d, i)
  {
  }

  /** What a call does to the mark: it stands at the nearest page in reach, which went, or where the count ran out. */
  ghost predicate Marked(s: State, m: (int, int), out: bool, s': State, m': (int, int)) {
    if out then
      InReach(s, m.0, m.1, m'.0, m'.1) && WentOut(s, s', m'.0, m'.1) &&
      forall d, i :: InReach(s, m.0, m.1, d, i) ==>
        Distance(s.dir, m.0, m.1, m'.0, m'.1) <= Distance(s.dir, m.0, m.1, d, i)
    else s' == s && m' == Halt(s.dir, m.0, m.1, VM_PAGES) && forall d, i :: !InReach(s, m.0, m.1, d, i)
  }

  // ---------------------------------------------------------------- pages it misses

  function TablesIn(dir: seq<Pde>, a: int, b: int): nat
    decreases b - a
  {
    if a >= b then 0 else TablesIn(dir, a, b - 1) + Bit(Tabled(dir, b - 1))
  }

  lemma {:induction false} TollIs(dir: seq<Pde>, a: int, b: int)
    requires a <= b
    ensures Toll(dir, a, b) == ENTRIES * (b - a) + TablesIn(dir, a, b)
    decreases b - a
  {
    if a < b { TollIs(dir, a, b - 1); }
  }

  /** A page that could go at or behind the mark, in the first table swap_out comes to, is missed exactly when all
      tables together with its place outnumber the mark's. */
  lemma PassedIsMissed(s: State, de: int, pe: int, d: int, i: int)
    requires TASK_DIRS <= de && IsUser(d, i) && CanGo(s, d, i) && Passed(s.dir, Normal(de), pe, d, i)
    requires -1 <= pe < ENTRIES
    ensures InReach(s, de, pe, d, i) <==>
            TablesIn(s.dir, TASK_DIRS, ENTRIES) + Way(s.dir, Normal(de), d) + i <= pe + 1
  {
    TollIs(s.dir, TASK_DIRS, ENTRIES);
  }
}

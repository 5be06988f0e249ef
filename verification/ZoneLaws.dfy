/** Zones are conserved: whatever a file was given, truncating it gives back. */
module ZoneLaws {
  import opened ZoneModel
  import opened ZoneOps
  import opened ZoneGrowth
  import opened ZoneSweep

  /** What any number of block creations in file n keeps. */
  ghost predicate Extended(s: Fs, t: Fs, n: int) {
    Inv(t) && |t.inodes| == |s.inodes| && |t.data| == |s.data| && t.first == s.first && t.zones == s.zones &&
    (forall x :: IsSlot(|s.inodes|, x) ==> NameKept(s, t, n, x)) &&
    (forall n2, b2 :: IsBlock(|s.inodes|, n2, b2) && n2 != n ==> BlockKept(s, t, n, 0, n2, b2)) &&
    (forall w: nat :: IsZone(s, w) ==> Accounted(s, t, n, w))
  }

  lemma GrownExtends(s: Fs, t: Fs, u: Fs, n: int, b: int)
    requires Extended(s, t, n) && Grown(t, u, n, b)
    ensures Extended(s, u, n)
  {
    hide Inv, Value;
    forall x | IsSlot(|s.inodes|, x) ensures NameKept(s, u, n, x) {
      assert IsSlot(|t.inodes|, x);
      assert NameKept(s, t, n, x) && NameKept(t, u, n, x);
      if Value(t, x) == 0 && Value(u, x) != 0 {
        assert Accounted(s, t, n, Value(u, x));
      }
    }
    forall n2, b2 | IsBlock(|s.inodes|, n2, b2) && n2 != n ensures BlockKept(s, u, n, 0, n2, b2) {
      assert IsBlock(|t.inodes|, n2, b2);
      assert BlockKept(s, t, n, 0, n2, b2) && BlockKept(t, u, n, b, n2, b2);
    }
    forall w: nat | IsZone(s, w) ensures Accounted(s, u, n, w) {
      GrownAccounts(s, t, u, n, b, w);
    }
  }

  lemma GrownAccounts(s: Fs, t: Fs, u: Fs, n: int, b: int, w: nat)
    requires Extended(s, t, n) && Grown(t, u, n, b) && IsZone(s, w)
    ensures Accounted(s, u, n, w)
  {
    hide Inv, Value;
    assert IsZone(t, w);
    assert Accounted(s, t, n, w) && Accounted(t, u, n, w);
    if InUse(t, w) && !InUse(s, w) {
      var x :| IsSlot(|t.inodes|, x) && x.n == n && Value(t, x) == w;
      ZoneIsPositive(t, w);
      assert NameKept(t, u, n, x);
    }
  }

  // ---------------------------------------------------------------- truncation among other activity

  /** Between two rounds of minix_truncate other processes create blocks in, and run rounds over, other files. */
  datatype Act = Round(busy: set<nat>) | Create(m: nat, block: int) | Other(m: nat, busy: set<nat>)

  /** What an act does while file n is being truncated; one on file n itself does nothing. */
  ghost predicate Acted(s: Fs, s': Fs, n: int, a: Act) {
    match a
    case Round(busy) => Swept(s, s', n, busy, All(n))
    case Create(m, block) => if m != n && IsBlock(|s.inodes|, m, block) then Grown(s, s', m, block) else s' == s
    case Other(m, busy) => if m != n && m < |s.inodes| then Swept(s, s', m, busy, All(m)) else s' == s
  }

  /** File n names no zone that it did not name, at the places where it did. */
  ghost predicate Shrunk(s: Fs, s': Fs, n: int) {
    Inv(s') && |s'.inodes| == |s.inodes| && |s'.data| == |s.data| && s'.first == s.first && s'.zones == s.zones &&
    forall y :: IsSlot(|s.inodes|, y) && y.n == n ==> Value(s', y) == Value(s, y) || Value(s', y) == 0
  }

  lemma ShrunkNot(s: Fs, n: int)
    requires Inv(s)
    ensures Shrunk(s, s, n)
  {
  }

  /** Whatever the act. */
  lemma ActShrinks(s: Fs, t: Fs, u: Fs, n: int, a: Act)
    requires Shrunk(s, t, n) && Acted(t, u, n, a)
    ensures Shrunk(s, u, n)
  {
    hide Inv, Value, Held;
    forall y | IsSlot(|s.inodes|, y) && y.n == n ensures Value(u, y) == Value(s, y) || Value(u, y) == 0 {
      assert IsSlot(|t.inodes|, y);
      if a.Create? && u != t { assert NameKept(t, u, a.m, y); }
    }
  }

  lemma IdleLater(s: Fs, t: Fs, n: int, busy: set<nat>)
    requires Shrunk(s, t, n) && Idle(s, n, busy)
    ensures Idle(t, n, busy)
  {
    hide Inv, Value;
  }

  /** run[0], run[1], ... are the states between successive creations of the blocks asked for in file n. */
  ghost predicate IsGrowth(run: seq<Fs>, blocks: seq<int>, n: int) {
    |run| == |blocks| + 1 && forall i :: 0 <= i < |blocks| ==> Grown(run[i], run[i + 1], n, blocks[i])
  }

  lemma {:induction false} GrowthExtends(run: seq<Fs>, blocks: seq<int>, n: int)
    requires IsGrowth(run, blocks, n) && Inv(run[0])
    ensures Extended(run[0], run[|run| - 1], n)
  {
    if |blocks| > 0 {
      var k := |blocks| - 1;
      forall i | 0 <= i < k ensures Grown(run[..k + 1][i], run[..k + 1][i + 1], n, blocks[..k][i]) {
        assert Grown(run[i], run[i + 1], n, blocks[i]);
      }
      GrowthExtends(run[..k + 1], blocks[..k], n);
      GrownExtends(run[0], run[k], run[k + 1], n, blocks[k]);
    }
  }

  /** A file created empty, given any blocks in any order and then truncated leaves the zone bitmap, and all
      blocks of all other files, as they were. */
  lemma TruncateReturnsAll(run: seq<Fs>, blocks: seq<int>, u: Fs, n: int)
    requires IsGrowth(run, blocks, n) && Inv(run[0]) && Empty(run[0], n)
    requires Trimmed(run[|run| - 1], u, n) && Empty(u, n)
    ensures BitsBut(run[0], u, -1, true)
    ensures forall n2, b2 :: IsBlock(|run[0].inodes|, n2, b2) ==>
              Bmap(u, n2, b2) == Bmap(run[0], n2, b2) &&
              (Bmap(run[0], n2, b2) != 0 ==> SameBlock(run[0], u, Bmap(run[0], n2, b2)))
  {
    var s, t := run[0], run[|run| - 1];
    GrowthExtends(run, blocks, n);
    forall w: nat | IsZone(s, w) ensures InUse(u, w) <==> InUse(s, w) {
      MarkReturns(s, t, u, n, w);
    }
    forall n2, b2 | IsBlock(|s.inodes|, n2, b2)
      ensures Bmap(u, n2, b2) == Bmap(s, n2, b2) && (Bmap(s, n2, b2) != 0 ==> SameBlock(s, u, Bmap(s, n2, b2)))
    {
      BlockReturns(s, t, u, n, n2, b2);
    }
  }

  lemma MarkReturns(s: Fs, t: Fs, u: Fs, n: int, w: nat)
    requires Inv(s) && Extended(s, t, n) && Trimmed(t, u, n) && Empty(s, n) && Empty(u, n) && IsZone(s, w)
    ensures InUse(u, w) <==> InUse(s, w)
  {
  }

  lemma BlockReturns(s: Fs, t: Fs, u: Fs, n: int, n2: int, b2: int)
    requires Inv(s) && Extended(s, t, n) && Trimmed(t, u, n) && Empty(s, n) && Empty(u, n)
    requires IsBlock(|s.inodes|, n2, b2)
    ensures Bmap(u, n2, b2) == Bmap(s, n2, b2) && (Bmap(s, n2, b2) != 0 ==> SameBlock(s, u, Bmap(s, n2, b2)))
  {
  }
}

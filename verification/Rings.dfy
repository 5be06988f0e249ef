/** Places in a ring buffer of a given size. */
module Rings {

  /** Place i counted from t. */
  function Place(size: nat, t: nat, i: nat): (p: nat)
    requires t < size && i < size
    ensures p < size
  {
    if t + i < size then t + i else t + i - size
  }

  lemma Multiples(q: int, size: int)
    requires size > 0
    ensures q >= 2 ==> q * size >= 2 * size
    ensures q <= -2 ==> q * size <= -2 * size
  {
  }

  /** The remainder of a number at most one round away. */
  lemma Round(x: int, size: int)
    requires 0 < size && -size <= x < 2 * size
    ensures x % size == if x < 0 then x + size else if x < size then x else x - size
  {
    var q := x / size;
    assert x == q * size + x % size;
    Multiples(q, size);
  }

  /** The n entries of the ring p from t on. */
  function Window<T>(p: seq<T>, t: nat, n: nat): (w: seq<T>)
    requires t < |p| && n < |p|
    ensures |w| == n && forall i :: 0 <= i < n ==> w[i] == p[Place(|p|, t, i)]
  {
    seq(n, i requires 0 <= i < n => p[Place(|p|, t, i)])
  }

  /** Entry j of p once w has been written over it from `at` on. */
  lemma Spliced<T>(p: seq<T>, p': seq<T>, at: nat, w: seq<T>, j: nat)
    requires at + |w| <= |p| && p' == p[..at] + w + p[at + |w|..] && j < |p|
    ensures |p'| == |p| && p'[j] == if at <= j < at + |w| then w[j - at] else p[j]
  {
  }

  /** Entry i of a window that was written behind. */
  lemma ExtendsAt<T>(p: seq<T>, p': seq<T>, t: nat, n: nat, at: nat, w: seq<T>, i: nat)
    requires t < |p| && n + |w| < |p| && at == Place(|p|, t, n) && at + |w| <= |p|
    requires p' == p[..at] + w + p[at + |w|..] && i < n + |w|
    ensures |p'| == |p| && p'[Place(|p|, t, i)] == if i < n then p[Place(|p|, t, i)] else w[i - n]
  {
    Spliced(p, p', at, w, Place(|p|, t, i));
  }

  /** Entries written behind the window, without going round the end, extend it. */
  lemma Extends<T>(p: seq<T>, p': seq<T>, t: nat, n: nat, at: nat, w: seq<T>)
    requires t < |p| && n + |w| < |p| && at == Place(|p|, t, n) && at + |w| <= |p|
    requires p' == p[..at] + w + p[at + |w|..]
    ensures Window(p', t, n + |w|) == Window(p, t, n) + w
  {
    var u, v := Window(p', t, n + |w|), Window(p, t, n);
    forall i | 0 <= i < n + |w| ensures u[i] == (v + w)[i] {
      ExtendsAt(p, p', t, n, at, w, i);
    }
  }

  /** The window without its first k entries, which do not go round the end. */
  lemma Shrinks<T>(p: seq<T>, t: nat, n: nat, k: nat, t': nat)
    requires t < |p| && n < |p| && k <= n && t + k <= |p| && t' == if t + k == |p| then 0 else t + k
    ensures p[t..t + k] + Window(p, t', n - k) == Window(p, t, n)
  {
    forall i | 0 <= i < k ensures Window(p, t, n)[i] == p[t + i] {
    }
    forall i | 0 <= i < n - k ensures Window(p, t', n - k)[i] == Window(p, t, n)[k..][i] {
      assert Place(|p|, t', i) == Place(|p|, t, k + i);
    }
  }
}

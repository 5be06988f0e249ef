/** What several models share: bytes and pages, the size of the task table, indices and sizes of sets. */
module Basics {

  type Byte = c: int | 0 <= c < 256

  const PAGE_SIZE: nat := 4096
  const NR_TASKS: nat := 64
  const MAX_ARG_PAGES: nat := 32

  predicate IsTask(i: int) {
    0 <= i < NR_TASKS
  }

  predicate Idx(n: nat, k: int) {
    0 <= k < n
  }

  function Bit(b: bool): nat {
    if b then 1 else 0
  }

  /** A string without zero bytes. */
  predicate NulFree(n: seq<Byte>) {
    forall i :: 0 <= i < |n| ==> n[i] != 0
  }

  ghost predicate NoDup(ks: seq<int>) {
    forall i, j :: Idx(|ks|, i) && Idx(|ks|, j) && i != j ==> ks[i] != ks[j]
  }

  /** The pieces one after the other. */
  function Flat<T>(ps: seq<seq<T>>): seq<T> {
    if ps == [] then [] else Flat(ps[..|ps| - 1]) + ps[|ps| - 1]
  }

  lemma FlatSnoc<T>(ps: seq<seq<T>>, p: seq<T>)
    ensures Flat(ps + [p]) == Flat(ps) + p
  {
    assert (ps + [p])[..|ps|] == ps;
  }

  /** The sizes of two sets that differ at most in x. */
  lemma OneApart<T>(a: set<T>, b: set<T>, x: T)
    requires a - {x} == b - {x}
    ensures |b| == |a| - Bit(x in a) + Bit(x in b)
  {
    WithOut(a, x);
    WithOut(b, x);
  }

  lemma WithOut<T>(a: set<T>, x: T)
    ensures |a| == |a - {x}| + Bit(x in a)
  {
    if x in a {
      assert a == a - {x} + {x};
    } else {
      assert a == a - {x};
    }
  }

  lemma SubsetSize<T>(x: set<T>, y: set<T>)
    requires x <= y
    ensures |x| <= |y|
  {
    assert y == x + (y - x);
  }
}

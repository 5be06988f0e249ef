/** The two linked structures of fs/buffer.c: the circular free list through all buffers and the
    hash chains. Buffers live in one array, so a pointer is an index and NULL is -1. */
module BufferLinks {
  import opened Basics

  const NIL: int := -1
  const NR_HASH: nat := 307

  predicate Within(s: seq<int>, n: nat) {
    forall k :: 0 <= k < |s| ==> 0 <= s[k] < n
  }

  // ---------------------------------------------------------------- what the pointers spell

  /** The successor and the predecessor of position k on the ring. */
  function After(ring: seq<int>, k: int): int
    requires 0 <= k < |ring|
  {
    if k + 1 < |ring| then ring[k + 1] else ring[0]
  }

  function Before(ring: seq<int>, k: int): int
    requires 0 <= k < |ring|
  {
    if k > 0 then ring[k - 1] else ring[|ring| - 1]
  }

  predicate LinkedAt(nextFree: seq<int>, prevFree: seq<int>, ring: seq<int>, k: int)
    requires 0 <= k < |ring| && 0 <= ring[k] < |nextFree| == |prevFree|
  {
    nextFree[ring[k]] == After(ring, k) && prevFree[ring[k]] == Before(ring, k)
  }

  /** The circular doubly linked list starting at `head` is `ring`. */
  ghost predicate RingOk(nextFree: seq<int>, prevFree: seq<int>, head: int, ring: seq<int>) {
    |ring| > 0 && |prevFree| == |nextFree| && Within(ring, |nextFree|) && NoDup(ring) && head == ring[0] &&
    forall k :: 0 <= k < |ring| ==> LinkedAt(nextFree, prevFree, ring, k)
  }

  function Cut(s: seq<int>, k: int): seq<int>
    requires 0 <= k < |s|
  {
    s[..k] + s[k + 1..]
  }

  /** Unlinking position k closes the ring over it. */
  lemma RingCut(nf: seq<int>, pf: seq<int>, head: int, ring: seq<int>, k: int)
    requires RingOk(nf, pf, head, ring) && 0 <= k < |ring| && |ring| > 1
    ensures nf[ring[k]] == After(ring, k) && pf[ring[k]] == Before(ring, k)
    ensures var p, n := Before(ring, k), After(ring, k);
      0 <= p < |nf| && 0 <= n < |nf| && p != ring[k] && n != ring[k] &&
      RingOk(nf[p := n][ring[k] := NIL], pf[n := p][ring[k] := NIL], if k == 0 then n else head, Cut(ring, k))
  {
    assert LinkedAt(nf, pf, ring, k);
    var p, n := Before(ring, k), After(ring, k);
    var nf', pf' := nf[p := n][ring[k] := NIL], pf[n := p][ring[k] := NIL];
    var r := Cut(ring, k);
    assert NoDup(r) && Within(r, |nf|);
    forall j | 0 <= j < |r| ensures LinkedAt(nf', pf', r, j) {
      var i := if j < k then j else j + 1;
      assert r[j] == ring[i] && LinkedAt(nf, pf, ring, i);
      RingCutAt(ring, k, j);
    }
  }

  lemma RingCutAt(ring: seq<int>, k: int, j: int)
    requires NoDup(ring) && 0 <= k < |ring| && |ring| > 1 && 0 <= j < |ring| - 1
    ensures var i := if j < k then j else j + 1;
      After(Cut(ring, k), j) == (if ring[i] == Before(ring, k) then After(ring, k) else After(ring, i)) &&
      Before(Cut(ring, k), j) == (if ring[i] == After(ring, k) then Before(ring, k) else Before(ring, i))
  {
  }

  /** Linking x in before the head makes it the last. */
  lemma RingAppend(nf: seq<int>, pf: seq<int>, head: int, ring: seq<int>, x: int)
    requires RingOk(nf, pf, head, ring) && 0 <= x < |nf| && x !in ring
    ensures 0 <= head < |nf| && 0 <= pf[head] < |nf|
    ensures RingOk(nf[x := head][pf[head] := x], pf[x := pf[head]][head := x], head, ring + [x])
  {
    assert LinkedAt(nf, pf, ring, 0);
    var last := pf[head];
    var nf', pf' := nf[x := head][last := x], pf[x := last][head := x];
    var r := ring + [x];
    forall j | 0 <= j < |r| ensures LinkedAt(nf', pf', r, j) {
      assert j < |ring| ==> LinkedAt(nf, pf, ring, j);
    }
  }

  /** Moving the head on turns the ring. */
  lemma RingTurn(nf: seq<int>, pf: seq<int>, head: int, ring: seq<int>)
    requires RingOk(nf, pf, head, ring)
    ensures 0 <= head < |nf| && 0 <= nf[head] < |nf| && RingOk(nf, pf, nf[head], ring[1..] + [ring[0]])
  {
    assert LinkedAt(nf, pf, ring, 0);
    var r := ring[1..] + [ring[0]];
    forall j | 0 <= j < |r| ensures LinkedAt(nf, pf, r, j) {
      var i := if j + 1 < |ring| then j + 1 else 0;
      assert r[j] == ring[i] && LinkedAt(nf, pf, ring, i);
    }
  }

  predicate ChainedAt(next: seq<int>, prev: seq<int>, chain: seq<int>, k: int)
    requires 0 <= k < |chain| && 0 <= chain[k] < |next| == |prev|
  {
    next[chain[k]] == (if k + 1 < |chain| then chain[k + 1] else NIL) &&
    prev[chain[k]] == (if k > 0 then chain[k - 1] else NIL)
  }

  /** The doubly linked list from `head` to NULL is `chain`. */
  ghost predicate ChainOk(next: seq<int>, prev: seq<int>, head: int, chain: seq<int>) {
    |prev| == |next| && Within(chain, |next|) && NoDup(chain) &&
    head == (if chain == [] then NIL else chain[0]) &&
    forall k :: 0 <= k < |chain| ==> ChainedAt(next, prev, chain, k)
  }

  /** A chain none of whose links were written is as it was. */
  lemma ChainFrame(next: seq<int>, prev: seq<int>, next': seq<int>, prev': seq<int>, head: int, chain: seq<int>)
    requires ChainOk(next, prev, head, chain) && |next'| == |next| && |prev'| == |prev|
    requires forall k :: 0 <= k < |chain| ==> next'[chain[k]] == next[chain[k]] && prev'[chain[k]] == prev[chain[k]]
    ensures ChainOk(next', prev', head, chain)
  {
    forall k | 0 <= k < |chain| ensures ChainedAt(next', prev', chain, k) {
      assert ChainedAt(next, prev, chain, k);
    }
  }

  function Set(s: seq<int>, k: int, x: int): seq<int> {
    if 0 <= k < |s| then s[k := x] else s
  }

  lemma NoDupAt(s: seq<int>, j: int, k: int)
    requires NoDup(s) && 0 <= j < |s| && 0 <= k < |s|
    ensures s[j] == s[k] <==> j == k
  {
    assert Idx(|s|, j) && Idx(|s|, k);
  }

  lemma CutNoDup(s: seq<int>, k: int)
    requires NoDup(s) && 0 <= k < |s|
    ensures NoDup(Cut(s, k))
  {
    var r := Cut(s, k);
    forall i, j | Idx(|r|, i) && Idx(|r|, j) && i != j ensures r[i] != r[j] {
      NoDupAt(s, if i < k then i else i + 1, if j < k then j else j + 1);
    }
  }

  /** Entry j of the chain without position k. */
  lemma ChainCutAt(next: seq<int>, prev: seq<int>, head: int, chain: seq<int>, k: int, j: int)
    requires ChainOk(next, prev, head, chain) && 0 <= k < |chain| && 0 <= j < |Cut(chain, k)|
    ensures var b := chain[k];
      0 <= Cut(chain, k)[j] < |next| &&
      ChainedAt(Set(next, prev[b], next[b])[b := NIL], Set(prev, next[b], prev[b])[b := NIL], Cut(chain, k), j)
  {
    hide NoDup;
    var i := if j < k then j else j + 1;
    assert ChainedAt(next, prev, chain, k) && ChainedAt(next, prev, chain, i);
    NoDupAt(chain, i, k);
    if k > 0 { NoDupAt(chain, i, k - 1); }
    if k + 1 < |chain| { NoDupAt(chain, i, k + 1); }
  }

  /** Unlinking position k of a chain. */
  lemma ChainCut(next: seq<int>, prev: seq<int>, head: int, chain: seq<int>, k: int)
    requires ChainOk(next, prev, head, chain) && 0 <= k < |chain|
    ensures var b := chain[k];
      ChainOk(Set(next, prev[b], next[b])[b := NIL], Set(prev, next[b], prev[b])[b := NIL],
              if head == b then next[b] else head, Cut(chain, k))
  {
    hide NoDup, ChainedAt;
    var b, r := chain[k], Cut(chain, k);
    CutNoDup(chain, k);
    HeadAfterCut(next, prev, head, chain, k);
    var next', prev' := Set(next, prev[b], next[b])[b := NIL], Set(prev, next[b], prev[b])[b := NIL];
    forall j | 0 <= j < |r| ensures 0 <= r[j] < |next| && ChainedAt(next', prev', r, j) {
      ChainCutAt(next, prev, head, chain, k, j);
    }
    assert Within(r, |next'|);
  }

  lemma HeadAfterCut(next: seq<int>, prev: seq<int>, head: int, chain: seq<int>, k: int)
    requires ChainOk(next, prev, head, chain) && 0 <= k < |chain|
    ensures (if head == chain[k] then next[chain[k]] else head) == if Cut(chain, k) == [] then NIL else Cut(chain, k)[0]
  {
    assert ChainedAt(next, prev, chain, k);
    NoDupAt(chain, 0, k);
  }

  /** Linking x in at the front of a chain. */
  lemma ChainPush(next: seq<int>, prev: seq<int>, head: int, chain: seq<int>, x: int)
    requires ChainOk(next, prev, head, chain) && 0 <= x < |next| && x !in chain
    ensures ChainOk(next[x := head], Set(prev[x := NIL], head, x), x, [x] + chain)
  {
    var next', prev' := next[x := head], Set(prev[x := NIL], head, x);
    var r := [x] + chain;
    forall j | 0 <= j < |r| ensures ChainedAt(next', prev', r, j) {
      assert j > 0 ==> ChainedAt(next, prev, chain, j - 1);
    }
  }

  /** Where the links around position k of a chain lead: to neighbours on the chain. */
  lemma ChainNeighbours(next: seq<int>, prev: seq<int>, head: int, chain: seq<int>, k: int)
    requires ChainOk(next, prev, head, chain) && 0 <= k < |chain|
    ensures next[chain[k]] == NIL || next[chain[k]] in chain
    ensures prev[chain[k]] == NIL || prev[chain[k]] in chain
  {
    assert ChainedAt(next, prev, chain, k);
  }

  /** Every chain is well linked and holds exactly the buffers at home on it; the others have NULL links. */
  ghost predicate TableOk(next: seq<int>, prev: seq<int>, table: seq<int>, chains: seq<seq<int>>, home: seq<int>) {
    |prev| == |next| && |home| == |next| && |table| == NR_HASH && |chains| == NR_HASH &&
    (forall h :: 0 <= h < NR_HASH ==> ChainOk(next, prev, table[h], chains[h])) &&
    (forall h, b :: 0 <= h < NR_HASH && 0 <= b < |home| ==> (b in chains[h] <==> home[b] == h)) &&
    (forall b :: 0 <= b < |home| && home[b] == NIL ==> next[b] == NIL && prev[b] == NIL)
  }

  /** Whatever is written lies on one chain or on none, so the other chains are as they were. */
  lemma OtherChains(next: seq<int>, prev: seq<int>, table: seq<int>, chains: seq<seq<int>>, home: seq<int>,
                    next': seq<int>, prev': seq<int>, h: int, b: int)
    requires TableOk(next, prev, table, chains, home) && 0 <= h < NR_HASH
    requires 0 <= b < |home| && (home[b] == h || home[b] == NIL)
    requires |next'| == |next| && |prev'| == |prev|
    requires forall x :: 0 <= x < |next| && x != b && home[x] != h ==> next'[x] == next[x] && prev'[x] == prev[x]
    ensures forall g :: 0 <= g < NR_HASH && g != h ==> ChainOk(next', prev', table[g], chains[g])
  {
    forall g | 0 <= g < NR_HASH && g != h ensures ChainOk(next', prev', table[g], chains[g]) {
      assert ChainOk(next, prev, table[g], chains[g]);
      forall k | 0 <= k < |chains[g]|
        ensures next'[chains[g][k]] == next[chains[g][k]] && prev'[chains[g][k]] == prev[chains[g][k]]
      {
        assert chains[g][k] in chains[g] && home[chains[g][k]] == g;
      }
      ChainFrame(next, prev, next', prev', table[g], chains[g]);
    }
  }

  lemma CutMembers(s: seq<int>, k: int, x: int)
    requires 0 <= k < |s| && NoDup(s)
    ensures x in Cut(s, k) <==> x in s && x != s[k]
  {
  }

  lemma TableCut(next: seq<int>, prev: seq<int>, table: seq<int>, chains: seq<seq<int>>, home: seq<int>, h: int, k: int)
    requires TableOk(next, prev, table, chains, home) && 0 <= h < NR_HASH && 0 <= k < |chains[h]|
    ensures
      var b := chains[h][k];
      0 <= b < |next| && NIL <= next[b] < |next| && NIL <= prev[b] < |next| &&
      TableOk(Set(next, prev[b], next[b])[b := NIL], Set(prev, next[b], prev[b])[b := NIL],
              if table[h] == b then table[h := next[b]] else table,
              chains[h := Cut(chains[h], k)], home[b := NIL])
  {
    hide ChainOk, Cut;
    var chain, b := chains[h], chains[h][k];
    assert ChainOk(next, prev, table[h], chain);
    ChainReadable(next, prev, table[h], chain, k);
    assert b in chain && home[b] == h;
    ChainCut(next, prev, table[h], chain, k);
    ChainNeighbours(next, prev, table[h], chain, k);
    var next', prev' := Set(next, prev[b], next[b])[b := NIL], Set(prev, next[b], prev[b])[b := NIL];
    OtherChains(next, prev, table, chains, home, next', prev', h, b);
    forall x ensures x in Cut(chain, k) <==> x in chain && x != b {
      CutMembers(chain, k, x);
    }
  }

  lemma ChainReadable(next: seq<int>, prev: seq<int>, head: int, chain: seq<int>, k: int)
    requires ChainOk(next, prev, head, chain) && 0 <= k < |chain|
    ensures NoDup(chain) && |prev| == |next| && 0 <= chain[k] < |next|
    ensures head == chain[k] ==> k == 0
    ensures forall x :: x in chain ==> 0 <= x < |next|
  {
    if head == chain[k] { NoDupAt(chain, 0, k); }
  }

  /** A buffer on no chain is nobody's head and has no neighbours. */
  lemma LooseBuffer(next: seq<int>, prev: seq<int>, table: seq<int>, chains: seq<seq<int>>, home: seq<int>, h: int,
                    b: int)
    requires TableOk(next, prev, table, chains, home) && 0 <= h < NR_HASH && 0 <= b < |next| && home[b] == NIL
    ensures next[b] == NIL && prev[b] == NIL && table[h] != b
  {
  }

  lemma TablePush(next: seq<int>, prev: seq<int>, table: seq<int>, chains: seq<seq<int>>, home: seq<int>, h: int,
                  b: int)
    requires TableOk(next, prev, table, chains, home) && 0 <= h < NR_HASH && 0 <= b < |next| && home[b] == NIL
    ensures NIL <= table[h] < |next| && table[h] != b
    ensures TableOk(next[b := table[h]], Set(prev[b := NIL], table[h], b), table[h := b],
                    chains[h := [b] + chains[h]], home[b := h])
  {
    var chain := chains[h];
    assert ChainOk(next, prev, table[h], chain) && b !in chain;
    ChainPush(next, prev, table[h], chain, b);
    assert table[h] == NIL || table[h] in chain;
    OtherChains(next, prev, table, chains, home, next[b := table[h]], Set(prev[b := NIL], table[h], b), h, b);
  }

  class Links {
    const size: nat
    var next: seq<int>
    var prev: seq<int>
    var nextFree: seq<int>
    var prevFree: seq<int>
    var hashTable: seq<int>
    var freeList: int
    ghost var ring: seq<int>
    ghost var chains: seq<seq<int>>
    ghost var home: seq<int>   // the chain each buffer is on, or NIL

    ghost predicate Shape()
      reads this
    {
      |next| == size && |prev| == size && |nextFree| == size && |prevFree| == size &&
      |hashTable| == NR_HASH && |chains| == NR_HASH && |home| == size
    }

    ghost predicate ChainsOk()
      reads this
    {
      Shape() && TableOk(next, prev, hashTable, chains, home)
    }

    ghost predicate FreeOk()
      reads this
    {
      Shape() && RingOk(nextFree, prevFree, freeList, ring)
    }

    /** buffer_init: n buffers linked in order into a ring, all chains empty. */
    constructor (n: nat)
      requires n > 0
      ensures size == n && ChainsOk() && FreeOk() && ring == seq(n, i => i)
      ensures forall b :: 0 <= b < n ==> home[b] == NIL
    {
      size := n;
      var nf, pf: seq<int> := [], [];
      for h := 0 to n
        invariant |nf| == h && |pf| == h
        invariant forall b :: 0 <= b < h ==> nf[b] == b + 1 && pf[b] == b - 1
      {
        pf := pf + [h - 1];
        nf := nf + [h + 1];
      }
      pf := pf[0 := n - 1];
      nf := nf[n - 1 := 0];
      nextFree, prevFree, freeList := nf, pf, 0;
      next, prev := seq(n, _ => NIL), seq(n, _ => NIL);
      hashTable := seq(NR_HASH, _ => NIL);
      ring, chains, home := seq(n, i => i), seq(NR_HASH, _ => []), seq(n, _ => NIL);
      new;
      forall k | 0 <= k < n ensures LinkedAt(nextFree, prevFree, ring, k) {
      }
    }

    /** remove_from_free_list. */
    method RemoveFromFreeList(bh: int, ghost k: int)
      requires FreeOk() && |ring| > 1 && 0 <= k < |ring| && ring[k] == bh
      modifies `nextFree, `prevFree, `freeList, `ring
      ensures FreeOk() && ring == Cut(old(ring), k)
    {
      RingCut(nextFree, prevFree, freeList, ring, k);
      var p, n := prevFree[bh], nextFree[bh];
      nextFree := nextFree[p := n];
      prevFree := prevFree[n := p];
      if freeList == bh {
        freeList := n;
      }
      nextFree := nextFree[bh := NIL];
      prevFree := prevFree[bh := NIL];
      ring := Cut(ring, k);
    }

    /** The first half of insert_into_queues: at the end of the free list. */
    method AppendFree(bh: int)
      requires FreeOk() && 0 <= bh < size && bh !in ring
      modifies `nextFree, `prevFree, `ring
      ensures FreeOk() && ring == old(ring) + [bh]
    {
      RingAppend(nextFree, prevFree, freeList, ring, bh);
      var last := prevFree[freeList];
      nextFree := nextFree[bh := freeList];
      prevFree := prevFree[bh := last];
      nextFree := nextFree[last := bh];
      prevFree := prevFree[freeList := bh];
      ring := ring + [bh];
    }

    /** put_last_free: whichever branch is taken, bh ends up last and the others keep their order. */
    method PutLastFree(bh: int, ghost k: int)
      requires FreeOk() && |ring| > 1 && 0 <= k < |ring| && ring[k] == bh
      modifies `nextFree, `prevFree, `freeList, `ring
      ensures FreeOk() && ring == Cut(old(ring), k) + [bh]
    {
      if bh == freeList {
        RingTurn(nextFree, prevFree, freeList, ring);
        freeList := nextFree[bh];
        ring := ring[1..] + [ring[0]];
        return;
      }
      RemoveFromFreeList(bh, k);
      AppendFree(bh);
    }

    /** put_first_free: bh ends up first and the others keep their order. */
    method PutFirstFree(bh: int, ghost k: int)
      requires FreeOk() && |ring| > 1 && 0 <= k < |ring| && ring[k] == bh
      modifies `nextFree, `prevFree, `freeList, `ring
      ensures FreeOk() && ring == [bh] + Cut(old(ring), k)
    {
      if bh == freeList {
        return;
      }
      RemoveFromFreeList(bh, k);
      AppendFree(bh);
      RingBack(nextFree, prevFree, freeList, ring);
      freeList := bh;
      ring := [ring[|ring| - 1]] + ring[..|ring| - 1];
    }

    method Unlink(bh: int, h: int)
      requires 0 <= bh < |next| && |prev| == |next| && 0 <= h < |hashTable|
      requires NIL <= next[bh] < |next| && NIL <= prev[bh] < |next|
      modifies `next, `prev, `hashTable
      ensures next == Set(old(next), old(prev[bh]), old(next[bh]))[bh := NIL]
      ensures prev == Set(old(prev), old(next[bh]), old(prev[bh]))[bh := NIL]
      ensures hashTable == if old(hashTable[h]) == bh then old(hashTable)[h := old(next[bh])] else old(hashTable)
    {
      var n, p := next[bh], prev[bh];
      if n != NIL {
        prev := prev[n := p];
      }
      if p != NIL {
        next := next[p := n];
      }
      if hashTable[h] == bh {
        hashTable := hashTable[h := n];
      }
      next := next[bh := NIL];
      prev := prev[bh := NIL];
    }

    /** remove_from_hash_queue, h being the hash of the buffer's device and block. A buffer without a
        device is on no chain; another one was at place k of its chain. */
    method RemoveFromHashQueue(bh: int, h: int) returns (ghost k: int)
      requires ChainsOk() && 0 <= bh < size && 0 <= h < NR_HASH && (home[bh] == h || home[bh] == NIL)
      modifies `next, `prev, `hashTable, `chains, `home
      ensures ChainsOk() && home == old(home)[bh := NIL] && |old(chains)| == NR_HASH && |old(home)| == size
      ensures old(home)[bh] == h ==> 0 <= k < |old(chains)[h]| && old(chains)[h][k] == bh &&
                                     chains == old(chains)[h := Cut(old(chains)[h], k)]
      ensures old(home)[bh] == NIL ==> chains == old(chains)
    {
      hide ChainOk;
      k := NIL;
      if home[bh] == h {
        k := InChain(chains[h], bh);
        TableCut(next, prev, hashTable, chains, home, h, k);
      } else {
        LooseBuffer(next, prev, hashTable, chains, home, h, bh);
      }
      hide TableOk;
      Unlink(bh, h);
      if home[bh] == h {
        chains := chains[h := Cut(chains[h], k)];
        home := home[bh := NIL];
      } else {
        assert next == old(next) && prev == old(prev) && home == old(home)[bh := NIL];
      }
    }

    /** The second half of insert_into_queues: at the front of chain h. */
    method PushHash(bh: int, h: int)
      requires ChainsOk() && 0 <= bh < size && 0 <= h < NR_HASH && home[bh] == NIL
      modifies `next, `prev, `hashTable, `chains, `home
      ensures ChainsOk() && home == old(home)[bh := h] && |old(chains)| == NR_HASH
      ensures chains == old(chains)[h := [bh] + old(chains)[h]]
    {
      TablePush(next, prev, hashTable, chains, home, h, bh);
      hide TableOk, ChainOk;
      prev := prev[bh := NIL];
      next := next[bh := NIL];
      next := next[bh := hashTable[h]];
      assert next == old(next)[bh := hashTable[h]];
      hashTable := hashTable[h := bh];
      if next[bh] != NIL {
        prev := prev[next[bh] := bh];
      }
      chains := chains[h := [bh] + chains[h]];
      home := home[bh := h];
    }
  }

  lemma InChain(chain: seq<int>, b: int) returns (k: int)
    requires b in chain
    ensures 0 <= k < |chain| && chain[k] == b
  {
    k :| 0 <= k < |chain| && chain[k] == b;
  }

  lemma RingBack(nf: seq<int>, pf: seq<int>, head: int, ring: seq<int>)
    requires RingOk(nf, pf, head, ring)
    ensures RingOk(nf, pf, ring[|ring| - 1], [ring[|ring| - 1]] + ring[..|ring| - 1])
  {
    var r := [ring[|ring| - 1]] + ring[..|ring| - 1];
    forall j | 0 <= j < |r| ensures LinkedAt(nf, pf, r, j) {
      var i := if j > 0 then j - 1 else |ring| - 1;
      assert r[j] == ring[i] && LinkedAt(nf, pf, ring, i);
    }
  }
}

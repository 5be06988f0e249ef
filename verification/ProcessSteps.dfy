/** The three ways the process tree changes: a child is linked under its parent, a child is handed to
    task 1, a child is taken out. */
module ProcessSteps {
  import opened Basics
  import opened Tasks
  import opened ProcessModel

  predicate SameLinks(a: Task, b: Task) {
    a.used == b.used && a.pptr == b.pptr && a.ysptr == b.ysptr && a.osptr == b.osptr
  }

  /** Nothing that q's child list depends on has changed. */
  ghost predicate AgreeFor(tab: seq<Task>, tab': seq<Task>, q: int)
    requires |tab| == NR_TASKS && |tab'| == NR_TASKS && IsTask(q)
  {
    tab'[q].cptr == tab[q].cptr && (tab[q].used ==> tab'[q].used) &&
    forall m :: IsTask(m) && tab[m].used && tab[m].pptr == q ==> SameLinks(tab[m], tab'[m])
  }

  lemma ListSame(tab: seq<Task>, tab': seq<Task>, q: int, ks: seq<int>, loose: bool)
    requires |tab| == NR_TASKS && |tab'| == NR_TASKS && IsTask(q)
    requires ListOk(tab, q, ks, loose) && AgreeFor(tab, tab', q)
    ensures ListOk(tab', q, ks, loose)
  {
  }

  // ---------------------------------------------------------------- a child list gains or loses its first entry

  /** c goes in front of p's list. */
  lemma ListPush(tab: seq<Task>, tab': seq<Task>, p: int, ks: seq<int>, c: int)
    requires |tab| == NR_TASKS && |tab'| == NR_TASKS && IsTask(p)
    requires IsTask(c) && ListOk(tab, p, ks, false) && c !in ks && c != 0
    requires tab'[p].cptr == c && tab'[p].used
    requires tab'[c].used && tab'[c].pptr == p && tab'[c].ysptr == NULL && tab'[c].osptr == First(ks)
    requires ks != [] ==> IsTask(ks[0]) && SameLinks(tab[ks[0]].(ysptr := c), tab'[ks[0]])
    requires forall m :: IsTask(m) && m in ks && m != ks[0] ==> SameLinks(tab[m], tab'[m])
    ensures ListOk(tab', p, [c] + ks, false)
  {
    var ks' := [c] + ks;
    forall k | Idx(|ks'|, k) ensures LinkedAt(tab', p, ks', k, false) {
      if k > 0 {
        assert Idx(|ks|, k - 1) && Idx(|ks|, 0) && LinkedAt(tab, p, ks, k - 1, false);
        assert ks'[k] == ks[k - 1] && After(ks', k) == After(ks, k - 1);
        assert k > 1 ==> ks[k - 1] != ks[0];
        assert k > 1 ==> Before(ks', k) == Before(ks, k - 1);
      }
    }
    forall i, j | Idx(|ks'|, i) && Idx(|ks'|, j) && i != j ensures ks'[i] != ks'[j] {
      assert i > 0 ==> Idx(|ks|, i - 1) && ks'[i] == ks[i - 1];
      assert j > 0 ==> Idx(|ks|, j - 1) && ks'[j] == ks[j - 1];
    }
  }

  /** The first entry leaves; the next one's young link is left as it is. */
  lemma ListPop(tab: seq<Task>, tab': seq<Task>, p: int, ks: seq<int>, loose: bool)
    requires |tab| == NR_TASKS && |tab'| == NR_TASKS && IsTask(p) && ListOk(tab, p, ks, loose) && ks != []
    requires tab'[p].cptr == First(ks[1..]) && tab'[p].used
    requires forall m :: IsTask(m) && m in ks && m != ks[0] ==> SameLinks(tab[m], tab'[m])
    ensures ListOk(tab', p, ks[1..], true)
  {
    var ks' := ks[1..];
    forall k | Idx(|ks'|, k) ensures LinkedAt(tab', p, ks', k, true) {
      assert Idx(|ks|, k + 1) && Idx(|ks|, 0) && LinkedAt(tab, p, ks, k + 1, loose);
      assert ks'[k] == ks[k + 1] && ks[k + 1] != ks[0] && ks[k + 1] in ks;
      assert After(ks', k) == After(ks, k + 1);
      assert k > 0 ==> Before(ks', k) == Before(ks, k + 1);
    }
    forall i, j | Idx(|ks'|, i) && Idx(|ks'|, j) && i != j ensures ks'[i] != ks'[j] {
      assert Idx(|ks|, i + 1) && Idx(|ks|, j + 1);
    }
  }

  /** Entry k leaves; its neighbours are joined. */
  lemma ListCut(tab: seq<Task>, tab': seq<Task>, p: int, ks: seq<int>, k: nat)
    requires |tab| == NR_TASKS && |tab'| == NR_TASKS && IsTask(p) && ListOk(tab, p, ks, false) && k < |ks|
    requires tab'[p].used && tab'[p].cptr == if k == 0 then After(ks, k) else tab[p].cptr
    requires forall i :: Idx(|ks|, i) && i != k && IsTask(ks[i]) ==> CutAt(tab, tab', ks, k, i)
    ensures ListOk(tab', p, ks[..k] + ks[k + 1..], false)
  {
    var ks' := ks[..k] + ks[k + 1..];
    forall j | Idx(|ks'|, j) ensures LinkedAt(tab', p, ks', j, false) {
      var i := if j < k then j else j + 1;
      assert Idx(|ks|, i) && LinkedAt(tab, p, ks, i, false) && ks'[j] == ks[i] && i != k;
      assert CutAt(tab, tab', ks, k, i);
    }
    forall i, j | Idx(|ks'|, i) && Idx(|ks'|, j) && i != j ensures ks'[i] != ks'[j] {
      assert Idx(|ks|, if i < k then i else i + 1) && Idx(|ks|, if j < k then j else j + 1);
    }
  }

  predicate CutAt(tab: seq<Task>, tab': seq<Task>, ks: seq<int>, k: nat, i: int)
    requires |tab| == NR_TASKS && |tab'| == NR_TASKS && k < |ks| && 0 <= i < |ks| && IsTask(ks[i])
  {
    SameLinks(
      if i == k - 1 then tab[ks[i]].(osptr := After(ks, k))
      else if i == k + 1 then tab[ks[i]].(ysptr := Before(ks, k))
      else tab[ks[i]], tab'[ks[i]])
  }

  /** A member of p's list is a child of p, and of nobody else. */
  lemma Member(s: Sys, loose: int, p: int, m: int)
    requires Links(s, loose) && IsTask(p) && m in s.kids[p]
    ensures IsTask(m) && s.tab[m].used && s.tab[m].pptr == p && s.tab[p].used && m != p
  {
    var k :| 0 <= k < |s.kids[p]| && s.kids[p][k] == m;
    assert ListOk(s.tab, p, s.kids[p], p == loose);
    assert Idx(|s.kids[p]|, k) && LinkedAt(s.tab, p, s.kids[p], k, p == loose);
    assert HasParent(s, m);
  }

  // ---------------------------------------------------------------- changes that leave the links alone

  predicate SoftAt(a: Task, b: Task) {
    SameLinks(a, b) && a.cptr == b.cptr && a.pid == b.pid
  }

  /** Times, groups, exit codes and states may change; only `loose` may become a zombie. */
  ghost predicate Soft(s: Sys, s': Sys, loose: int) {
    Sized(s) && Sized(s') && s'.kids == s.kids && s'.born == s.born && s'.clock == s.clock &&
    forall m :: IsTask(m) ==>
      SoftAt(s.tab[m], s'.tab[m]) && (s'.tab[m].state == Zombie ==> s.tab[m].state == Zombie || m == loose)
  }

  lemma SoftKeeps(s: Sys, s': Sys, loose: int)
    requires Inv(s) && Soft(s, s', loose) && loose != 0 && loose != 1
    ensures Links(s', loose) && Facts(s', loose)
  {
    forall p | IsTask(p) ensures ListOk(s'.tab, p, s'.kids[p], p == loose) {
      assert ListOk(s.tab, p, s.kids[p], false);
      ListSame(s.tab, s'.tab, p, s.kids[p], false);
      Loosen(s'.tab, p, s.kids[p]);
    }
    forall c | IsTask(c) ensures HasParent(s', c) {
      assert HasParent(s, c);
    }
    hide ListOk, HasParent, Links;
    forall i, j | IsTask(i) && IsTask(j) ensures PidsApart(s'.tab, i, j) {
      assert PidsApart(s.tab, i, j);
    }
  }

  lemma Loosen(tab: seq<Task>, p: int, ks: seq<int>)
    requires |tab| == NR_TASKS && IsTask(p) && ListOk(tab, p, ks, false)
    ensures ListOk(tab, p, ks, true)
  {
  }

  /** A task with no children left is not loose. */
  lemma Tighten(s: Sys, loose: int)
    requires Links(s, loose) && Facts(s, loose) && IsTask(loose) && s.kids[loose] == []
    ensures Inv(s)
  {
  }

  // ---------------------------------------------------------------- fork

  /** Task m after sys_fork has linked t as task nr, youngest child of cur. */
  function LinkAt(tab: seq<Task>, cur: int, nr: int, t: Task, m: int): Task
    requires |tab| == NR_TASKS && IsTask(cur) && IsTask(m)
  {
    var os := tab[cur].cptr;
    if m == nr then t.(used := true, pptr := cur, cptr := NULL, ysptr := NULL, osptr := os)
    else tab[m].(ysptr := if m == os then nr else tab[m].ysptr, cptr := if m == cur then nr else tab[m].cptr)
  }

  ghost predicate Forked(s: Sys, s': Sys, cur: int, nr: int, t: Task) {
    Sized(s) && IsTask(cur) && IsTask(nr) && |s'.tab| == NR_TASKS &&
    (forall m :: IsTask(m) ==> s'.tab[m] == LinkAt(s.tab, cur, nr, t, m)) &&
    s'.kids == s.kids[cur := [nr] + s.kids[cur]] && s'.born == s.born[nr := s.clock] && s'.clock == s.clock + 1
  }

  /** cur may fork into nr: task 0 makes task 1 and nothing else. */
  predicate MayFork(s: Sys, cur: int, nr: int)
    requires Sized(s)
  {
    IsTask(cur) && s.tab[cur].used && s.tab[cur].state != Zombie && IsTask(nr) && !s.tab[nr].used &&
    (cur == 0 <==> nr == 1) && (nr != 1 ==> s.tab[1].used)
  }

  lemma ForkLists(s: Sys, s': Sys, cur: int, nr: int, t: Task)
    requires Links(s, NULL) && MayFork(s, cur, nr) && nr != 0 && Forked(s, s', cur, nr, t)
    ensures forall p :: IsTask(p) ==> ListOk(s'.tab, p, s'.kids[p], false)
  {
    var ks := s.kids[cur];
    assert ListOk(s.tab, cur, ks, false) && ListOk(s.tab, nr, s.kids[nr], false);
    forall m | m in ks ensures IsTask(m) && s.tab[m].pptr == cur && m != nr { Member(s, NULL, cur, m); }
    ListPush(s.tab, s'.tab, cur, ks, nr);
    forall p | IsTask(p) && p != cur ensures ListOk(s'.tab, p, s'.kids[p], false) {
      assert ListOk(s.tab, p, s.kids[p], false);
      if p != nr {
        assert s'.tab[p] == LinkAt(s.tab, cur, nr, t, p);
        ListSame(s.tab, s'.tab, p, s.kids[p], false);
      }
    }
  }

  lemma ForkParent(s: Sys, s': Sys, cur: int, nr: int, t: Task, c: int)
    requires Links(s, NULL) && MayFork(s, cur, nr) && nr != 0 && Forked(s, s', cur, nr, t) && IsTask(c)
    ensures HasParent(s', c)
  {
  }

  lemma ForkKeeps(s: Sys, s': Sys, cur: int, nr: int, t: Task)
    requires Inv(s) && MayFork(s, cur, nr) && t.state != Zombie && Forked(s, s', cur, nr, t)
    requires forall i :: IsTask(i) && s.tab[i].used ==> s.tab[i].pid != t.pid
    ensures Inv(s')
  {
    ForkLists(s, s', cur, nr, t);
    forall c | IsTask(c) ensures HasParent(s', c) { ForkParent(s, s', cur, nr, t, c); }
    hide ListOk, HasParent;
    ForkFacts(s, s', cur, nr, t);
  }

  lemma ForkFacts(s: Sys, s': Sys, cur: int, nr: int, t: Task)
    requires Inv(s) && MayFork(s, cur, nr) && t.state != Zombie && Forked(s, s', cur, nr, t)
    requires forall i :: IsTask(i) && s.tab[i].used ==> s.tab[i].pid != t.pid
    ensures Sized(s') && Facts(s', NULL)
  {
    assert ListOk(s.tab, cur, s.kids[cur], false) && ListOk(s.tab, nr, s.kids[nr], false);
    if s.kids[cur] != [] { Member(s, NULL, cur, s.kids[cur][0]); HeadIsNotZero(s, NULL, cur); }
    hide ListOk, HasParent, Links;
    forall i, j | IsTask(i) && IsTask(j) ensures PidsApart(s'.tab, i, j) {
      assert PidsApart(s.tab, i, j);
    }
  }

  lemma HeadIsNotZero(s: Sys, loose: int, p: int)
    requires Links(s, loose) && IsTask(p) && s.kids[p] != []
    ensures s.tab[p].cptr == s.kids[p][0] && s.kids[p][0] != 0
  {
    assert ListOk(s.tab, p, s.kids[p], p == loose);
    assert Idx(|s.kids[p]|, 0) && LinkedAt(s.tab, p, s.kids[p], 0, p == loose);
  }

  // ---------------------------------------------------------------- exit

  /** Task m after one turn of do_exit's loop, which hands cur's youngest child p to task 1. */
  function AdoptAt(tab: seq<Task>, cur: int, m: int): Task
    requires |tab| == NR_TASKS && IsTask(cur) && IsTask(tab[cur].cptr) && IsTask(m)
  {
    var p, young := tab[cur].cptr, tab[1].cptr;
    tab[m].(cptr := if m == 1 then p else if m == cur then tab[p].osptr else tab[m].cptr,
            ysptr := if m == p then NULL else if m == young then p else tab[m].ysptr,
            pptr := if m == p then 1 else tab[m].pptr,
            osptr := if m == p then young else tab[m].osptr)
  }

  ghost predicate Adopted(s: Sys, s': Sys, cur: int) {
    Sized(s) && IsTask(cur) && IsTask(s.tab[cur].cptr) && s.kids[cur] != [] && |s'.tab| == NR_TASKS &&
    (forall m :: IsTask(m) ==> s'.tab[m] == AdoptAt(s.tab, cur, m)) &&
    s'.kids == s.kids[cur := s.kids[cur][1..]][1 := [s.kids[cur][0]] + s.kids[1]] &&
    s'.born == s.born && s'.clock == s.clock
  }

  predicate Leaving(s: Sys, cur: int)
    requires Sized(s)
  {
    IsTask(cur) && cur != 0 && cur != 1 && s.tab[cur].used
  }

  lemma AdoptLists(s: Sys, s': Sys, cur: int)
    requires Links(s, cur) && Leaving(s, cur) && s.kids[1] != [] && Adopted(s, s', cur)
    ensures forall p :: IsTask(p) ==> ListOk(s'.tab, p, s'.kids[p], p == cur)
  {
    hide Links, ListOk, Adopted;
    forall r | IsTask(r) ensures Sized(s') && ListOk(s'.tab, r, s'.kids[r], r == cur) {
      if r == cur {
        AdoptPop(s, s', cur);
      } else if r == 1 {
        AdoptPush(s, s', cur);
      } else {
        AdoptOther(s, s', cur, r);
      }
    }
  }

  /** The task that leaves loses its youngest child. */
  lemma AdoptPop(s: Sys, s': Sys, cur: int)
    requires Links(s, cur) && Leaving(s, cur) && s.kids[1] != [] && Adopted(s, s', cur)
    ensures Sized(s') && ListOk(s'.tab, cur, s'.kids[cur], true)
  {
    var ks, ks1 := s.kids[cur], s.kids[1];
    assert ListOk(s.tab, cur, ks, true) && ListOk(s.tab, 1, ks1, false);
    forall m | m in ks ensures IsTask(m) && s.tab[m].pptr == cur && m != cur { Member(s, cur, cur, m); }
    forall m | m in ks1 ensures IsTask(m) && s.tab[m].pptr == 1 && m != 1 { Member(s, cur, 1, m); }
    assert Idx(|ks|, 0) && LinkedAt(s.tab, cur, ks, 0, true);
    hide Links, HasParent;
    ListPop(s.tab, s'.tab, cur, ks, true);
  }

  /** Task 1 gains it. */
  lemma AdoptPush(s: Sys, s': Sys, cur: int)
    requires Links(s, cur) && Leaving(s, cur) && s.kids[1] != [] && Adopted(s, s', cur)
    ensures Sized(s') && ListOk(s'.tab, 1, s'.kids[1], false)
  {
    var ks, ks1 := s.kids[cur], s.kids[1];
    assert ListOk(s.tab, cur, ks, true) && ListOk(s.tab, 1, ks1, false);
    var p := ks[0];
    Member(s, cur, cur, p);
    forall m | m in ks1 ensures IsTask(m) && s.tab[m].pptr == 1 && m != 1 { Member(s, cur, 1, m); }
    assert Idx(|ks|, 0) && LinkedAt(s.tab, cur, ks, 0, true);
    hide Links, HasParent;
    ListPush(s.tab, s'.tab, 1, ks1, p);
  }

  lemma AdoptOther(s: Sys, s': Sys, cur: int, r: int)
    requires Links(s, cur) && Leaving(s, cur) && s.kids[1] != []
    requires Adopted(s, s', cur) && IsTask(r) && r != cur && r != 1
    ensures Sized(s') && ListOk(s'.tab, r, s'.kids[r], false)
  {
    hide ListOk, HasParent;
    assert ListOk(s.tab, r, s.kids[r], false);
    HeadIsNotZero(s, cur, cur);
    HeadIsNotZero(s, cur, 1);
    Member(s, cur, cur, s.kids[cur][0]);
    Member(s, cur, 1, s.kids[1][0]);
    hide Links;
    assert s'.tab[r] == AdoptAt(s.tab, cur, r);
    ListSame(s.tab, s'.tab, r, s.kids[r], false);
  }

  lemma AdoptParent(s: Sys, s': Sys, cur: int, c: int)
    requires Links(s, cur) && Leaving(s, cur) && Adopted(s, s', cur) && IsTask(c)
    ensures HasParent(s', c)
  {
    var p := s.kids[cur][0];
    HeadIsNotZero(s, cur, cur);
    Member(s, cur, cur, p);
    assert HasParent(s, c) && HasParent(s, p) && HasParent(s, cur);
    RootFirst(s, cur, p);
    hide ListOk, Links;
    assert s'.tab[c] == AdoptAt(s.tab, cur, c);
    if c != 0 && s.tab[c].used {
      StaysListed(s.kids, s'.kids, cur, s.tab[c].pptr, c);
    }
  }

  lemma StaysListed(kids: seq<seq<int>>, kids': seq<seq<int>>, cur: int, q: int, c: int)
    requires |kids| == NR_TASKS && IsTask(cur) && cur != 1 && IsTask(q) && kids[cur] != [] && c in kids[q]
    requires kids' == kids[cur := kids[cur][1..]][1 := [kids[cur][0]] + kids[1]]
    ensures if c == kids[cur][0] then c in kids'[1] else c in kids'[q]
  {
  }

  lemma AdoptKeeps(s: Sys, s': Sys, cur: int)
    requires Links(s, cur) && Facts(s, cur) && Leaving(s, cur) && Adopted(s, s', cur)
    ensures Links(s', cur) && Facts(s', cur)
  {
    InitHasChild(s, cur, cur);
    AdoptLists(s, s', cur);
    forall c | IsTask(c) ensures HasParent(s', c) { AdoptParent(s, s', cur, c); }
    HeadIsNotZero(s, cur, cur);
    HeadIsNotZero(s, cur, 1);
    hide ListOk, HasParent;
    AdoptFacts(s, s', cur);
  }

  lemma AdoptFacts(s: Sys, s': Sys, cur: int)
    requires Sized(s) && Facts(s, cur) && Leaving(s, cur) && Adopted(s, s', cur) && s.tab[cur].cptr == s.kids[cur][0]
    requires s.kids[cur][0] != 0 && s.tab[1].cptr != 0
    ensures Facts(s', cur)
  {
  }

  /** Task 1 was born before every other live task but task 0. */
  lemma {:induction false} RootFirst(s: Sys, loose: int, c: int)
    requires Links(s, loose) && IsTask(c) && s.tab[c].used && c != 0 && c != 1
    ensures s.born[1] < s.born[c]
    decreases s.born[c]
  {
    assert HasParent(s, c);
    var p := s.tab[c].pptr;
    if p != 1 {
      assert ListOk(s.tab, p, s.kids[p], p == loose);
      RootFirst(s, loose, p);
    }
  }

  // ---------------------------------------------------------------- release

  /** Task m after release(p): p leaves the table and its siblings close up. */
  function UnlinkAt(tab: seq<Task>, p: int, m: int): Task
    requires |tab| == NR_TASKS && IsTask(p) && IsTask(m)
  {
    var t := tab[p];
    tab[m].(used := tab[m].used && m != p,
            ysptr := if m == t.osptr then t.ysptr else tab[m].ysptr,
            osptr := if m == t.ysptr then t.osptr else tab[m].osptr,
            cptr := if m == t.pptr && t.ysptr == NULL then t.osptr else tab[m].cptr)
  }

  ghost predicate Released(s: Sys, s': Sys, q: int, p: int, k: nat) {
    Sized(s) && IsTask(q) && IsTask(p) && k < |s.kids[q]| && s.kids[q][k] == p && |s'.tab| == NR_TASKS &&
    (forall m :: IsTask(m) ==> s'.tab[m] == UnlinkAt(s.tab, p, m)) &&
    s'.kids == s.kids[q := s.kids[q][..k] + s.kids[q][k + 1..]] && s'.born == s.born && s'.clock == s.clock
  }

  lemma ReleaseLists(s: Sys, s': Sys, q: int, p: int, k: nat)
    requires Links(s, NULL) && Released(s, s', q, p, k) && s.kids[p] == []
    ensures forall r :: IsTask(r) ==> ListOk(s'.tab, r, s'.kids[r], false)
  {
    var ks := s.kids[q];
    assert ListOk(s.tab, q, ks, false);
    Member(s, NULL, q, p);
    assert Idx(|ks|, k) && LinkedAt(s.tab, q, ks, k, false);
    forall i | Idx(|ks|, i) && i != k && IsTask(ks[i]) ensures CutAt(s.tab, s'.tab, ks, k, i) {
      ReleaseAt(s, s', q, p, k, i);
    }
    ReleaseHead(s, s', q, p, k);
    ListCut(s.tab, s'.tab, q, ks, k);
    forall r | IsTask(r) && r != q ensures ListOk(s'.tab, r, s'.kids[r], false) {
      ReleaseOther(s, s', q, p, k, r);
    }
  }

  lemma ReleaseHead(s: Sys, s': Sys, q: int, p: int, k: nat)
    requires Links(s, NULL) && Released(s, s', q, p, k)
    ensures s'.tab[q].used && s'.tab[q].cptr == if k == 0 then After(s.kids[q], k) else s.tab[q].cptr
  {
    var ks := s.kids[q];
    assert ListOk(s.tab, q, ks, false);
    Member(s, NULL, q, p);
    assert Idx(|ks|, k) && LinkedAt(s.tab, q, ks, k, false);
    if k > 0 { Member(s, NULL, q, ks[k - 1]); }
    assert s'.tab[q] == UnlinkAt(s.tab, p, q);
  }

  lemma ReleaseOther(s: Sys, s': Sys, q: int, p: int, k: nat, r: int)
    requires Links(s, NULL) && Released(s, s', q, p, k) && s.kids[p] == [] && IsTask(r) && r != q
    ensures ListOk(s'.tab, r, s'.kids[r], false)
  {
    var ks := s.kids[q];
    assert ListOk(s.tab, q, ks, false) && ListOk(s.tab, r, s.kids[r], false);
    Member(s, NULL, q, p);
    assert Idx(|ks|, k) && LinkedAt(s.tab, q, ks, k, false);
    if k > 0 { Member(s, NULL, q, ks[k - 1]); }
    if k + 1 < |ks| { Member(s, NULL, q, ks[k + 1]); }
    hide ListOk, HasParent, Links;
    assert s'.tab[r] == UnlinkAt(s.tab, p, r);
    if r != p {
      ListSame(s.tab, s'.tab, r, s.kids[r], false);
    } else {
      EmptyList(s.tab, s'.tab, p);
    }
  }

  lemma EmptyList(tab: seq<Task>, tab': seq<Task>, p: int)
    requires |tab| == NR_TASKS && |tab'| == NR_TASKS && IsTask(p)
    requires ListOk(tab, p, [], false) && tab'[p].cptr == tab[p].cptr
    ensures ListOk(tab', p, [], false)
  {
  }

  lemma ReleaseAt(s: Sys, s': Sys, q: int, p: int, k: nat, i: nat)
    requires Links(s, NULL) && Released(s, s', q, p, k) && s.tab[p].pptr == q && p != q
    requires i < |s.kids[q]| && i != k && IsTask(s.kids[q][i])
    ensures CutAt(s.tab, s'.tab, s.kids[q], k, i)
  {
    var ks := s.kids[q];
    assert ListOk(s.tab, q, ks, false);
    assert Idx(|ks|, k) && LinkedAt(s.tab, q, ks, k, false);
    assert Idx(|ks|, i) && LinkedAt(s.tab, q, ks, i, false);
    assert s'.tab[ks[i]] == UnlinkAt(s.tab, p, ks[i]);
    if k > 0 { assert Idx(|ks|, k - 1) && LinkedAt(s.tab, q, ks, k - 1, false); }
    if k + 1 < |ks| { assert Idx(|ks|, k + 1) && LinkedAt(s.tab, q, ks, k + 1, false); }
  }

  lemma ReleaseParent(s: Sys, s': Sys, q: int, p: int, k: nat, c: int)
    requires Links(s, NULL) && Released(s, s', q, p, k) && IsTask(c)
    ensures HasParent(s', c)
  {
  }

  lemma ReleaseKeeps(s: Sys, s': Sys, q: int, p: int, k: nat)
    requires Inv(s) && Released(s, s', q, p, k) && s.tab[p].state == Zombie
    ensures Inv(s')
  {
    ReleaseLists(s, s', q, p, k);
    forall c | IsTask(c) ensures HasParent(s', c) { ReleaseParent(s, s', q, p, k, c); }
    ReleaseZero(s, q, p, k);
    hide ListOk, HasParent;
    forall i, j | IsTask(i) && IsTask(j) ensures PidsApart(s'.tab, i, j) {
      assert PidsApart(s.tab, i, j);
    }
  }

  lemma ReleaseZero(s: Sys, q: int, p: int, k: nat)
    requires Links(s, NULL) && IsTask(q) && k < |s.kids[q]| && s.kids[q][k] == p
    ensures IsTask(p) && p != 0 && s.tab[p].osptr != 0 && s.tab[p].ysptr != 0 && s.tab[p].pptr == q
  {
    var ks := s.kids[q];
    assert ListOk(s.tab, q, ks, false);
    assert Idx(|ks|, k) && LinkedAt(s.tab, q, ks, k, false);
    if k > 0 { assert Idx(|ks|, k - 1) && LinkedAt(s.tab, q, ks, k - 1, false); }
    if k + 1 < |ks| { assert Idx(|ks|, k + 1) && LinkedAt(s.tab, q, ks, k + 1, false); }
  }
}

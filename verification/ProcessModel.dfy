/** The task table of kernel/sched.c with its parent, child and sibling links, and the invariant that the
    links spell out a tree of child lists. */
module ProcessModel {
  import opened Basics
  import opened Tasks

  /** What the modelled code reads and writes of a task_struct; links are table indices or NULL. */
  datatype Task = Task(
    used: bool, state: RunState, pid: int, pgrp: int, exitCode: int,
    utime: nat, stime: nat, cutime: nat, cstime: nat,
    pptr: int, cptr: int, ysptr: int, osptr: int)

  /** kids[i] lists the children of task i from youngest to oldest; born[i] orders the tasks by creation. */
  datatype Sys = Sys(tab: seq<Task>, kids: seq<seq<int>>, born: seq<nat>, clock: nat)

  predicate Sized(s: Sys) {
    |s.tab| == NR_TASKS && |s.kids| == NR_TASKS && |s.born| == NR_TASKS
  }

  /** Entry k of p's child list is a task linked as the list says. For the loose list the young link of the
      first entry is left open. */
  predicate LinkedAt(tab: seq<Task>, p: int, ks: seq<int>, k: int, loose: bool) {
    0 <= k < |ks| && IsTask(ks[k]) && ks[k] != 0 && |tab| == NR_TASKS &&
    tab[ks[k]].used && tab[ks[k]].pptr == p && tab[ks[k]].osptr == After(ks, k) &&
    (tab[ks[k]].ysptr == Before(ks, k) || (loose && k == 0))
  }

  ghost predicate ListOk(tab: seq<Task>, p: int, ks: seq<int>, loose: bool)
    requires IsTask(p) && |tab| == NR_TASKS
  {
    tab[p].cptr == First(ks) && NoDup(ks) && (ks != [] ==> tab[p].used) &&
    forall k :: Idx(|ks|, k) ==> LinkedAt(tab, p, ks, k, loose)
  }

  /** A live task other than task 0 is in its parent's list, was born after it, and has task 0 for a parent
      just when it is task 1. */
  ghost predicate HasParent(s: Sys, c: int)
    requires Sized(s)
  {
    IsTask(c) && s.tab[c].used && c != 0 ==>
      IsTask(s.tab[c].pptr) && c in s.kids[s.tab[c].pptr] && s.born[s.tab[c].pptr] < s.born[c] < s.clock &&
      (s.tab[c].pptr == 0 <==> c == 1)
  }

  /** The tree, except that task `loose` may be in the middle of giving its children away. */
  ghost predicate Links(s: Sys, loose: int) {
    Sized(s) && s.born[0] < s.clock &&
    (forall p :: IsTask(p) ==> ListOk(s.tab, p, s.kids[p], p == loose)) &&
    (forall c :: IsTask(c) ==> HasParent(s, c))
  }

  /** Zombies have no children, but for the loose task; task 0 is used and nobody's child, and no live task
      exists without task 1; pids are unique. */
  ghost predicate Facts(s: Sys, loose: int)
    requires Sized(s)
  {
    s.tab[0].used && s.tab[0].ysptr == NULL && s.tab[0].osptr == NULL && s.tab[0].pptr == 0 &&
    s.tab[0].state != Zombie && s.tab[1].state != Zombie &&
    (forall i :: IsTask(i) && s.tab[i].used && i != 0 ==> s.tab[1].used) &&
    (forall i :: IsTask(i) && s.tab[i].state == Zombie && i != loose ==> s.kids[i] == []) &&
    (forall i, j :: IsTask(i) && IsTask(j) ==> PidsApart(s.tab, i, j))
  }

  predicate PidsApart(tab: seq<Task>, i: int, j: int) {
    IsTask(i) && IsTask(j) && |tab| == NR_TASKS && tab[i].used && tab[j].used && i != j ==> tab[i].pid != tab[j].pid
  }

  ghost predicate Inv(s: Sys) {
    Links(s, NULL) && Facts(s, NULL)
  }

  // ---------------------------------------------------------------- audit_ptree as a specification

  /** bad_task_ptr: not NULL and not in the table. */
  predicate BadTask(tab: seq<Task>, p: int)
    requires |tab| == NR_TASKS
  {
    p != NULL && !(IsTask(p) && tab[p].used)
  }

  /** None of the warnings of audit_ptree fires for task i. */
  predicate Audited(tab: seq<Task>, i: int)
    requires |tab| == NR_TASKS && IsTask(i)
  {
    var t := tab[i];
    !BadTask(tab, t.pptr) && !BadTask(tab, t.cptr) && !BadTask(tab, t.ysptr) && !BadTask(tab, t.osptr) &&
    t.pptr != i && t.cptr != i && t.ysptr != i && t.osptr != i &&
    (t.osptr != NULL ==> tab[t.osptr].pptr == t.pptr && tab[t.osptr].ysptr == i) &&
    (t.ysptr != NULL ==> tab[t.ysptr].pptr == t.pptr && tab[t.ysptr].osptr == i) &&
    (t.cptr != NULL ==> tab[t.cptr].pptr == i && tab[t.cptr].ysptr == NULL)
  }

  lemma LinksAudited(s: Sys, i: int)
    requires Links(s, NULL) && Facts(s, NULL) && IsTask(i) && i != 0 && s.tab[i].used
    ensures Audited(s.tab, i)
  {
    var p := s.tab[i].pptr;
    assert HasParent(s, i);
    var ks := s.kids[p];
    assert ListOk(s.tab, p, ks, false);
    var k :| 0 <= k < |ks| && ks[k] == i;
    assert Idx(|ks|, k) && LinkedAt(s.tab, p, ks, k, false);
    if k > 0 { assert Idx(|ks|, k - 1) && LinkedAt(s.tab, p, ks, k - 1, false); }
    if k + 1 < |ks| { assert Idx(|ks|, k + 1) && LinkedAt(s.tab, p, ks, k + 1, false); }
    assert ListOk(s.tab, i, s.kids[i], false);
    if s.kids[i] != [] {
      assert Idx(|s.kids[i]|, 0) && LinkedAt(s.tab, i, s.kids[i], 0, false);
      assert HasParent(s, s.kids[i][0]);
    }
  }

  // ---------------------------------------------------------------- task 1 always has a child to link beside

  /** Following parents from a live task leads to a child of task 1. */
  lemma {:induction false} InitHasChild(s: Sys, loose: int, c: int)
    requires Links(s, loose) && IsTask(c) && s.tab[c].used && c != 0 && c != 1
    ensures s.kids[1] != []
    decreases s.born[c]
  {
    assert HasParent(s, c);
    var p := s.tab[c].pptr;
    if p != 1 {
      assert ListOk(s.tab, p, s.kids[p], p == loose);
      InitHasChild(s, loose, p);
    }
  }
}

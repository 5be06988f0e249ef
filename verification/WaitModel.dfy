/** Wait queues threaded through the task table (wake_up and __sleep_on of kernel/sched.c). */
module WaitModel {
  import opened Basics
  import opened Tasks

  /** next is next_wait; inside is the queue whose __sleep_on the task is in the middle of, NULL for none. */
  datatype Task = Task(state: RunState, next: int, inside: int)

  /** chains[q] lists the tasks on queue q from its head on. */
  datatype Sys = Sys(tab: seq<Task>, heads: seq<int>, chains: seq<seq<int>>)

  predicate Asleep(t: Task) {
    t.state == Interruptible || t.state == Uninterruptible
  }

  predicate ChainedAt(tab: seq<Task>, q: int, ks: seq<int>, k: int) {
    0 <= k < |ks| && IsTask(ks[k]) && ks[k] != 0 && |tab| == NR_TASKS &&
    tab[ks[k]].inside == q && tab[ks[k]].next == After(ks, k)
  }

  /** Following next_wait from the head goes through the tasks of the chain, each once, and ends. */
  ghost predicate ChainOk(tab: seq<Task>, q: int, head: int, ks: seq<int>) {
    head == First(ks) && NoDup(ks) && forall k :: Idx(|ks|, k) ==> ChainedAt(tab, q, ks, k)
  }

  /** Inside __sleep_on a task is on its queue exactly while its next_wait is not task[0], and it is on the
      queue if it is asleep; outside it is on none. */
  predicate TaskOk(s: Sys, c: int)
    requires |s.tab| == NR_TASKS && IsTask(c)
  {
    var t := s.tab[c];
    if t.inside == NULL then t.next == NULL
    else 0 <= t.inside < |s.chains| && c != 0 && (c in s.chains[t.inside] <==> t.next != 0) &&
         (Asleep(t) ==> t.next != 0)
  }

  ghost predicate Inv(s: Sys) {
    |s.tab| == NR_TASKS && |s.heads| == |s.chains| &&
    (forall q :: Idx(|s.chains|, q) ==> ChainOk(s.tab, q, s.heads[q], s.chains[q])) &&
    (forall c :: IsTask(c) ==> TaskOk(s, c))
  }

  lemma Member(s: Sys, q: int, c: int)
    requires Inv(s) && Idx(|s.chains|, q) && c in s.chains[q]
    ensures IsTask(c) && c != 0 && s.tab[c].inside == q && s.tab[c].next != 0
  {
    var k :| 0 <= k < |s.chains[q]| && s.chains[q][k] == c;
    assert ChainOk(s.tab, q, s.heads[q], s.chains[q]);
    assert Idx(|s.chains[q]|, k) && ChainedAt(s.tab, q, s.chains[q], k);
    if k + 1 < |s.chains[q]| { assert Idx(|s.chains[q]|, k + 1) && ChainedAt(s.tab, q, s.chains[q], k + 1); }
  }

  /** A chain none of whose tasks has changed its link or place. */
  lemma ChainSame(tab: seq<Task>, tab': seq<Task>, q: int, head: int, ks: seq<int>)
    requires |tab| == NR_TASKS && |tab'| == NR_TASKS && ChainOk(tab, q, head, ks)
    requires forall c :: IsTask(c) && tab[c].inside == q && c in ks ==>
               tab'[c].inside == q && tab'[c].next == tab[c].next
    ensures ChainOk(tab', q, head, ks)
  {
  }

  // ---------------------------------------------------------------- sleeping

  /** cur joins queue q at its head. */
  ghost predicate Slept(s: Sys, s': Sys, cur: int, q: int, state: RunState) {
    |s.tab| == NR_TASKS && |s.heads| == |s.chains| && IsTask(cur) && Idx(|s.chains|, q) &&
    s'.tab == s.tab[cur := Task(state, s.heads[q], q)] && s'.heads == s.heads[q := cur] &&
    s'.chains == s.chains[q := [cur] + s.chains[q]]
  }

  lemma SleepKeeps(s: Sys, s': Sys, cur: int, q: int, state: RunState)
    requires Inv(s) && Slept(s, s', cur, q, state) && cur != 0 && s.tab[cur].inside == NULL
    ensures Inv(s')
  {
    var ks := s.chains[q];
    forall r | Idx(|s.chains|, r) ensures cur !in s.chains[r] {
      if cur in s.chains[r] { Member(s, r, cur); }
    }
    forall r | Idx(|s'.chains|, r) ensures ChainOk(s'.tab, r, s'.heads[r], s'.chains[r]) {
      assert ChainOk(s.tab, r, s.heads[r], s.chains[r]);
      ChainSame(s.tab, s'.tab, r, s.heads[r], s.chains[r]);
      if r == q { ChainPush(s'.tab, q, s.heads[q], ks, cur); }
    }
    HeadIsNotZero(s, q);
    forall c | IsTask(c) ensures TaskOk(s', c) {
      assert TaskOk(s, c);
    }
  }

  lemma HeadIsNotZero(s: Sys, q: int)
    requires Inv(s) && Idx(|s.chains|, q)
    ensures s.heads[q] == First(s.chains[q]) && s.heads[q] != 0 && (s.chains[q] != [] ==> s.heads[q] != NULL)
  {
    assert ChainOk(s.tab, q, s.heads[q], s.chains[q]);
    if s.chains[q] != [] { Member(s, q, s.chains[q][0]); }
  }

  lemma ChainPush(tab: seq<Task>, q: int, head: int, ks: seq<int>, cur: int)
    requires |tab| == NR_TASKS && ChainOk(tab, q, head, ks) && IsTask(cur) && cur != 0 && cur !in ks
    requires tab[cur].inside == q && tab[cur].next == head
    ensures ChainOk(tab, q, cur, [cur] + ks)
  {
    var ks' := [cur] + ks;
    forall k | Idx(|ks'|, k) ensures ChainedAt(tab, q, ks', k) {
      if k > 0 {
        assert Idx(|ks|, k - 1) && ChainedAt(tab, q, ks, k - 1);
        assert ks'[k] == ks[k - 1] && After(ks', k) == After(ks, k - 1);
      }
    }
    forall i, j | Idx(|ks'|, i) && Idx(|ks'|, j) && i != j ensures ks'[i] != ks'[j] {
      assert i > 0 ==> Idx(|ks|, i - 1) && ks'[i] == ks[i - 1];
      assert j > 0 ==> Idx(|ks|, j - 1) && ks'[j] == ks[j - 1];
    }
  }

  // ---------------------------------------------------------------- waking

  function WokenAt(t: Task): Task {
    t.(state := if t.state == Stopped || t.state == Zombie then t.state else Running, next := 0)
  }

  /** The whole chain of queue q is woken and the queue is empty. */
  ghost predicate Woken(s: Sys, s': Sys, q: int) {
    |s.tab| == NR_TASKS && |s'.tab| == NR_TASKS && Idx(|s.chains|, q) && |s.heads| == |s.chains| &&
    (forall c :: IsTask(c) ==> s'.tab[c] == if c in s.chains[q] then WokenAt(s.tab[c]) else s.tab[c]) &&
    s'.heads == s.heads[q := NULL] && s'.chains == s.chains[q := []]
  }

  lemma WakeKeeps(s: Sys, s': Sys, q: int)
    requires Inv(s) && Woken(s, s', q)
    ensures Inv(s')
    ensures forall c :: IsTask(c) && s.tab[c].inside == q ==> !Asleep(s'.tab[c]) && s'.tab[c].next == 0
    ensures forall c :: IsTask(c) && s.tab[c].inside == q && Asleep(s.tab[c]) ==> s'.tab[c].state == Running
  {
    forall c | c in s.chains[q] ensures IsTask(c) && s.tab[c].inside == q { Member(s, q, c); }
    forall r | Idx(|s'.chains|, r) ensures ChainOk(s'.tab, r, s'.heads[r], s'.chains[r]) {
      assert ChainOk(s.tab, r, s.heads[r], s.chains[r]);
      if r != q { ChainSame(s.tab, s'.tab, r, s.heads[r], s.chains[r]); }
    }
    forall c | IsTask(c) ensures TaskOk(s', c) {
      assert TaskOk(s, c);
    }
    forall c | IsTask(c) && s.tab[c].inside == q ensures !Asleep(s'.tab[c]) && s'.tab[c].next == 0 {
      assert TaskOk(s, c);
    }
  }

  // ---------------------------------------------------------------- leaving, and changes of state from outside

  /** cur, woken, goes on: it is on no queue. */
  ghost predicate Left(s: Sys, s': Sys, cur: int) {
    |s.tab| == NR_TASKS && IsTask(cur) &&
    s'.tab == s.tab[cur := s.tab[cur].(next := NULL, inside := NULL)] && s'.heads == s.heads && s'.chains == s.chains
  }

  lemma LeaveKeeps(s: Sys, s': Sys, cur: int)
    requires Inv(s) && Left(s, s', cur) && s.tab[cur].inside != NULL && s.tab[cur].next == 0
    ensures Inv(s') && forall q :: Idx(|s'.chains|, q) ==> cur !in s'.chains[q]
  {
    forall q | Idx(|s.chains|, q) ensures cur !in s.chains[q] {
      if cur in s.chains[q] { Member(s, q, cur); }
    }
    forall r | Idx(|s'.chains|, r) ensures ChainOk(s'.tab, r, s'.heads[r], s'.chains[r]) {
      assert ChainOk(s.tab, r, s.heads[r], s.chains[r]);
      ChainSame(s.tab, s'.tab, r, s.heads[r], s.chains[r]);
    }
    forall c | IsTask(c) ensures TaskOk(s', c) {
      assert TaskOk(s, c);
    }
  }

  /** A signal wakes, stops or continues a task; none puts a task to sleep that is inside __sleep_on. */
  predicate MayBecome(t: Task, state: RunState) {
    t.inside == NULL || (state != Interruptible && state != Uninterruptible)
  }

  lemma StateKeeps(s: Sys, s': Sys, c: int, state: RunState)
    requires Inv(s) && IsTask(c) && MayBecome(s.tab[c], state)
    requires s' == s.(tab := s.tab[c := s.tab[c].(state := state)])
    ensures Inv(s')
  {
  }
}

/** wake_up and __sleep_on as they run, and every interleaving of them. A task's call of __sleep_on is cut in
    two where it gives up the processor. */
module WaitQueues {
  import opened Basics
  import opened Tasks
  import opened WaitModel

  datatype Event =
    | Sleep(task: int, queue: int, interruptible: bool)
    | WakeUp(queue: int)
    | Resume(task: int)
    | Signal(task: int, state: RunState)

  /** What one event does; one that is not possible does nothing. A task that goes on while it is still on its queue
      wakes the whole queue first. */
  ghost predicate Did(s: Sys, s': Sys, e: Event) {
    |s.tab| == NR_TASKS && |s.heads| == |s.chains| &&
    match e
    case Sleep(c, q, interruptible) =>
      if IsTask(c) && c != 0 && s.tab[c].inside == NULL && Idx(|s.heads|, q)
      then Slept(s, s', c, q, if interruptible then Interruptible else Uninterruptible) else s' == s
    case WakeUp(q) => if Idx(|s.heads|, q) then Woken(s, s', q) else s' == s
    case Resume(c) =>
      if IsTask(c) && s.tab[c].inside != NULL && s.tab[c].state == Running
      then (if s.tab[c].next == 0 then Left(s, s', c) else exists m :: Woken(s, m, s.tab[c].inside) && Left(m, s', c))
      else s' == s
    case Signal(c, state) =>
      s' == if IsTask(c) && MayBecome(s.tab[c], state) then s.(tab := s.tab[c := s.tab[c].(state := state)]) else s
  }

  class Queues {
    var tab: seq<Task>
    var heads: seq<int>
    ghost var chains: seq<seq<int>>

    ghost function Abs(): Sys
      reads this
    {
      Sys(tab, heads, chains)
    }

    constructor (queues: nat)
      ensures Inv(Abs()) && |heads| == queues && forall c :: IsTask(c) ==> tab[c].inside == NULL
    {
      tab := seq(NR_TASKS, i => Task(Running, NULL, NULL));
      heads := seq(queues, i => NULL);
      chains := seq(queues, i => []);
    }

    /** wake_up: every task on the queue that is neither stopped nor a zombie becomes runnable. */
    method DoWakeUp(q: int)
      requires Inv(Abs()) && Idx(|heads|, q)
      modifies this
      ensures Woken(old(Abs()), Abs(), q) && Inv(Abs())
      ensures forall c :: IsTask(c) && old(tab)[c].inside == q ==> !Asleep(tab[c]) && tab[c].next == 0
      ensures forall c :: IsTask(c) && old(tab)[c].inside == q && Asleep(old(tab)[c]) ==> tab[c].state == Running
    {
      hide Inv;
      ghost var s := Abs();
      Sizes(s);
      HeadIsNotZero(s, q);
      ghost var ks := chains[q];
      ghost var k := 0;
      var w := heads[q];
      if w != NULL {
        heads := heads[q := NULL];
        while w != NULL && w != 0
          invariant |tab| == NR_TASKS && 0 <= k <= |ks| && w == (if k < |ks| then ks[k] else NULL) && w != 0
          invariant w == NULL ==> k == |ks|
          invariant forall c :: IsTask(c) ==> tab[c] == if c in ks[..k] then WokenAt(s.tab[c]) else s.tab[c]
          invariant heads == s.heads[q := NULL] && chains == s.chains
          decreases |ks| - k
        {
          NextOn(s, q, k);
          if tab[w].state != Stopped && tab[w].state != Zombie {
            tab := tab[w := tab[w].(state := Running)];
          }
          var tmp := tab[w].next;
          tab := tab[w := tab[w].(next := 0)];
          w := tmp;
          assert ks[..k + 1] == ks[..k] + [ks[k]];
          k := k + 1;
        }
        assert ks[..k] == ks;
      } else {
        assert ks == [] && heads[q := NULL] == heads;
      }
      chains := chains[q := []];
      assert Woken(s, Abs(), q);
      WakeKeeps(s, Abs(), q);
    }

    /** __sleep_on up to its call of schedule, by a task other than task 0. */
    method GoToSleep(cur: int, q: int, interruptible: bool)
      requires Inv(Abs()) && IsTask(cur) && cur != 0 && tab[cur].inside == NULL && Idx(|heads|, q)
      modifies this
      ensures Slept(old(Abs()), Abs(), cur, q, if interruptible then Interruptible else Uninterruptible) && Inv(Abs())
      ensures |heads| == |old(heads)| && heads[q] == cur && |tab| == NR_TASKS && tab[cur].next == old(heads)[q]
      ensures tab[cur].state == if interruptible then Interruptible else Uninterruptible
    {
      ghost var s := Abs();
      var state := if interruptible then Interruptible else Uninterruptible;
      tab := tab[cur := tab[cur].(next := heads[q])];
      assert TaskOk(s, 0);
      tab := tab[0 := tab[0].(next := NULL)];
      heads := heads[q := cur];
      tab := tab[cur := tab[cur].(state := state, inside := q)];
      chains := chains[q := [cur] + chains[q]];
      assert tab == s.tab[cur := Task(state, s.heads[q], q)];
      SleepKeeps(s, Abs(), cur, q, state);
    }

    /** The rest of __sleep_on, when the task is run again. */
    method Proceed(cur: int)
      requires Inv(Abs()) && IsTask(cur) && tab[cur].inside != NULL && tab[cur].state == Running
      modifies this
      ensures Inv(Abs()) && tab[cur].inside == NULL && tab[cur].next == NULL && tab[cur].state == Running
      ensures forall q :: Idx(|chains|, q) ==> cur !in chains[q]
      ensures if old(tab)[cur].next == 0 then Left(old(Abs()), Abs(), cur)
              else exists m :: Woken(old(Abs()), m, old(tab)[cur].inside) && Left(m, Abs(), cur)
    {
      hide Inv;
      Sizes(Abs());
      Known(Abs(), cur);
      if tab[cur].next != 0 {
        DoWakeUp(tab[cur].inside);
      }
      ghost var t := Abs();
      tab := tab[cur := tab[cur].(next := NULL, inside := NULL)];
      LeaveKeeps(t, Abs(), cur);
    }

    method Do(e: Event)
      requires Inv(Abs())
      modifies this
      ensures Inv(Abs()) && Did(old(Abs()), Abs(), e)
    {
      hide Woken, Left, Slept;
      match e
      case Sleep(cur, q, interruptible) =>
        if IsTask(cur) && cur != 0 && tab[cur].inside == NULL && Idx(|heads|, q) { GoToSleep(cur, q, interruptible); }
      case WakeUp(q) =>
        if Idx(|heads|, q) { DoWakeUp(q); }
      case Resume(cur) =>
        if IsTask(cur) && tab[cur].inside != NULL && tab[cur].state == Running { Proceed(cur); }
      case Signal(c, state) =>
        if IsTask(c) && MayBecome(tab[c], state) {
          ghost var s := Abs();
          tab := tab[c := tab[c].(state := state)];
          StateKeeps(s, Abs(), c, state);
        }
    }

    /** Every interleaving keeps every chain sound and every sleeper on its queue. */
    method Run(es: seq<Event>) returns (ghost trace: seq<Sys>)
      requires Inv(Abs())
      modifies this
      ensures Inv(Abs()) && |trace| == |es| + 1 && trace[0] == old(Abs()) && trace[|es|] == Abs()
      ensures forall k :: 0 <= k < |es| ==> Did(trace[k], trace[k + 1], es[k])
      ensures forall k :: 0 <= k <= |es| ==> Inv(trace[k])
      ensures forall c :: IsTask(c) && tab[c].inside != NULL && Asleep(tab[c]) ==>
                Idx(|chains|, tab[c].inside) && c in chains[tab[c].inside]
    {
      trace := [Abs()];
      for k := 0 to |es|
        invariant |trace| == k + 1 && trace[0] == old(Abs()) && trace[k] == Abs()
        invariant forall j :: 0 <= j < k ==> Did(trace[j], trace[j + 1], es[j])
        invariant forall j :: 0 <= j <= k ==> Inv(trace[j])
      {
        Do(es[k]);
        trace := trace + [Abs()];
      }
      forall c | IsTask(c) && tab[c].inside != NULL && Asleep(tab[c])
        ensures Idx(|chains|, tab[c].inside) && c in chains[tab[c].inside]
      {
        assert TaskOk(Abs(), c);
      }
    }
  }

  lemma Sizes(s: Sys)
    requires Inv(s)
    ensures |s.tab| == NR_TASKS && |s.heads| == |s.chains|
  {
  }

  lemma Known(s: Sys, cur: int)
    requires Inv(s) && IsTask(cur) && |s.tab| == NR_TASKS && s.tab[cur].inside != NULL
    ensures |s.heads| == |s.chains| && Idx(|s.chains|, s.tab[cur].inside)
  {
  }

  lemma NextOn(s: Sys, q: int, k: nat)
    requires Inv(s) && Idx(|s.chains|, q) && k < |s.chains[q]|
    ensures IsTask(s.chains[q][k]) && s.tab[s.chains[q][k]].next == After(s.chains[q], k)
    ensures s.chains[q][k] !in s.chains[q][..k]
    ensures k + 1 < |s.chains[q]| ==> s.chains[q][k + 1] != NULL && s.chains[q][k + 1] != 0
  {
    var ks := s.chains[q];
    assert ChainOk(s.tab, q, s.heads[q], ks);
    assert Idx(|ks|, k) && ChainedAt(s.tab, q, ks, k);
    forall i | 0 <= i < k ensures ks[i] != ks[k] { assert Idx(|ks|, i); }
    if k + 1 < |ks| { assert Idx(|ks|, k + 1) && ChainedAt(s.tab, q, ks, k + 1); }
  }
}

/** Accounting: the time charged to all tasks together, and the search for a pid. */
module ProcessTime {
  import opened Basics
  import opened ProcessModel

  /** The time charged to a task and its reaped children, in user mode or in the kernel. */
  function Time(t: Task, user: bool): nat {
    if !t.used then 0 else if user then t.utime + t.cutime else t.stime + t.cstime
  }

  /** The same over the first n entries of the table. */
  function Sum(tab: seq<Task>, user: bool, n: nat): nat
    requires n <= |tab|
  {
    if n == 0 then 0 else Sum(tab, user, n - 1) + Time(tab[n - 1], user)
  }

  function Total(tab: seq<Task>, user: bool): nat {
    Sum(tab, user, |tab|)
  }

  /** No time of either kind is lost or made. */
  ghost predicate Conserved(tab: seq<Task>, tab': seq<Task>) {
    forall user :: Total(tab', user) == Total(tab, user)
  }

  ghost predicate SameTime(t: Task, t': Task) {
    forall user :: Time(t', user) == Time(t, user)
  }

  /** Times change at a and b only. */
  lemma {:induction false} SumMoves(tab: seq<Task>, tab': seq<Task>, a: int, b: int, user: bool, n: nat)
    requires n <= |tab| == |tab'|
    requires forall i :: 0 <= i < |tab| && i != a && i != b ==> SameTime(tab[i], tab'[i])
    ensures Sum(tab', user, n) - Sum(tab, user, n) ==
            (if 0 <= a < n then Time(tab'[a], user) - Time(tab[a], user) else 0) +
            (if 0 <= b < n && b != a then Time(tab'[b], user) - Time(tab[b], user) else 0)
  {
    if n > 0 {
      SumMoves(tab, tab', a, b, user, n - 1);
    }
  }

  /** What a loses b gains. */
  lemma TimeMoves(tab: seq<Task>, tab': seq<Task>, a: int, b: int)
    requires |tab| == |tab'| && 0 <= a < |tab| && 0 <= b < |tab|
    requires forall i :: 0 <= i < |tab| && i != a && i != b ==> SameTime(tab[i], tab'[i])
    requires forall user :: Time(tab'[a], user) + (if b != a then Time(tab'[b], user) else 0) ==
                            Time(tab[a], user) + if b != a then Time(tab[b], user) else 0
    ensures Conserved(tab, tab')
  {
    forall user ensures Total(tab', user) == Total(tab, user) {
      SumMoves(tab, tab', a, b, user, |tab|);
    }
  }

  // ---------------------------------------------------------------- pids

  const MAX_PID: int := 0x7fff_ffff

  /** The i-th candidate after `last`, counting 1 .. MAX_PID round and round. */
  function Candidate(last: int, i: int): int {
    (last - 1 + i) % MAX_PID + 1
  }

  lemma CandidatesApart(last: int, i: int, j: int)
    requires i < j < i + MAX_PID
    ensures Candidate(last, i) != Candidate(last, j)
  {
  }

  /** Numbers some live task bears as pid or process group. */
  predicate Taken(tab: seq<Task>, n: int) {
    exists i :: 0 <= i < |tab| && tab[i].used && (tab[i].pid == n || tab[i].pgrp == n)
  }

  function TakenSet(tab: seq<Task>): set<int> {
    set i | 0 <= i < |tab| && tab[i].used :: tab[i].pid
  }

  function GroupSet(tab: seq<Task>): set<int> {
    set i | 0 <= i < |tab| && tab[i].used :: tab[i].pgrp
  }

  lemma TakenIsIn(tab: seq<Task>, n: int)
    ensures Taken(tab, n) <==> n in TakenSet(tab) + GroupSet(tab)
  {
  }

  lemma {:induction false} AtMost(tab: seq<Task>)
    ensures |TakenSet(tab)| <= |tab| && |GroupSet(tab)| <= |tab|
  {
    if tab != [] {
      var k := |tab| - 1;
      AtMost(tab[..k]);
      forall n | n in TakenSet(tab) ensures n in TakenSet(tab[..k]) + {tab[k].pid} {
        var i :| 0 <= i < |tab| && tab[i].used && tab[i].pid == n;
        assert i < k ==> tab[..k][i] == tab[i];
      }
      forall n | n in GroupSet(tab) ensures n in GroupSet(tab[..k]) + {tab[k].pgrp} {
        var i :| 0 <= i < |tab| && tab[i].used && tab[i].pgrp == n;
        assert i < k ==> tab[..k][i] == tab[i];
      }
      SubsetSize(TakenSet(tab), TakenSet(tab[..k]) + {tab[k].pid});
      SubsetSize(GroupSet(tab), GroupSet(tab[..k]) + {tab[k].pgrp});
    }
  }

  function Tried(last: int, k: nat): set<int> {
    set i | 1 <= i <= k :: Candidate(last, i)
  }

  lemma {:induction false} TriedSize(last: int, k: nat)
    requires k <= MAX_PID
    ensures |Tried(last, k)| == k
  {
    if k > 0 {
      TriedSize(last, k - 1);
      assert Candidate(last, k) !in Tried(last, k - 1) by {
        forall i | 1 <= i <= k - 1 ensures Candidate(last, i) != Candidate(last, k) {
          CandidatesApart(last, i, k);
        }
      }
      assert Tried(last, k) == Tried(last, k - 1) + {Candidate(last, k)};
    }
  }

  /** Fewer candidates than twice the table can be taken before a free one comes. */
  lemma FewTaken(tab: seq<Task>, last: int, k: nat)
    requires |tab| == NR_TASKS && k <= MAX_PID && forall i :: 1 <= i <= k ==> Taken(tab, Candidate(last, i))
    ensures k <= 2 * NR_TASKS
  {
    TriedSize(last, k);
    AtMost(tab);
    forall n | n in Tried(last, k) ensures n in TakenSet(tab) + GroupSet(tab) {
      TakenIsIn(tab, n);
    }
    SubsetSize(Tried(last, k), TakenSet(tab) + GroupSet(tab));
  }
}

/** Choosing the next task by its counter (schedule and do_timer of kernel/sched.c). */
module Scheduler {
  import opened Basics
  import opened Tasks

  datatype Task = Task(used: bool, state: RunState, counter: int, priority: int)

  predicate Runnable(tab: seq<Task>, i: int) {
    0 < i < |tab| && tab[i].used && tab[i].state == Running
  }

  /** i is the task schedule looks for: of the runnable tasks with the largest counter the highest-numbered,
      task 0 when none is runnable. */
  ghost predicate Best(tab: seq<Task>, i: int) {
    if forall j :: 0 < j < |tab| ==> !Runnable(tab, j) then i == 0
    else Runnable(tab, i) && forall j :: Runnable(tab, j) ==>
           tab[j].counter < tab[i].counter || (tab[j].counter == tab[i].counter && j <= i)
  }

  /** Every counter halved and its priority added. */
  function Refilled(tab: seq<Task>): (r: seq<Task>)
    ensures |r| == |tab| && forall i :: 0 <= i < |tab| ==> r[i] == RefilledAt(tab, i)
  {
    seq(|tab|, i requires 0 <= i < |tab| => RefilledAt(tab, i))
  }

  function RefilledAt(tab: seq<Task>, i: int): Task
    requires 0 <= i < |tab|
  {
    if i > 0 && tab[i].used then tab[i].(counter := tab[i].counter / 2 + tab[i].priority) else tab[i]
  }

  /** Neither counters nor priorities are negative. */
  ghost predicate Ok(tab: seq<Task>) {
    |tab| == NR_TASKS && forall i :: 0 < i < |tab| && tab[i].used ==> tab[i].priority >= 0 && tab[i].counter >= 0
  }

  /** Counters are below twice the priority. That is so until a priority is lowered. */
  ghost predicate Bounded(tab: seq<Task>) {
    forall i :: 0 < i < |tab| && tab[i].used && tab[i].priority >= 1 ==> tab[i].counter <= 2 * tab[i].priority - 1
  }

  /** A refill halves what a counter is above or below twice the priority. */
  lemma RefilledOk(tab: seq<Task>)
    requires Ok(tab)
    ensures Ok(Refilled(tab)) && (Bounded(tab) ==> Bounded(Refilled(tab)))
    ensures forall i :: 0 < i < |tab| && tab[i].used ==>
              Refilled(tab)[i].counter - 2 * tab[i].priority == (tab[i].counter - 2 * tab[i].priority) / 2
  {
    forall i | 0 < i < |tab| && tab[i].used ensures Refilled(tab)[i] == RefilledAt(tab, i) { }
  }

  // ---------------------------------------------------------------- whether schedule ends

  /** Some task can be given the processor at once, or after one refill. */
  ghost predicate CanChoose(tab: seq<Task>) {
    (forall j :: 0 < j < |tab| ==> !Runnable(tab, j)) ||
    exists j :: Runnable(tab, j) && (tab[j].counter > 0 || tab[j].priority > 0)
  }

  /** The table after n refills. */
  function Refills(tab: seq<Task>, n: nat): (r: seq<Task>)
    ensures |r| == |tab|
  {
    if n == 0 then tab else Refilled(Refills(tab, n - 1))
  }

  /** What a scan finds ends the loop of schedule: nobody to run, or somebody with time left. */
  ghost predicate Stops(tab: seq<Task>) {
    exists i :: Best(tab, i) && (i == 0 || (Runnable(tab, i) && tab[i].counter > 0))
  }

  /** A refill changes nothing for tasks without counter and priority. */
  lemma NeverChooses(tab: seq<Task>)
    requires Ok(tab) && !CanChoose(tab)
    ensures !CanChoose(Refilled(tab)) && forall j :: Runnable(tab, j) ==> Refilled(tab)[j] == tab[j]
  {
    var r := Refilled(tab);
    forall j | Runnable(tab, j) ensures r[j] == tab[j] && Runnable(r, j) {
      assert r[j] == RefilledAt(tab, j);
    }
    forall j | Runnable(r, j) ensures Runnable(tab, j) {
      assert r[j] == RefilledAt(tab, j);
    }
  }

  /** So however often schedule refills, the scan ends with a counter of 0. */
  lemma {:induction false} ZeroForEver(tab: seq<Task>, n: nat)
    requires Ok(tab) && !CanChoose(tab)
    ensures Ok(Refills(tab, n)) && !CanChoose(Refills(tab, n)) && !Stops(Refills(tab, n))
    ensures forall i :: Best(Refills(tab, n), i) ==> Runnable(Refills(tab, n), i) && Refills(tab, n)[i].counter == 0
  {
    if n > 0 {
      ZeroForEver(tab, n - 1);
      RefilledOk(Refills(tab, n - 1));
      NeverChooses(Refills(tab, n - 1));
    }
  }

  /** The same of the tasks below n. */
  predicate BestBelow(tab: seq<Task>, n: int, i: int) {
    Runnable(tab, i) && i < n && forall j :: 0 < j < n && j < |tab| && Runnable(tab, j) ==> NoBetter(tab, i, j)
  }

  predicate NoBetter(tab: seq<Task>, i: int, j: int)
    requires 0 <= i < |tab| && 0 <= j < |tab|
  {
    tab[j].counter < tab[i].counter || (tab[j].counter == tab[i].counter && j <= i)
  }

  lemma {:induction false} HasBest(tab: seq<Task>, n: nat, k: int) returns (i: int)
    requires n <= |tab| && k < n && Runnable(tab, k)
    ensures BestBelow(tab, n, i)
  {
    i := n - 1;
    if l :| 0 < l < n - 1 && Runnable(tab, l) {
      var m := HasBest(tab, n - 1, l);
      if !Runnable(tab, n - 1) || tab[n - 1].counter < tab[m].counter {
        i := m;
      }
    }
  }

  lemma ChoosesNow(tab: seq<Task>)
    requires |tab| > 0 && ((exists j :: Runnable(tab, j)) ==> exists j :: Runnable(tab, j) && tab[j].counter > 0)
    ensures Stops(tab)
  {
    if k :| Runnable(tab, k) && tab[k].counter > 0 {
      var i := HasBest(tab, |tab|, k);
      assert NoBetter(tab, i, k);
      assert Best(tab, i) by {
        forall j | Runnable(tab, j) ensures NoBetter(tab, i, j) { }
      }
    } else {
      assert Best(tab, 0);
    }
  }

  /** schedule ends if and only if some refill or none makes the scan find a task, and then one is enough. */
  lemma EndsExactly(tab: seq<Task>)
    requires Ok(tab)
    ensures CanChoose(tab) <==> exists n: nat :: Stops(Refills(tab, n))
    ensures CanChoose(tab) ==> Stops(tab) || Stops(Refilled(tab))
  {
    if !CanChoose(tab) {
      forall n: nat ensures !Stops(Refills(tab, n)) { ZeroForEver(tab, n); }
      return;
    }
    assert Refills(tab, 0) == tab && Refills(tab, 1) == Refilled(tab);
    if (exists j :: Runnable(tab, j)) && forall j :: Runnable(tab, j) ==> tab[j].counter <= 0 {
      RunnableSame(tab);
      var j :| Runnable(tab, j) && tab[j].priority > 0;
      assert Refilled(tab)[j] == RefilledAt(tab, j) && Runnable(Refilled(tab), j);
      ChoosesNow(Refilled(tab));
    } else {
      ChoosesNow(tab);
    }
  }

  // ---------------------------------------------------------------- how a priority comes to 0

  /** sys_nice: what is left of priority p. An increment that is too large is cut; one equal to p is not. */
  function Niced(p: int, increment: int): int {
    p - if increment > p then p - 1 else increment
  }

  predicate MayNice(increment: int, super: bool) {
    increment >= 0 || super
  }

  /** A priority never becomes negative, and becomes 0 exactly for an increment equal to it. */
  lemma NicedIs(p: int, increment: int)
    requires p >= 0
    ensures Niced(p, increment) >= 0 && (Niced(p, increment) == 0 <==> increment == p)
    ensures increment >= 0 && p >= 1 ==> Niced(p, increment) <= p
  {
  }

  /** As long as no increment equals the priority, schedule always ends. */
  lemma NiceKeepsChoice(tab: seq<Task>, i: int, increment: int)
    requires Ok(tab) && Runnable(tab, i) && forall j :: Runnable(tab, j) ==> tab[j].priority >= 1
    ensures var tab' := tab[i := tab[i].(priority := Niced(tab[i].priority, increment))];
      Ok(tab') && ((forall j :: Runnable(tab', j) ==> tab'[j].priority >= 1) <==> increment != tab[i].priority)
    ensures CanChoose(tab)
  {
    var tab' := tab[i := tab[i].(priority := Niced(tab[i].priority, increment))];
    forall j ensures Runnable(tab', j) <==> Runnable(tab, j) { }
  }

  /** A single runnable task. */
  function Lone(counter: int, priority: int): seq<Task> {
    seq(NR_TASKS, i => Task(i <= 1, if i == 1 then Running else Interruptible, counter, priority))
  }

  function SpentTimes(tab: seq<Task>, i: int, n: nat): (r: seq<Task>)
    requires 0 <= i < |tab|
    ensures |r| == |tab|
  {
    if n == 0 then tab else Spent(SpentTimes(tab, i, n - 1), i)
  }

  lemma {:induction false} SpentIs(tab: seq<Task>, i: int, n: nat)
    requires 0 <= i < |tab|
    ensures SpentTimes(tab, i, n) == tab[i := tab[i].(counter := tab[i].counter - n)]
  {
    if n > 0 { SpentIs(tab, i, n - 1); }
  }

  /** The only runnable task, of priority 15, calls nice(15) and uses up its time: do_timer calls schedule at the
      fifteenth tick and not before, and schedule then never ends. */
  lemma NiceStopsAll()
    ensures var tab := Lone(15, Niced(15, 15));
      Ok(Lone(15, 15)) && CanChoose(Lone(15, 15)) && MayNice(15, false) && Lone(15, Niced(15, 15)) == Lone(15, 0) &&
      (forall n: nat :: n < 15 ==> SpentTimes(tab, 1, n)[1].counter > 0) &&
      Ok(SpentTimes(tab, 1, 15)) && !CanChoose(SpentTimes(tab, 1, 15)) &&
      forall n: nat :: !Stops(Refills(SpentTimes(tab, 1, 15), n))
  {
    var tab := Lone(15, 0);
    assert Runnable(Lone(15, 15), 1);
    forall n: nat ensures SpentTimes(tab, 1, n)[1].counter == 15 - n { SpentIs(tab, 1, n); }
    SpentIs(tab, 1, 15);
    var out := SpentTimes(tab, 1, 15);
    assert Runnable(out, 1);
    forall n: nat ensures !Stops(Refills(out, n)) { ZeroForEver(out, n); }
  }

  // ---------------------------------------------------------------- shares

  /** The table once the running task has paid for its tick. */
  function Spent(tab: seq<Task>, i: int): seq<Task>
    requires 0 <= i < |tab|
  {
    tab[i := tab[i].(counter := tab[i].counter - 1)]
  }

  predicate AllOut(tab: seq<Task>) {
    forall j :: 0 < j < |tab| && Runnable(tab, j) ==> tab[j].counter == 0
  }

  /** What a tick does: the running task pays; when it has nothing left the best task runs next, after a refill if
      no runnable task has anything left. */
  ghost predicate Ticked(tab: seq<Task>, i: int, refilled: bool, tab': seq<Task>, i': int) {
    0 < i < |tab| &&
    var t := Spent(tab, i);
    (refilled <==> AllOut(t)) && tab' == (if refilled then Refilled(t) else t) &&
    if t[i].counter > 0 then i' == i else Best(tab', i')
  }

  /** trace holds the tables between the ticks, who[k] ran during tick k. */
  ghost predicate Ticking(trace: seq<seq<Task>>, who: seq<int>, refills: seq<bool>) {
    |trace| == |who| == |refills| + 1 &&
    forall k :: 0 <= k < |refills| ==> Ticked(trace[k], who[k], refills[k], trace[k + 1], who[k + 1])
  }

  /** How many of the ticks a to b - 1 task j had. */
  function Share(who: seq<int>, a: nat, b: nat, j: int): nat
    requires a <= b <= |who|
    decreases b - a
  {
    if a == b then 0 else Share(who, a, b - 1, j) + Bit(who[b - 1] == j)
  }

  /** Until the next refill a task's ticks come off its counter. */
  lemma {:induction false} ShareIsSpent(trace: seq<seq<Task>>, who: seq<int>, refills: seq<bool>, a: nat, b: nat,
                                        j: int)
    requires Ticking(trace, who, refills) && a <= b <= |refills| && (forall k :: a <= k < b ==> !refills[k])
    requires 0 <= j < |trace[a]|
    ensures |trace[b]| == |trace[a]| && (Runnable(trace[b], j) <==> Runnable(trace[a], j))
    ensures trace[b][j].counter == trace[a][j].counter - Share(who, a, b, j)
    decreases b - a
  {
    if a < b {
      ShareIsSpent(trace, who, refills, a, b - 1, j);
      assert Ticked(trace[b - 1], who[b - 1], refills[b - 1], trace[b], who[b]);
    }
  }

  /** From any tick a up to the refill that ends the interval, each runnable task runs exactly as many ticks as its
      counter says at a; from one refill to the next, as many as the refill gave it. */
  lemma ShareIsCounter(trace: seq<seq<Task>>, who: seq<int>, refills: seq<bool>, a: nat, b: nat, j: int)
    requires Ticking(trace, who, refills) && a < b <= |refills|
    requires refills[b - 1] && (forall k :: a <= k < b - 1 ==> !refills[k])
    requires Runnable(trace[a], j)
    ensures Share(who, a, b, j) == trace[a][j].counter
  {
    ShareIsSpent(trace, who, refills, a, b - 1, j);
    assert Ticked(trace[b - 1], who[b - 1], refills[b - 1], trace[b], who[b]);
    var t := Spent(trace[b - 1], who[b - 1]);
    assert Runnable(t, j) && t[j].counter == 0;
  }

  class Processor {
    var tab: seq<Task>
    var current: int
    ghost var ran: seq<nat>          // ticks of each task since the last refill
    ghost var budget: seq<int>       // counters right after the last refill

    /** The tasks at some point, the best one running. */
    constructor (tasks: seq<Task>, running: int)
      requires Ok(tasks) && Runnable(tasks, running) && tasks[running].counter > 0
      requires forall j :: Runnable(tasks, j) ==> tasks[j].priority >= 1
      ensures Fair() && tab == tasks && current == running
    {
      tab, current := tasks, running;
      ran, budget := seq(NR_TASKS, _ => 0), Counters(tasks);
    }

    /** One pass of schedule's inner loop. */
    method Scan() returns (c: int, next: int)
      requires Ok(tab)
      ensures Best(tab, next) && c == (if next == 0 then -1 else tab[next].counter) && 0 <= next < NR_TASKS
      ensures forall j :: 1 <= j < 64 && tab[j].used && tab[j].state == Running ==>
                next > 0 && tab[j].counter <= c && (tab[j].counter == c ==> j <= next)
      ensures next > 0 ==> tab[next].used && tab[next].state == Running && c == tab[next].counter
    {
      c, next := -1, 0;
      var i := NR_TASKS - 1;
      while i > 0
        invariant 0 <= i < NR_TASKS && (next == 0 || i < next < NR_TASKS)
        invariant next == 0 ==> c == -1 && forall j :: i < j < |tab| ==> !Runnable(tab, j)
        invariant next != 0 ==> Runnable(tab, next) && c == tab[next].counter
        invariant next != 0 ==> forall j :: i < j < |tab| && Runnable(tab, j) ==>
                    tab[j].counter < c || (tab[j].counter == c && j <= next)
      {
        if tab[i].used && tab[i].state == Running && tab[i].counter > c {
          c, next := tab[i].counter, i;
        }
        i := i - 1;
      }
      forall j | 1 <= j < 64 && tab[j].used && tab[j].state == Running
        ensures next > 0 && tab[j].counter <= c && (tab[j].counter == c ==> j <= next)
      {
        assert Runnable(tab, j);
      }
    }

    /** The refill loop. */
    method Refill()
      requires |tab| == NR_TASKS
      modifies `tab
      ensures tab == Refilled(old(tab))
    {
      var i := NR_TASKS - 1;
      while i > 0
        invariant 0 <= i < NR_TASKS && |tab| == NR_TASKS
        invariant forall j :: 0 <= j < NR_TASKS ==> tab[j] == if j > i then RefilledAt(old(tab), j) else old(tab)[j]
      {
        if tab[i].used {
          tab := tab[i := tab[i].(counter := tab[i].counter / 2 + tab[i].priority)];
        }
        i := i - 1;
      }
    }

    /** sys_nice of the current task; super is suser(). false stands for EPERM. */
    method SysNice(increment: int, super: bool) returns (ok: bool)
      requires Ok(tab) && 0 < current < |tab| && tab[current].used
      modifies `tab
      ensures Ok(tab) && (ok <==> MayNice(increment, super))
      ensures tab == if ok then old(tab)[current := old(tab)[current].(priority :=
                Niced(old(tab)[current].priority, increment))] else old(tab)
      ensures tab[current].priority == 0 <==>
                if ok then increment == old(tab)[current].priority else old(tab)[current].priority == 0
    {
      if increment < 0 && !super {
        return false;
      }
      NicedIs(tab[current].priority, increment);
      var step := increment;
      if step > tab[current].priority {
        step := tab[current].priority - 1;
      }
      tab := tab[current := tab[current].(priority := tab[current].priority - step)];
      ok := true;
    }

    /** schedule: at most one refill, and the best task runs. */
    method Schedule() returns (refilled: bool)
      requires Ok(tab) && CanChoose(tab)
      modifies `tab, `current
      ensures Ok(tab) && Best(tab, current) && 0 <= current < NR_TASKS
      ensures refilled <==> (exists j :: Runnable(old(tab), j)) &&
                            forall j :: Runnable(old(tab), j) ==> old(tab)[j].counter == 0
      ensures tab == if refilled then Refilled(old(tab)) else old(tab)
      ensures current != 0 ==> Runnable(tab, current) && tab[current].counter > 0
      ensures (exists j :: Runnable(old(tab), j)) ==> current != 0
    {
      var c, next := Scan();
      refilled := false;
      while c == 0
        invariant Ok(tab) && Best(tab, next) && 0 <= next < NR_TASKS
        invariant c == (if next == 0 then -1 else tab[next].counter)
        invariant tab == if refilled then Refilled(old(tab)) else old(tab)
        invariant refilled ==> c != 0
        invariant refilled ==> (exists j :: Runnable(old(tab), j)) &&
                               forall j :: Runnable(old(tab), j) ==> old(tab)[j].counter == 0
        decreases !refilled
      {
        Refill();
        RefilledOk(old(tab));
        RunnableSame(old(tab));
        refilled := true;
        c, next := Scan();
      }
      RunnableSame(old(tab));
      current := next;
    }

    // ------------------------------------------------------------ fairness between refills

    /** Since the last refill each runnable task has used what is missing from its budget. */
    ghost predicate Fair()
      reads this
    {
      Ok(tab) && Balanced(tab, ran, budget) && Runnable(tab, current) && tab[current].counter > 0
    }

    /** do_timer for a tick in user mode, the set of runnable tasks being fixed. When it leads to a refill, every
        runnable task has run exactly as many ticks as its counter said after the refill before. */
    method Tick() returns (refilled: bool)
      requires Fair()
      modifies this
      ensures Fair()
      ensures refilled ==> forall j :: Runnable(old(tab), j) ==>
                old(ran)[j] + (if j == old(current) then 1 else 0) == old(budget)[j]
      ensures forall j :: Runnable(tab, j) <==> Runnable(old(tab), j)
      ensures if refilled then forall j :: Runnable(tab, j) ==> ran[j] == 0 && budget[j] == tab[j].counter
              else budget == old(budget) && ran == old(ran)[old(current) := old(ran)[old(current)] + 1]
      ensures Ticked(old(tab), old(current), refilled, tab, current)
    {
      hide Best, Refilled, Ok, Balanced, Runnable, CanChoose, AllOut;
      refilled := false;
      Spend(tab, ran, budget, current);
      tab := tab[current := tab[current].(counter := tab[current].counter - 1)];
      ran := ran[current := ran[current] + 1];
      OutOrNot(tab, current);
      if tab[current].counter > 0 {
        return;
      }
      ghost var was, used := tab, ran;
      refilled := Schedule();
      if refilled {
        AllSpent(was, used, budget);
        RunnableSame(was);
        PrioritiesSame(was, used, budget);
        ran := seq(NR_TASKS, _ => 0);
        budget := Counters(tab);
        Afresh(tab, ran, budget);
      }
    }

    /** Any number of ticks, the set of runnable tasks being fixed: in every stretch that ends with a refill and has
        none before, each runnable task runs exactly as many ticks as its counter said where the stretch began. */
    method Run(n: nat) returns (ghost trace: seq<seq<Task>>, ghost who: seq<int>, ghost refills: seq<bool>)
      requires Fair()
      modifies this
      ensures Fair() && |refills| == n && Ticking(trace, who, refills)
      ensures (trace[0], who[0]) == (old(tab), old(current)) && (trace[n], who[n]) == (tab, current)
      ensures forall k, j :: 0 <= k <= n && Runnable(old(tab), j) ==> Runnable(trace[k], j)
      ensures forall a, b, j :: 0 <= a < b <= n && Interval(refills, a, b) && Runnable(old(tab), j) ==>
                0 <= j < |trace[a]| && Share(who, a, b, j) == trace[a][j].counter
    {
      hide Ticked, Ok, Balanced, Runnable;
      trace, who, refills := [tab], [current], [];
      for k := 0 to n
        invariant Fair() && |refills| == k && Ticking(trace, who, refills)
        invariant (trace[0], who[0]) == (old(tab), old(current)) && (trace[k], who[k]) == (tab, current)
        invariant forall i, j :: 0 <= i <= k && Runnable(old(tab), j) ==> Runnable(trace[i], j)
        invariant forall j :: Runnable(tab, j) <==> Runnable(old(tab), j)
      {
        var refilled := Tick();
        TicksOn(trace, who, refills, refilled, tab, current);
        trace, who, refills := trace + [tab], who + [current], refills + [refilled];
      }
      forall a, b, j | 0 <= a < b <= n && Interval(refills, a, b) && Runnable(old(tab), j)
        ensures 0 <= j < |trace[a]| && Share(who, a, b, j) == trace[a][j].counter
      {
        assert Runnable(trace[a], j);
        InTable(trace[a], j);
        ShareIsCounter(trace, who, refills, a, b, j);
      }
    }
  }

  /** Tick b - 1 brings a refill, and none from a on does before it. */
  predicate Interval(refills: seq<bool>, a: int, b: int) {
    0 <= a < b <= |refills| && refills[b - 1] && forall k :: a <= k < b - 1 ==> !refills[k]
  }

  lemma TicksOn(trace: seq<seq<Task>>, who: seq<int>, refills: seq<bool>, refilled: bool, tab: seq<Task>, i: int)
    requires Ticking(trace, who, refills) && Ticked(trace[|refills|], who[|refills|], refilled, tab, i)
    ensures Ticking(trace + [tab], who + [i], refills + [refilled])
  {
    hide Ticked;
  }

  lemma InTable(tab: seq<Task>, j: int)
    requires Runnable(tab, j)
    ensures 0 <= j < |tab|
  {
  }

  /** A task with something left keeps the processor from running out. */
  lemma OutOrNot(tab: seq<Task>, i: int)
    requires Runnable(tab, i)
    ensures tab[i].counter > 0 ==> !AllOut(tab)
    ensures AllOut(tab) <==> (exists j :: Runnable(tab, j)) && forall j :: Runnable(tab, j) ==> tab[j].counter == 0
  {
  }

  ghost predicate Balanced(tab: seq<Task>, ran: seq<nat>, budget: seq<int>) {
    |tab| == |ran| == |budget| == NR_TASKS &&
    forall j :: Runnable(tab, j) ==> tab[j].priority >= 1 && tab[j].counter + ran[j] == budget[j]
  }

  lemma Spend(tab: seq<Task>, ran: seq<nat>, budget: seq<int>, i: int)
    requires Ok(tab) && Balanced(tab, ran, budget) && Runnable(tab, i) && tab[i].counter > 0
    ensures |tab| == |ran| == NR_TASKS && 0 <= i < NR_TASKS
    ensures var tab' := tab[i := tab[i].(counter := tab[i].counter - 1)];
            Ok(tab') && CanChoose(tab') && Runnable(tab', i) && Balanced(tab', ran[i := ran[i] + 1], budget) &&
            (forall j :: Runnable(tab', j) <==> Runnable(tab, j))
  {
  }

  lemma AllSpent(tab: seq<Task>, ran: seq<nat>, budget: seq<int>)
    requires Balanced(tab, ran, budget) && forall j :: Runnable(tab, j) ==> tab[j].counter == 0
    ensures forall j :: Runnable(tab, j) ==> 0 <= j < NR_TASKS && ran[j] == budget[j]
  {
  }

  lemma PrioritiesSame(tab: seq<Task>, ran: seq<nat>, budget: seq<int>)
    requires Balanced(tab, ran, budget)
    ensures |Refilled(tab)| == NR_TASKS && forall j :: Runnable(Refilled(tab), j) ==> Refilled(tab)[j].priority >= 1
  {
  }

  ghost function Counters(tab: seq<Task>): (c: seq<int>)
    ensures |c| == |tab| && forall j :: 0 <= j < |tab| ==> c[j] == tab[j].counter
  {
    seq(|tab|, j requires 0 <= j < |tab| => tab[j].counter)
  }

  lemma Afresh(tab: seq<Task>, ran: seq<nat>, budget: seq<int>)
    requires |tab| == |ran| == NR_TASKS && budget == Counters(tab) && forall j :: 0 <= j < |ran| ==> ran[j] == 0
    requires forall j :: Runnable(tab, j) ==> tab[j].priority >= 1
    ensures Balanced(tab, ran, budget) && forall j :: Runnable(tab, j) ==> ran[j] == 0 && budget[j] == tab[j].counter
  {
  }

  lemma RunnableSame(tab: seq<Task>)
    ensures forall j :: Runnable(Refilled(tab), j) <==> Runnable(tab, j)
  {
  }
}

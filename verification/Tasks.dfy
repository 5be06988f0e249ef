/** What every model of the task table shares: its size, task states and lists of table indices. */
module Tasks {

  const NULL: int := -1

  datatype RunState = Running | Interruptible | Uninterruptible | Zombie | Stopped

  function First(ks: seq<int>): int {
    if ks == [] then NULL else ks[0]
  }

  function Before(ks: seq<int>, k: int): int {
    if 0 < k <= |ks| then ks[k - 1] else NULL
  }

  function After(ks: seq<int>, k: int): int {
    if 0 <= k + 1 < |ks| then ks[k + 1] else NULL
  }
}

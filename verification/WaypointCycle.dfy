/** The cycle automatic advances follow through a list of waypoints: the first waypoint is flown to once,
    the others in turn for ever. */
module WaypointCycle {

  /** The waypoint after `active`: the last one wraps to 1, a lone one stays. */
  function NextActive(active: nat, size: nat): nat {
    if active == size - 1 && size > 1 then 1
    else if active + 1 < size then active + 1
    else active
  }

  lemma ModSuccessor(n: nat, m: nat)
    requires m > 0
    ensures (n + 1) % m == if n % m == m - 1 then 0 else n % m + 1
  {
    var q, r := n / m, n % m;
    if r == m - 1 {
      assert n + 1 == (q + 1) * m + 0;
      RemainderIs(n + 1, q + 1, 0, m);
    } else {
      assert n + 1 == q * m + (r + 1);
      RemainderIs(n + 1, q, r + 1, m);
    }
  }

  lemma RemainderIs(n: int, q: int, r: int, m: int)
    requires 0 <= r < m && n == q * m + r
    ensures n % m == r
  {
    var d := n / m - q;
    assert d * m == (n / m) * m - q * m;
    assert n == (n / m) * m + n % m;
    assert d >= 1 ==> d * m >= m;
    assert d <= -1 ==> d * m <= -m;
  }

  /** `k` automatic advances. */
  function AdvanceTimes(active: nat, size: nat, k: nat): nat {
    if k == 0 then active else NextActive(AdvanceTimes(active, size, k - 1), size)
  }

  /** Place `n` on a cycle through 1 .. m. */
  function OnCycle(n: nat, m: nat): nat
    requires m > 0
  {
    1 + n % m
  }

  lemma NextOnCycle(n: nat, m: nat)
    requires m > 0
    ensures NextActive(OnCycle(n, m), m + 1) == OnCycle(n + 1, m)
  {
    ModSuccessor(n, m);
  }

  lemma CycleStart(n: nat, m: nat)
    requires n < m
    ensures OnCycle(n, m) == 1 + n
  {
    RemainderIs(n, 0, n, m);
  }

  lemma {:induction false} CycleFrom(n: nat, m: nat, k: nat)
    requires n < m
    ensures AdvanceTimes(1 + n, m + 1, k) == OnCycle(n + k, m)
  {
    hide OnCycle, NextActive;
    if k == 0 {
      CycleStart(n, m);
    } else {
      CycleFrom(n, m, k - 1);
      NextOnCycle(n + (k - 1), m);
    }
  }

  /** Automatic advances go round 1 .. size - 1 and never return to 0. */
  lemma AdvancesCycle(active: nat, size: nat, k: nat)
    requires 1 <= active < size
    ensures AdvanceTimes(active, size, k) == 1 + (active - 1 + k) % (size - 1)
  {
    CycleFrom(active - 1, size - 1, k);
  }

  /** Every index but 0 comes round again. */
  lemma EveryWaypointRecurs(active: nat, size: nat, target: nat) returns (k: nat)
    requires 1 <= active < size && 1 <= target < size
    ensures 1 <= k < size && AdvanceTimes(active, size, k) == target
  {
    k := if target > active then target - active else size - 1 + target - active;
    AdvancesCycle(active, size, k);
    if target <= active {
      RemainderIs(active - 1 + k, 1, target - 1, size - 1);
    } else {
      RemainderIs(active - 1 + k, 0, target - 1, size - 1);
    }
  }
}

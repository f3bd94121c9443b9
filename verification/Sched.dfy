/** The round-robin choice of sched_yield, and how long an environment can wait for it. */
module Sched {

  const NENV: nat := 1024

  datatype Status = FREE | DYING | RUNNABLE | RUNNING | NOT_RUNNABLE

  const NONE: int := -1

  /** Circular distance from slot a to slot b. */
  function Dist(a: nat, b: nat): (d: nat)
    requires a < NENV && b < NENV
    ensures d < NENV && (d == 0 <==> a == b)
  {
    if a <= b then b - a else NENV - a + b
  }

  /** p is the choice: the nearest runnable slot going round from cur, with cur itself
      first; failing that, cur if it is still running; failing that, none. */
  ghost predicate Chosen(st: seq<Status>, cur: int, p: int)
    requires |st| == NENV && NONE <= cur < NENV
  {
    var from := if cur == NONE then 0 else cur;
    if p == NONE then
      (forall i :: 0 <= i < NENV ==> st[i] != RUNNABLE) && (cur != NONE ==> st[cur] != RUNNING)
    else
      && 0 <= p < NENV
      && (st[p] == RUNNABLE ==> forall i :: 0 <= i < NENV && st[i] == RUNNABLE ==> Dist(from, p) <= Dist(from, i))
      && (st[p] != RUNNABLE ==> p == cur && st[p] == RUNNING && forall i :: 0 <= i < NENV ==> st[i] != RUNNABLE)
  }

  /** sched_yield, up to the call of env_run or sched_halt (NONE). */
  method Pick(st: array<Status>, cur: int) returns (p: int)
    requires st.Length == NENV && NONE <= cur < NENV
    ensures NONE <= p < NENV && Chosen(st[..], cur, p)
  {
    var i := 0;
    if cur == NONE {
      while i < NENV && st[i] != RUNNABLE
        invariant 0 <= i <= NENV && forall k :: 0 <= k < i ==> st[k] != RUNNABLE
      {
        i := i + 1;
      }
      return if i == NENV then NONE else i;
    }
    var run := st[cur];
    i := cur;
    while i < NENV && st[i] != RUNNABLE
      invariant cur <= i <= NENV && forall k :: cur <= k < i ==> st[k] != RUNNABLE
    {
      i := i + 1;
    }
    if i < NENV { return i; }
    i := 0;
    while i < cur && st[i] != RUNNABLE
      invariant 0 <= i <= cur && forall k :: 0 <= k < i ==> st[k] != RUNNABLE
    {
      i := i + 1;
    }
    if i < cur { return i; }
    if run == RUNNING { return cur; }
    return NONE;
  }

  /** The choice is a function of the statuses. */
  lemma ChosenUnique(st: seq<Status>, cur: int, p: int, q: int)
    requires |st| == NENV && NONE <= cur < NENV && Chosen(st, cur, p) && Chosen(st, cur, q)
    ensures p == q
  {}

  /* ---- bounded waiting ---- */

  /** Consecutive yields of one CPU whose curenv is never NULL: st[k] is what the k-th
      yield sees, whatever other CPUs did in between; the env giving way is not RUNNABLE. */
  ghost predicate Yields(st: seq<seq<Status>>, cur: seq<int>) {
    && |cur| == |st| + 1
    && (forall k :: 0 <= k < |cur| ==> 0 <= cur[k] < NENV)
    && (forall k :: 0 <= k < |st| ==> |st[k]| == NENV && st[k][cur[k]] != RUNNABLE && Chosen(st[k], cur[k], cur[k + 1]))
  }

  ghost predicate StaysRunnable(st: seq<seq<Status>>, t: nat)
    requires t < NENV && forall k :: 0 <= k < |st| ==> |st[k]| == NENV
  {
    forall k :: 0 <= k < |st| ==> st[k][t] == RUNNABLE
  }

  lemma CloserStep(st: seq<Status>, cur: nat, next: int, t: nat)
    requires |st| == NENV && cur < NENV && t < NENV && st[t] == RUNNABLE && st[cur] != RUNNABLE
    requires 0 <= next < NENV && Chosen(st, cur, next)
    ensures next == t || Dist(next, t) < Dist(cur, t)
  {}

  lemma {:induction false} Closer(st: seq<seq<Status>>, cur: seq<int>, t: nat, k: nat)
    requires t < NENV && Yields(st, cur) && StaysRunnable(st, t) && k < |cur|
    requires forall j :: 1 <= j <= k ==> cur[j] != t
    ensures Dist(cur[k], t) + k <= Dist(cur[0], t)
  {
    if k > 0 {
      Closer(st, cur, t, k - 1);
      CloserStep(st[k - 1], cur[k - 1], cur[k], t);
    }
  }

  /** Bounded waiting: an environment that stays RUNNABLE is chosen within NENV - 1
      consecutive yields, whatever the other CPUs do to the other environments. */
  lemma BoundedWaiting(st: seq<seq<Status>>, cur: seq<int>, t: nat)
    requires t < NENV && Yields(st, cur) && StaysRunnable(st, t) && |st| >= NENV - 1
    ensures exists k :: 1 <= k <= NENV - 1 && cur[k] == t
  {
    assert st[0][t] == RUNNABLE && st[0][cur[0]] != RUNNABLE;
    if forall k :: 1 <= k <= NENV - 1 ==> cur[k] != t {
      assert cur[NENV - 1] != t;
      Closer(st, cur, t, NENV - 1);
      assert false;
    }
  }

  /** k slots on from c0, going round. */
  function Going(c0: nat, k: nat): nat
    requires c0 < NENV && k <= NENV
  {
    if c0 + k < NENV then c0 + k else c0 + k - NENV
  }

  function AllButRunning(at: nat): seq<Status> { seq(NENV, i => if i == at then RUNNING else RUNNABLE) }

  /** With every other environment runnable, each yield moves on by one. */
  lemma NextInRow(c0: nat, k: nat)
    requires c0 < NENV && k < NENV - 1
    ensures Going(c0, k) < NENV && Chosen(AllButRunning(Going(c0, k)), Going(c0, k), Going(c0, k + 1))
  {
    assert Dist(Going(c0, k), Going(c0, k + 1)) == 1;
  }

  /** The bound is attained: a run of NENV - 2 yields in which the environment just behind the first
      one stays runnable and is not chosen. */
  lemma BoundAttained(c0: nat) returns (st: seq<seq<Status>>, cur: seq<int>, t: nat)
    requires c0 < NENV
    ensures t < NENV && Yields(st, cur) && StaysRunnable(st, t) && |st| == NENV - 2 && cur[0] == c0 && t !in cur
  {
    t := Going(c0, NENV - 1);
    cur := seq(NENV - 1, k requires 0 <= k < NENV => Going(c0, k));
    st := seq(NENV - 2, k requires 0 <= k < NENV => AllButRunning(Going(c0, k)));
    forall k | 0 <= k < NENV - 2 ensures Chosen(st[k], cur[k], cur[k + 1]) { NextInRow(c0, k); }
  }
}

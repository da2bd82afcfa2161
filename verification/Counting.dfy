/** What the analyses charge for, counted one by one: releases, deadlines, ticks and jiffies. */
module Counting {
  import opened Resch
  import Arith

  /** Releases at `r`, `r + p` and so on before the end of an interval of length `L`. */
  ghost function Releases(r: nat, p: Pos, L: nat): nat
    decreases L - r
  {
    if r < L then 1 + Releases(r + p, p, L) else 0
  }

  /** Deadlines at `d`, `d + p` and so on up to `L`. */
  ghost function Deadlines(d: nat, p: Pos, L: nat): nat
    decreases L - d
  {
    if d <= L then 1 + Deadlines(d + p, p, L) else 0
  }

  /** `L` is one of these deadlines. */
  ghost predicate AtDeadline(d: nat, p: Pos, L: nat)
    decreases L - d
  {
    d == L || (d < L && AtDeadline(d + p, p, L))
  }

  /** Jiffies begun within `us` microseconds. */
  ghost function Jiffies(us: nat, tick: Pos): nat {
    if us == 0 then 0 else if us <= tick then 1 else 1 + Jiffies(us - tick, tick)
  }

  /** What one release costs: a context switch, the release itself, and a migration if the task may migrate. */
  ghost function ReleaseCost(pf: Platform, p: Task): nat {
    pf.switchCost + pf.releaseCost + if p.migratory then pf.migrationCost else 0
  }

  /** The costs of the releases of a task from `r` on. */
  ghost function Charges(pf: Platform, p: Task, r: nat, L: nat): nat
    requires 0 < p.period
    decreases L - r
  {
    if r < L then ReleaseCost(pf, p) + Charges(pf, p, r + PeriodMicros(pf, p), L) else 0
  }

  ghost function PeriodMicros(pf: Platform, p: Task): Pos
    requires 0 < p.period
  {
    Positive(p.period, pf.tick);
    p.period * pf.tick
  }

  lemma Positive(a: nat, b: nat)
    requires 0 < a && 0 < b
    ensures 0 < a * b
  {
  }

  /** The costs of all tasks of a CPU and of half a switch at every tick begun. */
  ghost function CpuCharges(pf: Platform, ts: seq<Task>, L: nat): nat
    requires Periodic(ts)
  {
    TaskCharges(pf, ts, L) + Releases(0, pf.tick, L) * pf.switchCost / 2
  }

  ghost function TaskCharges(pf: Platform, ts: seq<Task>, L: nat): nat
    requires Periodic(ts)
  {
    if ts == [] then 0 else Charges(pf, ts[0], 0, L) + TaskCharges(pf, ts[1..], L)
  }

  // ---------------------------------------------------------------- the closed forms count them

  lemma CeilUnique(x: nat, y: Pos, n: nat)
    requires x <= n * y < x + y
    ensures CeilDiv(x, y) == n
  {
    var m := CeilDiv(x, y);
    if m < n {
      Arith.MulMono(m + 1, n, y);
    } else if n < m {
      Arith.MulMono(n + 1, m, y);
    }
  }

  lemma CeilStep(x: nat, y: Pos)
    ensures x == 0 ==> CeilDiv(x, y) == 0
    ensures 0 < x <= y ==> CeilDiv(x, y) == 1
    ensures y < x ==> CeilDiv(x, y) == 1 + CeilDiv(x - y, y)
  {
    if x == 0 {
      CeilUnique(x, y, 0);
    } else if x <= y {
      CeilUnique(x, y, 1);
    } else {
      var n := CeilDiv(x - y, y);
      assert (1 + n) * y == n * y + y;
      CeilUnique(x, y, 1 + n);
    }
  }

  lemma {:induction false} ReleasesAreCeil(r: nat, p: Pos, L: nat)
    ensures Releases(r, p, L) == if r < L then CeilDiv(L - r, p) else 0
    decreases L - r
  {
    if r < L {
      ReleasesAreCeil(r + p, p, L);
      CeilStep(L - r, p);
    }
  }

  lemma {:induction false} JiffiesAreCeil(us: nat, tick: Pos)
    ensures Jiffies(us, tick) == CeilDiv(us, tick)
  {
    CeilStep(us, tick);
    if tick < us {
      JiffiesAreCeil(us - tick, tick);
    }
  }

  lemma {:induction false} DeadlinesAreQuotient(d: nat, p: Pos, L: nat)
    ensures Deadlines(d, p, L) == if L < d then 0 else (L - d) / p + 1
    decreases L - d
  {
    if d <= L {
      DeadlinesAreQuotient(d + p, p, L);
      if d + p <= L {
        Arith.DivShift(L - d, p, 1);
      } else {
        Arith.DivUnique(L - d, p, 0);
      }
    }
  }

  lemma Succ(n: nat, c: nat)
    ensures (1 + n) * c == c + n * c
  {
  }

  lemma {:induction false} ChargesAreProduct(pf: Platform, p: Task, r: nat, L: nat)
    requires 0 < p.period
    ensures Charges(pf, p, r, L) == Releases(r, PeriodMicros(pf, p), L) * ReleaseCost(pf, p)
    decreases L - r
  {
    if r < L {
      ChargesAreProduct(pf, p, r + PeriodMicros(pf, p), L);
      Succ(Releases(r + PeriodMicros(pf, p), PeriodMicros(pf, p), L), ReleaseCost(pf, p));
    }
  }

  lemma Twice(n: nat, a: nat, b: nat)
    ensures n * (a + b) == n * a + n * b
  {
  }

  /** The overhead of a task is the cost of each of its releases. */
  lemma OverheadTaskCounts(pf: Platform, p: Task, L: nat)
    requires 0 < p.period
    ensures OverheadTask(pf, p, L) == Charges(pf, p, 0, L)
  {
    ChargesAreProduct(pf, p, 0, L);
    ReleasesAreCeil(0, PeriodMicros(pf, p), L);
    CeilStep(0, PeriodMicros(pf, p));
    var n := CeilDiv(L, PeriodMicros(pf, p));
    assert Releases(0, PeriodMicros(pf, p), L) == n;
    if p.migratory {
      Twice(n, pf.switchCost + pf.releaseCost, pf.migrationCost);
    }
  }

  lemma {:induction false} TaskChargesAppend(pf: Platform, ts: seq<Task>, p: Task, L: nat)
    requires Periodic(ts) && 0 < p.period
    ensures Periodic(ts + [p]) && TaskCharges(pf, ts + [p], L) == TaskCharges(pf, ts, L) + Charges(pf, p, 0, L)
  {
    if ts == [] {
      assert [] + [p] == [p] && [p][1..] == [];
    } else {
      assert (ts + [p])[1..] == ts[1..] + [p];
      TaskChargesAppend(pf, ts[1..], p, L);
    }
  }

  lemma {:induction false} OverheadTasksCount(pf: Platform, ts: seq<Task>, L: nat)
    requires Periodic(ts)
    ensures OverheadTasks(pf, ts, L) == TaskCharges(pf, ts, L)
  {
    if ts != [] {
      var front, p := ts[..|ts| - 1], ts[|ts| - 1];
      OverheadTasksCount(pf, front, L);
      OverheadTaskCounts(pf, p, L);
      TaskChargesAppend(pf, front, p, L);
      assert ts == front + [p];
    }
  }

  /** The overhead of a CPU is the cost of each release of its tasks and half a switch for each tick. */
  lemma OverheadCpuCounts(pf: Platform, ts: seq<Task>, L: nat)
    requires Periodic(ts)
    ensures OverheadCpu(pf, ts, L) == CpuCharges(pf, ts, L)
  {
    OverheadTasksCount(pf, ts, L);
    ReleasesAreCeil(0, pf.tick, L);
    CeilStep(0, pf.tick);
  }

  lemma {:induction false} AtDeadlineIff(d: nat, p: Pos, L: nat)
    ensures AtDeadline(d, p, L) <==> d <= L && (L - d) % p == 0
    decreases L - d
  {
    if d < L {
      AtDeadlineIff(d + p, p, L);
      if d + p <= L {
        Arith.ModShift(L - d, p);
      } else {
        Arith.DivUnique(L - d, p, 0);
      }
    } else if d == L {
      Arith.DivUnique(0, p, 0);
    }
  }
}

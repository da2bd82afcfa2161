/** The EDF-FF test in terms of what it counts: jobs with release and deadline in an interval, and the cost of
    every release and tick in it. */
module EdfCounts {
  import opened Resch
  import opened Counting
  import opened EdfFf
  import Arith

  /** The jobs of every task with their deadline up to `L`, in jiffies begun for each task. */
  ghost function CountedDemand(pf: Platform, ts: seq<Task>, L: nat): nat
    requires Periodic(ts)
  {
    if ts == [] then 0
    else
      Jiffies(Deadlines(ts[0].deadline, ts[0].period, L) * ts[0].wcet, pf.tick) + CountedDemand(pf, ts[1..], L)
  }

  /** Demand and costs fit in the interval. The costs are those of an interval of `L` microseconds, although
      `L` counts jiffies. */
  ghost predicate FitsCounted(pf: Platform, ts: seq<Task>, rt: Task, L: nat)
    requires Periodic(ts) && 0 < rt.period
  {
    && Periodic(ts + [rt])
    && CountedDemand(pf, ts + [rt], L) + Jiffies(CpuCharges(pf, ts, L) + Charges(pf, rt, 0, L), pf.tick) <= L
  }

  lemma {:induction false} CountedAppend(pf: Platform, ts: seq<Task>, p: Task, L: nat)
    requires Periodic(ts) && 0 < p.period
    ensures Periodic(ts + [p])
    ensures CountedDemand(pf, ts + [p], L) ==
            CountedDemand(pf, ts, L) + Jiffies(Deadlines(p.deadline, p.period, L) * p.wcet, pf.tick)
  {
    if ts == [] {
      assert [] + [p] == [p] && [p][1..] == [];
    } else {
      assert (ts + [p])[1..] == ts[1..] + [p];
      CountedAppend(pf, ts[1..], p, L);
    }
  }

  lemma DbfTaskCounts(pf: Platform, p: Task, L: nat)
    requires 0 < p.period
    ensures DbfTask(pf, p, L) == Jiffies(Deadlines(p.deadline, p.period, L) * p.wcet, pf.tick)
  {
    DeadlinesAreQuotient(p.deadline, p.period, L);
    JiffiesAreCeil(Deadlines(p.deadline, p.period, L) * p.wcet, pf.tick);
  }

  lemma {:induction false} DbfSumCounts(pf: Platform, ts: seq<Task>, L: nat)
    requires Periodic(ts)
    ensures DbfSum(pf, ts, L) == CountedDemand(pf, ts, L)
  {
    if ts != [] {
      var front, p := ts[..|ts| - 1], ts[|ts| - 1];
      assert ts == front + [p];
      DbfSumCounts(pf, front, L);
      DbfTaskCounts(pf, p, L);
      CountedAppend(pf, front, p, L);
    }
  }

  /** One comparison of the test. */
  lemma FitsIffCounted(pf: Platform, ts: seq<Task>, rt: Task, L: nat)
    requires Periodic(ts) && 0 < rt.period
    ensures Fits(pf, ts, rt, L) <==> FitsCounted(pf, ts, rt, L)
  {
    DbfSumCounts(pf, ts, L);
    DbfTaskCounts(pf, rt, L);
    CountedAppend(pf, ts, rt, L);
    OverheadCpuCounts(pf, ts, L);
    OverheadTaskCounts(pf, rt, L);
    JiffiesAreCeil(CpuCharges(pf, ts, L) + Charges(pf, rt, 0, L), pf.tick);
  }

  lemma CheckpointIsDeadline(q: Task, L: nat)
    requires 0 < q.period
    ensures AtDeadline(q.deadline, q.period, L) <==> exists k: nat :: L == Checkpoint(q, k)
  {
    AtDeadlineIff(q.deadline, q.period, L);
    if AtDeadline(q.deadline, q.period, L) {
      var k := (L - q.deadline) / q.period;
      assert L == Checkpoint(q, k);
    }
    if k: nat :| L == Checkpoint(q, k) {
      Multiple(k, q.period);
    }
  }

  lemma Multiple(k: nat, p: Pos)
    ensures k * p % p == 0
  {
    Arith.DivUnique(k * p, p, k);
  }

  /** Acceptance: at every deadline of every task up to the test length, the jobs due by then and the cost of
      every release and tick fit. */
  lemma AcceptsIffCounted(pf: Platform, ts: seq<Task>, rt: Task)
    requires Periodic(ts) && 0 < rt.period
    ensures Periodic(ts + [rt])
    ensures
      Accepts(pf, ts, rt) <==>
      rt.wcet == 0 ||
      forall q: Task, L: nat ::
        q in ts + [rt] && L <= TestLength(pf, ts + [rt]) && AtDeadline(q.deadline, q.period, L) ==>
          FitsCounted(pf, ts, rt, L)
  {
    forall q: Task, L: nat | q in ts + [rt]
      ensures AtDeadline(q.deadline, q.period, L) <==> exists k: nat :: L == Checkpoint(q, k)
      ensures Fits(pf, ts, rt, L) <==> FitsCounted(pf, ts, rt, L)
    {
      CheckpointIsDeadline(q, L);
      FitsIffCounted(pf, ts, rt, L);
    }
    if Accepts(pf, ts, rt) && rt.wcet != 0 {
      forall q: Task, L: nat
        | q in ts + [rt] && L <= TestLength(pf, ts + [rt]) && AtDeadline(q.deadline, q.period, L)
        ensures FitsCounted(pf, ts, rt, L)
      {
        assert ChecksOut(pf, ts, rt, q, TestLength(pf, ts + [rt]));
      }
    }
  }

  // ---------------------------------------------------------------- up to which length

  lemma LengthIff(x: nat, u: nat, d: nat, L: nat)
    ensures L <= Length(x, u, d) <==> L <= d || (u < 100 && 100 * L <= x + u * L)
  {
    if u < 100 {
      Arith.DivShift(x, 100 - u, L);
      assert L * (100 - u) == 100 * L - u * L;
    }
  }

  /** A length is looked at if it is at most some deadline, or if the line through the slack whose slope is
      the utilization has not fallen below full utilization there. */
  lemma TestLengthIff(pf: Platform, ts: seq<Task>, L: nat)
    requires Periodic(ts) && 0 < L
    ensures
      L <= TestLength(pf, ts) <==>
      || (exists p :: p in ts && L <= p.deadline)
      || (UtilSum(pf, ts) < 100 && 100 * L <= SlackWord(pf, ts) + UtilSum(pf, ts) * L)
  {
    if ts != [] {
      DeadlineReached(ts);
    }
    LengthIff(SlackWord(pf, ts), UtilSum(pf, ts), MaxDeadline(ts), L);
  }

  lemma DeadlineReached(ts: seq<Task>)
    requires ts != []
    ensures exists p :: p in ts && p.deadline == MaxDeadline(ts)
  {
    var front, p := ts[..|ts| - 1], ts[|ts| - 1];
    if MaxDeadline(front) > p.deadline {
      DeadlineReached(front);
      var q :| q in front && q.deadline == MaxDeadline(front);
      assert q in ts;
    }
  }

  /** The utilization is the greatest whole percent that the execution time fills. */
  lemma UtilIff(pf: Platform, p: Task, u: nat)
    requires 0 < p.period
    ensures u <= Util(pf, p) <==> u * PeriodMicros(pf, p) <= 100 * p.wcet
  {
    Arith.DivShift(100 * p.wcet, PeriodMicros(pf, p), u);
  }

  // ---------------------------------------------------------------- which CPU

  /** The allowed CPU can take the task: its utilization is below 100 percent, and the task has no work or every
      deadline up to the test length fits. */
  ghost predicate TakesCounted(pf: Platform, list: seq<Task>, rt: Task, c: nat)
    requires Periodic(OnCpu(list, c)) && 0 < rt.period
  {
    var ts := OnCpu(list, c);
    && Periodic(ts + [rt]) && UtilSum(pf, ts) < 100
    && (rt.wcet == 0 ||
        forall q: Task, L: nat ::
          q in ts + [rt] && L <= TestLength(pf, ts + [rt]) && AtDeadline(q.deadline, q.period, L) ==>
            FitsCounted(pf, ts, rt, L))
  }

  /** A CPU is found just when some allowed one can take the task, and it is the first of these with the
      least utilization. */
  lemma WorstFitIffTaken(pf: Platform, list: seq<Task>, rt: Task, allowed: set<nat>, dst: nat)
    requires (forall c: nat :: c < pf.cpus ==> Periodic(OnCpu(list, c))) && 0 < rt.period
    requires WorstFit(pf, list, rt, allowed, dst)
    ensures dst < pf.cpus <==> exists c: nat :: c < pf.cpus && c in allowed && TakesCounted(pf, list, rt, c)
    ensures dst < pf.cpus ==>
              && dst in allowed && TakesCounted(pf, list, rt, dst)
              && forall c: nat :: c < pf.cpus && c in allowed && TakesCounted(pf, list, rt, c) ==>
                                    && UtilSum(pf, OnCpu(list, dst)) <= UtilSum(pf, OnCpu(list, c))
                                    && (c < dst ==> UtilSum(pf, OnCpu(list, dst)) < UtilSum(pf, OnCpu(list, c)))
  {
    forall c: nat | c < pf.cpus && c in allowed
      ensures Eligible(pf, list, rt, allowed, c) <==> TakesCounted(pf, list, rt, c)
    {
      AcceptsIffCounted(pf, OnCpu(list, c), rt);
    }
  }

  // ---------------------------------------------------------------- the unit of the interval

  lemma {:induction false} LaterReleases(r: nat, s: nat, p: Pos, L: nat)
    requires r <= s
    ensures Releases(s, p, L) <= Releases(r, p, L)
    decreases L - r
  {
    if s < L {
      LaterReleases(r + p, s + p, p, L);
    }
  }

  lemma {:induction false} RarerReleases(r: nat, p: Pos, q: Pos, L: nat)
    requires 2 * p <= q
    ensures Releases(r, q, L) <= Releases(r, p, L)
    ensures Releases(r, q, L) == Releases(r, p, L) <==> L <= r + p
    decreases L - r
  {
    if r < L {
      RarerReleases(r + q, p, q, L);
      LaterReleases(r + 2 * p, r + q, p, L);
      LaterReleases(r + p, r + q, p, L);
    }
  }

  /** The plugin passes jiffies where the overhead takes microseconds. All releases in the interval are
      charged just when it is no longer than the period, or a jiffy is a microsecond. */
  lemma AllReleasesChargedIff(pf: Platform, p: Task, L: nat)
    requires 0 < p.period
    ensures Releases(0, PeriodMicros(pf, p), L) <= Releases(0, p.period, L)
    ensures Releases(0, PeriodMicros(pf, p), L) == Releases(0, p.period, L) <==> L <= p.period || pf.tick == 1
  {
    if 1 < pf.tick {
      Arith.MulMono(2, pf.tick, p.period);
      RarerReleases(0, p.period, PeriodMicros(pf, p), L);
    }
  }
}

/** The response bounds of FP-FF and FP-PM in terms of what they count: jobs inside the deadline, and the cost
    of every release and tick in it. */
module FpCounts {
  import opened Resch
  import opened Counting
  import opened Interference
  import opened Arith
  import opened SplitCapacity
  import FpFf
  import FpPm

  /** The execution time that counts: the worst case on a hard real-time build, else the average. */
  function Work(p: Task, hardRt: bool): nat {
    if hardRt then p.wcet else p.runtime
  }

  /** Jobs of length `c` released every `p`: each full period counts one in full, the rest of the interval
      what fits of one. */
  ghost function Inside(c: nat, p: Pos, L: nat): nat {
    if L < p then Min(c, L) else c + Inside(c, p, L - p)
  }

  lemma {:induction false} InterfIsInside(c: nat, p: Pos, L: nat)
    ensures Interf(c, p, L) == Inside(c, p, L)
  {
    FirstJob(c, p, L);
    if p <= L {
      InterfIsInside(c, p, L - p);
    }
  }

  // ---------------------------------------------------------------- FP-FF

  /** The jobs of all tasks but `rt` itself of at least its priority. */
  ghost function InsideSum(pf: Platform, ts: seq<Task>, rt: Task, L: nat): nat
    requires Periodic(ts)
  {
    if ts == [] then 0
    else
      var p := ts[0];
      InsideSum(pf, ts[1..], rt, L) +
      if p.rid != rt.rid && rt.prio <= p.prio then Inside(Work(p, pf.hardRt), PeriodMicros(pf, p), L) else 0
  }

  /** Own work, the jobs of the others, and the cost of every release and tick within the deadline. */
  ghost function CountedResponse(pf: Platform, ts: seq<Task>, rt: Task): nat
    requires Periodic(ts) && 0 < rt.period
  {
    var L := rt.deadline * pf.tick;
    Work(rt, pf.hardRt) + InsideSum(pf, ts, rt, L) + CpuCharges(pf, ts, L) + Charges(pf, rt, 0, L)
  }

  lemma {:induction false} InsideAppend(pf: Platform, ts: seq<Task>, p: Task, rt: Task, L: nat)
    requires Periodic(ts) && 0 < p.period
    ensures Periodic(ts + [p])
    ensures InsideSum(pf, ts + [p], rt, L) == InsideSum(pf, ts, rt, L) + InsideSum(pf, [p], rt, L)
  {
    if ts == [] {
      assert [] + [p] == [p];
    } else {
      assert (ts + [p])[1..] == ts[1..] + [p];
      InsideAppend(pf, ts[1..], p, rt, L);
    }
  }

  lemma {:induction false} SumIsInside(pf: Platform, list: seq<Task>, rt: Task, cpu: nat, L: nat)
    requires Periodic(OnCpu(list, cpu))
    ensures FpFf.InterfSum(pf, list, rt, cpu, L) == InsideSum(pf, OnCpu(list, cpu), rt, L)
  {
    if list != [] {
      var front, p := list[..|list| - 1], list[|list| - 1];
      FpFf.PrefixPeriodic(list, |list| - 1, cpu);
      SumIsInside(pf, front, rt, cpu, L);
      if p.cpu == cpu {
        assert p in OnCpu(list, cpu) && [p][1..] == [];
        InsideAppend(pf, OnCpu(front, cpu), p, rt, L);
        InterfIsInside(Work(p, pf.hardRt), PeriodMicros(pf, p), L);
      }
    }
  }

  lemma ResponseIsCounted(pf: Platform, list: seq<Task>, rt: Task, cpu: nat)
    requires Periodic(OnCpu(list, cpu)) && 0 < rt.period
    ensures FpFf.ResponseTime(pf, list, rt, cpu) == CountedResponse(pf, OnCpu(list, cpu), rt)
  {
    var L := rt.deadline * pf.tick;
    SumIsInside(pf, list, rt, cpu, L);
    OverheadCpuCounts(pf, OnCpu(list, cpu), L);
    OverheadTaskCounts(pf, rt, L);
  }

  /** Admission: the candidate's response is within its deadline, and every task of the CPU of at most its
      priority has room for the candidate's jobs. */
  lemma AdmitsIffCounted(pf: Platform, list: seq<Task>, rt: Task, cpu: nat)
    requires Periodic(OnCpu(list, cpu)) && 0 < rt.period
    ensures
      FpFf.Admits(pf, list, rt, cpu) <==>
      && CountedResponse(pf, OnCpu(list, cpu), rt) <= rt.deadline * pf.tick
      && forall lp :: lp in OnCpu(list, cpu) && lp.prio <= rt.prio ==>
                        CountedResponse(pf, OnCpu(list, cpu), lp)
                        + Inside(Work(rt, pf.hardRt), PeriodMicros(pf, rt), lp.deadline * pf.tick)
                        <= lp.deadline * pf.tick
  {
    ResponseIsCounted(pf, list, rt, cpu);
    forall lp | lp in OnCpu(list, cpu)
      ensures FpFf.ToleratesOn(pf, list, rt, lp, cpu) <==>
              CountedResponse(pf, OnCpu(list, cpu), lp)
              + Inside(Work(rt, pf.hardRt), PeriodMicros(pf, rt), lp.deadline * pf.tick)
              <= lp.deadline * pf.tick
    {
      ResponseIsCounted(pf, list, lp, cpu);
      InterfIsInside(Work(rt, pf.hardRt), PeriodMicros(pf, rt), lp.deadline * pf.tick);
    }
  }

  ghost predicate AdmitsCounted(pf: Platform, list: seq<Task>, rt: Task, c: nat) {
    && Periodic(OnCpu(list, c)) && 0 < rt.period
    && CountedResponse(pf, OnCpu(list, c), rt) <= rt.deadline * pf.tick
    && forall lp :: lp in OnCpu(list, c) && lp.prio <= rt.prio ==>
                      CountedResponse(pf, OnCpu(list, c), lp)
                      + Inside(Work(rt, pf.hardRt), PeriodMicros(pf, rt), lp.deadline * pf.tick)
                      <= lp.deadline * pf.tick
  }

  /** A CPU is found just when some allowed one admits the task, and it is the least of these. */
  lemma FirstFitIsLeast(pf: Platform, list: seq<Task>, rt: Task, allowed: set<nat>, dst: nat)
    requires FpFf.FirstFit(pf, list, rt, allowed, dst)
    ensures dst < pf.cpus <==> exists c: nat :: c < pf.cpus && c in allowed && AdmitsCounted(pf, list, rt, c)
    ensures dst < pf.cpus ==>
              && dst in allowed && AdmitsCounted(pf, list, rt, dst)
              && forall c: nat :: c in allowed && c < pf.cpus && AdmitsCounted(pf, list, rt, c) ==> dst <= c
  {
    forall c: nat ensures FpFf.AdmitsOn(pf, list, rt, c) <==> AdmitsCounted(pf, list, rt, c) {
      if Periodic(OnCpu(list, c)) && 0 < rt.period {
        AdmitsIffCounted(pf, list, rt, c);
      }
    }
  }

  // ---------------------------------------------------------------- FP-PM

  /** What a task executes here against `rt`: a share, even its own, or all of another task. */
  ghost function WorkAgainst(pf: Platform, tbl: FpPm.Table, p: Task, rt: Task, cpu: nat): nat {
    if p.prio < rt.prio then 0
    else if p.rid in tbl && cpu < |tbl[p.rid].runtime| && 0 < tbl[p.rid].runtime[cpu] then tbl[p.rid].runtime[cpu]
    else if p.cpu == cpu && p.rid != rt.rid then Work(p, pf.hardRt)
    else 0
  }

  ghost function PiecesInside(pf: Platform, list: seq<Task>, tbl: FpPm.Table, rt: Task, cpu: nat, L: nat): nat
    requires FpPm.PeriodicOn(list, tbl, cpu)
  {
    if list == [] then 0
    else
      var p, c := list[0], WorkAgainst(pf, tbl, list[0], rt, cpu);
      assert forall q :: q in list[1..] ==> q in list;
      PiecesInside(pf, list[1..], tbl, rt, cpu, L) + if c == 0 then 0 else Inside(c, PeriodMicros(pf, p), L)
  }

  ghost function CountedPmResponse(pf: Platform, list: seq<Task>, tbl: FpPm.Table, rt: Task, cpu: nat): nat
    requires FpPm.PeriodicOn(list, tbl, cpu) && 0 < rt.period
  {
    FpPm.WholeTasksPeriodic(list, tbl, cpu);
    var L := rt.deadline * pf.tick;
    Work(rt, pf.hardRt) + PiecesInside(pf, list, tbl, rt, cpu, L)
    + CpuCharges(pf, OnCpu(list, cpu), L) + Charges(pf, rt, 0, L)
  }

  lemma {:induction false} PiecesAppend(
    pf: Platform, list: seq<Task>, p: Task, tbl: FpPm.Table, rt: Task, cpu: nat, L: nat)
    requires FpPm.PeriodicOn(list + [p], tbl, cpu)
    ensures FpPm.PeriodicOn(list, tbl, cpu) && FpPm.PeriodicOn([p], tbl, cpu)
    ensures PiecesInside(pf, list + [p], tbl, rt, cpu, L) ==
            PiecesInside(pf, list, tbl, rt, cpu, L) + PiecesInside(pf, [p], tbl, rt, cpu, L)
  {
    assert forall q :: q in list || q == p ==> q in list + [p];
    if list == [] {
      assert [] + [p] == [p];
    } else {
      assert (list + [p])[1..] == list[1..] + [p];
      assert forall q :: q in list[1..] + [p] ==> q in list + [p];
      PiecesAppend(pf, list[1..], p, tbl, rt, cpu, L);
    }
  }

  lemma {:induction false} SumIsPieces(pf: Platform, list: seq<Task>, tbl: FpPm.Table, rt: Task, cpu: nat, L: nat)
    requires FpPm.PeriodicOn(list, tbl, cpu)
    ensures FpPm.InterfSum(pf, list, tbl, rt, cpu, L) == PiecesInside(pf, list, tbl, rt, cpu, L)
  {
    if list != [] {
      var front, p := list[..|list| - 1], list[|list| - 1];
      assert list == front + [p];
      SumIsPieces(pf, front, tbl, rt, cpu, L);
      PiecesAppend(pf, front, p, tbl, rt, cpu, L);
      assert [p][1..] == [];
      var c := WorkAgainst(pf, tbl, p, rt, cpu);
      if c != 0 {
        InterfIsInside(c, PeriodMicros(pf, p), L);
      }
    }
  }

  lemma PmResponseIsCounted(pf: Platform, list: seq<Task>, tbl: FpPm.Table, rt: Task, cpu: nat)
    requires FpPm.PeriodicOn(list, tbl, cpu) && 0 < rt.period
    ensures FpPm.Response(pf, list, tbl, rt, cpu) == CountedPmResponse(pf, list, tbl, rt, cpu)
  {
    var L := rt.deadline * pf.tick;
    FpPm.WholeTasksPeriodic(list, tbl, cpu);
    SumIsPieces(pf, list, tbl, rt, cpu, L);
    OverheadCpuCounts(pf, OnCpu(list, cpu), L);
    OverheadTaskCounts(pf, rt, L);
  }

  /** A task with response bound `R` and a deadline of `D` jiffies has room for jobs of length `c`. */
  ghost predicate HasRoom(pf: Platform, list: seq<Task>, tbl: FpPm.Table, lp: Task, c: nat, p: Task, cpu: nat)
    requires FpPm.PeriodicOn(list, tbl, cpu) && 0 < lp.period && 0 < p.period
  {
    CountedPmResponse(pf, list, tbl, lp, cpu) + Inside(c, PeriodMicros(pf, p), lp.deadline * pf.tick)
    <= lp.deadline * pf.tick
  }

  lemma ToleratesIffRoom(pf: Platform, list: seq<Task>, tbl: FpPm.Table, lp: Task, c: nat, p: Task, cpu: nat)
    requires FpPm.PeriodicOn(list, tbl, cpu) && 0 < lp.period && 0 < p.period
    ensures FpPm.Tolerates(pf, list, tbl, lp, c, PeriodMicros(pf, p), cpu) <==>
            HasRoom(pf, list, tbl, lp, c, p, cpu)
  {
    PmResponseIsCounted(pf, list, tbl, lp, cpu);
    InterfIsInside(c, PeriodMicros(pf, p), lp.deadline * pf.tick);
  }

  /** The same for FP-PM, with the tasks that have a share on the CPU among those looked at. */
  lemma PmAdmitsIffCounted(pf: Platform, list: seq<Task>, tbl: FpPm.Table, rt: Task, cpu: nat)
    requires FpPm.PeriodicOn(list, tbl, cpu) && 0 < rt.period
    ensures
      FpPm.Admits(pf, list, tbl, rt, cpu) <==>
      && CountedPmResponse(pf, list, tbl, rt, cpu) <= rt.deadline * pf.tick
      && forall lp :: lp in list && FpPm.Present(tbl, lp, cpu) && lp.prio <= rt.prio ==>
                        HasRoom(pf, list, tbl, lp, Work(rt, pf.hardRt), rt, cpu)
  {
    PmResponseIsCounted(pf, list, tbl, rt, cpu);
    forall lp | lp in list && FpPm.Present(tbl, lp, cpu)
      ensures FpPm.Tolerates(pf, list, tbl, lp, FpFf.C(pf, rt), FpPm.Micros(pf, rt.period), cpu) <==>
              HasRoom(pf, list, tbl, lp, Work(rt, pf.hardRt), rt, cpu)
    {
      ToleratesIffRoom(pf, list, tbl, lp, Work(rt, pf.hardRt), rt, cpu);
    }
  }

  /** The rooms that the split looks at: for every task present on the CPU its capacity, or -1 where the counted
      response exceeds the deadline. */
  lemma {:induction false} RoomsAreCapacities(
    pf: Platform, list: seq<Task>, ts: seq<Task>, tbl: FpPm.Table, P: Pos, cpu: nat, x: int)
    requires FpPm.PeriodicOn(list, tbl, cpu) && FpPm.PeriodicOn(ts, tbl, cpu)
    ensures
      x in FpPm.Rooms(pf, list, ts, tbl, P, cpu) <==>
           exists lp :: lp in ts && FpPm.Present(tbl, lp, cpu) && IsRoom(pf, list, tbl, lp, P, cpu, x)
  {
    if ts != [] {
      assert ts == [ts[0]] + ts[1..];
      FpPm.SuffixPeriodic(ts, 1, tbl, cpu);
      RoomsAreCapacities(pf, list, ts[1..], tbl, P, cpu, x);
      if FpPm.Present(tbl, ts[0], cpu) {
        PmResponseIsCounted(pf, list, tbl, ts[0], cpu);
      }
    }
  }

  ghost predicate IsRoom(pf: Platform, list: seq<Task>, tbl: FpPm.Table, lp: Task, P: Pos, cpu: nat, x: int)
    requires FpPm.PeriodicOn(list, tbl, cpu)
  {
    0 < lp.period &&
    var R, D := CountedPmResponse(pf, list, tbl, lp, cpu), lp.deadline * pf.tick;
    x == if D < R then -1 else Capacity(R, D, P)
  }
}

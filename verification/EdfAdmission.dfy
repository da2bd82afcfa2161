/** From the EDF-FF test to the runs of the CPU, and the plugin as a state machine. */
module EdfAdmission {
  import opened Resch
  import opened Arith
  import opened SortedList
  import opened EdfFf
  import opened EdfFeasibility
  import EdfSchedule

  function InMicros(pf: Platform, p: Task): EdfSchedule.Timing
    requires 0 < p.period
  {
    EdfSchedule.Timing(p.wcet, p.period * pf.tick, p.deadline * pf.tick)
  }

  function AllInMicros(pf: Platform, ts: seq<Task>): (r: seq<EdfSchedule.Timing>)
    requires Periodic(ts)
    ensures |r| == |ts| && forall i :: 0 <= i < |ts| ==> r[i] == InMicros(pf, ts[i])
  {
    if ts == [] then [] else AllInMicros(pf, ts[..|ts| - 1]) + [InMicros(pf, ts[|ts| - 1])]
  }

  /** A claim counts the jobs that fit, wherever inside a jiffy the interval ends. */
  lemma {:induction false} ClaimCounts(p: EdfSchedule.Timing, a: nat, d: nat)
    ensures EdfSchedule.Claim(p, a, d) ==
            if a + p.deadline <= d then ((d - p.deadline - a) / p.period + 1) * p.wcet else 0
    decreases d - a
  {
    if a + p.deadline <= d {
      var x := d - p.deadline - a;
      ClaimCounts(p, a + p.period, d);
      DivShift(x, p.period, 1);
      if p.period <= x {
        assert (x / p.period + 1) * p.wcet == p.wcet + ((x / p.period - 1) + 1) * p.wcet;
      } else {
        DivUnique(x, p.period, 0);
      }
    }
  }

  lemma ClaimIsDemand(pf: Platform, p: Task, d: nat)
    requires 0 < p.period
    ensures EdfSchedule.Claim(InMicros(pf, p), 0, d) == DemandOf(p, d / pf.tick)
  {
    ClaimCounts(InMicros(pf, p), 0, d);
    DivShift(d, pf.tick, p.deadline);
    if p.deadline * pf.tick <= d {
      DivDiv(d - p.deadline * pf.tick, pf.tick, p.period);
    }
  }

  lemma ClaimsAreDemand(pf: Platform, ts: seq<Task>, d: nat, n: nat)
    requires Periodic(ts) && n <= |ts|
    ensures Periodic(ts[..n])
    ensures
      var us := AllInMicros(pf, ts);
      EdfSchedule.Claims(us, 0, EdfSchedule.Start(us).next, d, n) == Demand(ts[..n], d / pf.tick)
  {
    if n > 0 {
      ClaimsAreDemand(pf, ts, d, n - 1);
      assert ts[..n][..n - 1] == ts[..n - 1];
      ClaimIsDemand(pf, ts[n - 1], d);
    }
  }

  /** Feasibility in jiffies is exactly the supply condition of the microsecond schedule. */
  lemma FeasibleIsSupply(pf: Platform, ts: seq<Task>)
    requires Periodic(ts)
    ensures Feasible(pf, ts) <==> EdfSchedule.Supplies(AllInMicros(pf, ts))
  {
    if Feasible(pf, ts) {
      FeasibleSupplies(pf, ts);
    }
    if EdfSchedule.Supplies(AllInMicros(pf, ts)) {
      SupplyFeasible(pf, ts);
    }
  }

  lemma FeasibleSupplies(pf: Platform, ts: seq<Task>)
    requires Periodic(ts) && Feasible(pf, ts)
    ensures EdfSchedule.Supplies(AllInMicros(pf, ts))
  {
    var us := AllInMicros(pf, ts);
    forall d: nat ensures EdfSchedule.Claims(us, 0, EdfSchedule.Start(us).next, d, |us|) <= d {
      ClaimsAreDemand(pf, ts, d, |ts|);
      assert ts[..|ts|] == ts;
      var L := d / pf.tick;
      DivBounds(d, pf.tick);
      assert Demand(ts, L) <= L * pf.tick;
    }
  }

  lemma SupplyFeasible(pf: Platform, ts: seq<Task>)
    requires Periodic(ts) && EdfSchedule.Supplies(AllInMicros(pf, ts))
    ensures Feasible(pf, ts)
  {
    forall L: nat ensures Demand(ts, L) <= L * pf.tick {
      var d: nat := L * pf.tick;
      ClaimsAreDemand(pf, ts, d, |ts|);
      assert ts[..|ts|] == ts;
      DivUnique(d, pf.tick, L);
    }
  }

  /** Every sporadic run of the tasks meets every deadline. */
  ghost predicate Schedulable(pf: Platform, ts: seq<Task>)
    requires Periodic(ts)
  {
    EdfSchedule.AlwaysMeetsDeadlines(AllInMicros(pf, ts))
  }

  lemma SchedulableIffFeasible(pf: Platform, ts: seq<Task>)
    requires Periodic(ts)
    ensures Schedulable(pf, ts) <==> Feasible(pf, ts)
  {
    FeasibleIsSupply(pf, ts);
    EdfSchedule.EdfMeetsDeadlinesIff(AllInMicros(pf, ts));
  }

  /** What the plugin's acceptance means for the runs of the CPU, for any utilizations: a set accepted
      with `rt` meets all deadlines in all runs just when one hyperperiod is not overloaded and no
      length between the test length and its end overruns. */
  lemma AcceptedSchedulableIff(pf: Platform, ts: seq<Task>, rt: Task, H: nat)
    requires Periodic(ts) && 0 < rt.period && 0 < rt.wcet && Accepts(pf, ts, rt)
    requires Periodic(ts + [rt]) && Hyperperiod(ts + [rt], H)
    ensures Schedulable(pf, ts + [rt]) <==> OpenLengthsFit(pf, ts + [rt], H)
  {
    SchedulableIffFeasible(pf, ts + [rt]);
    AcceptedFeasibleIff(pf, ts, rt, H);
  }

  /** For utilizations that do not round: just when the set stays below full utilization, or fills the CPU
      exactly and one hyperperiod fits. */
  lemma WholePercentSchedulableIff(pf: Platform, ts: seq<Task>, rt: Task, H: nat)
    requires Periodic(ts) && 0 < rt.period && 0 < rt.wcet && Accepts(pf, ts, rt)
    requires Periodic(ts + [rt]) && ExactUtils(pf, ts + [rt]) && Hyperperiod(ts + [rt], H)
    requires SlackSum(pf, ts + [rt]) < WORD
    ensures Schedulable(pf, ts + [rt]) <==>
            var u := UtilSum(pf, ts + [rt]);
            u < 100 || (u == 100 && FeasibleWithin(pf, ts + [rt], H))
  {
    SchedulableIffFeasible(pf, ts + [rt]);
    WholePercentFeasibleIff(pf, ts, rt, H);
  }

  lemma OverrunMisses(pf: Platform, ts: seq<Task>, L: nat)
    requires Periodic(ts) && L * pf.tick < Demand(ts, L)
    ensures !Schedulable(pf, ts)
  {
    SchedulableIffFeasible(pf, ts);
  }

  /** The accepted overload of 110 percent misses a deadline in some run. */
  lemma OverloadMisses()
    ensures Periodic([HALF_LOAD, TOO_MUCH]) && !Schedulable(DEFAULT_PLATFORM, [HALF_LOAD, TOO_MUCH])
  {
    OverloadTotals();
    OverrunMisses(DEFAULT_PLATFORM, [HALF_LOAD, TOO_MUCH], 60);
  }

  /** So does the one that counts as 99 percent. */
  lemma RoundedOverloadMisses()
    ensures Periodic([ROUNDED_LOAD, ROUNDED_REST]) && !Schedulable(DEFAULT_PLATFORM, [ROUNDED_LOAD, ROUNDED_REST])
  {
    RoundedTotals();
    OverrunMisses(DEFAULT_PLATFORM, [ROUNDED_LOAD, ROUNDED_REST], 600);
  }

  // ---------------------------------------------------------------- the plugin over any history

  ghost predicate FeasibleOn(pf: Platform, list: seq<Task>, c: nat) {
    Periodic(OnCpu(list, c)) && Feasible(pf, OnCpu(list, c))
  }

  /** Every CPU's tasks meet all deadlines in all runs. */
  ghost predicate AllSchedulable(pf: Platform, list: seq<Task>) {
    forall c: nat :: c < pf.cpus ==> Periodic(OnCpu(list, c)) && Schedulable(pf, OnCpu(list, c))
  }

  lemma AllSchedulableIff(pf: Platform, list: seq<Task>)
    ensures AllSchedulable(pf, list) <==> forall c: nat :: c < pf.cpus ==> FeasibleOn(pf, list, c)
  {
    forall c: nat | c < pf.cpus && Periodic(OnCpu(list, c))
      ensures Schedulable(pf, OnCpu(list, c)) <==> FeasibleOn(pf, list, c)
    {
      SchedulableIffFeasible(pf, OnCpu(list, c));
    }
    if forall c: nat :: c < pf.cpus ==> FeasibleOn(pf, list, c) {
      forall c: nat | c < pf.cpus ensures Periodic(OnCpu(list, c)) && Schedulable(pf, OnCpu(list, c)) {
        assert FeasibleOn(pf, list, c);
      }
    }
  }

  lemma DemandConcat(a: seq<Task>, b: seq<Task>, L: nat)
    requires Periodic(a) && Periodic(b)
    ensures Periodic(a + b) && Demand(a + b, L) == Demand(a, L) + Demand(b, L)
  {
    if b == [] {
      assert a + b == a;
    } else {
      DemandConcat(a, b[..|b| - 1], L);
      assert (a + b)[..|a + b| - 1] == a + b[..|b| - 1];
    }
  }

  lemma LessDemand(pf: Platform, ts: seq<Task>, us: seq<Task>)
    requires Periodic(ts) && Periodic(us) && Feasible(pf, us)
    requires forall L: nat :: Demand(ts, L) <= Demand(us, L)
    ensures Feasible(pf, ts)
  {
    forall L: nat ensures Demand(ts, L) <= L * pf.tick {
      assert Demand(ts, L) <= Demand(us, L);
      assert Demand(us, L) <= L * pf.tick;
    }
  }

  /** Where a task stands among the others does not matter to the demand. */
  lemma PlacedAnywhere(x: seq<Task>, p: Task, y: seq<Task>, L: nat)
    requires 0 < p.period && Periodic(x) && Periodic(y)
    ensures Periodic(x + [p] + y) && Periodic(x + y)
    ensures Demand(x + [p] + y, L) == Demand(x + y, L) + DemandOf(p, L)
  {
    DemandConcat(x, y, L);
    DemandAppend(x, p, L);
    DemandConcat(x + [p], y, L);
  }

  /** The chosen CPU can take the newcomer: what the test has left open there fits as well. */
  ghost predicate CanTake(pf: Platform, list: seq<Task>, rt: Task, dst: nat) {
    var ts := OnCpu(list, dst) + [rt];
    Periodic(ts) && OpenLengthsFit(pf, ts, PeriodProduct(ts))
  }

  /** Admission by the plugin keeps every CPU schedulable just when the chosen CPU can take the newcomer,
      which stood in the list without a CPU. */
  lemma AdmissionKeepsSchedulableIff(pf: Platform, list: seq<Task>, k: nat, dst: nat)
    requires AllSchedulable(pf, list) && k < |list| && list[k].cpu == pf.cpus && 0 < list[k].period && dst < pf.cpus
    requires Periodic(OnCpu(list, dst)) && Accepts(pf, OnCpu(list, dst), list[k])
    ensures AllSchedulable(pf, list[k := Assigned(list[k], dst)]) <==> CanTake(pf, list, list[k], dst)
  {
    var rt, now := list[k], list[k := Assigned(list[k], dst)];
    AllSchedulableIff(pf, list);
    AllSchedulableIff(pf, now);
    assert FeasibleOn(pf, list, dst);
    forall c: nat | c < pf.cpus && c != dst ensures FeasibleOn(pf, now, c) <==> FeasibleOn(pf, list, c) {
      OtherCpus(list, k, dst, c);
    }
    PlacedIff(pf, list, k, dst);
    CanTakeIff(pf, list, rt, dst);
  }

  lemma OtherCpus(list: seq<Task>, k: nat, dst: nat, c: nat)
    requires k < |list| && list[k].cpu != c && dst != c
    ensures OnCpu(list[k := Assigned(list[k], dst)], c) == OnCpu(list, c)
  {
    var a, rt, b := list[..k], list[k], list[k + 1..];
    assert list == a + [rt] + b && list[k := Assigned(rt, dst)] == a + [Assigned(rt, dst)] + b;
    OnCpuAround(a, rt, b, c);
    OnCpuAround(a, Assigned(rt, dst), b, c);
  }

  lemma PlacedIff(pf: Platform, list: seq<Task>, k: nat, dst: nat)
    requires k < |list| && list[k].cpu != dst && 0 < list[k].period && Periodic(OnCpu(list, dst))
    ensures
      var ts := OnCpu(list, dst) + [list[k]];
      Periodic(ts) && (FeasibleOn(pf, list[k := Assigned(list[k], dst)], dst) <==> Feasible(pf, ts))
  {
    var a, rt, b := list[..k], list[k], list[k + 1..];
    var p, x, y := Assigned(rt, dst), OnCpu(a, dst), OnCpu(b, dst);
    assert list == a + [rt] + b && list[k := p] == a + [p] + b;
    OnCpuAround(a, rt, b, dst);
    OnCpuAround(a, p, b, dst);
    PlacedFeasible(pf, x, rt, p, y);
  }

  lemma PlacedFeasible(pf: Platform, x: seq<Task>, rt: Task, p: Task, y: seq<Task>)
    requires Periodic(x + y) && 0 < rt.period && p == Assigned(rt, p.cpu)
    ensures Periodic(x + [p] + y) && Periodic(x + y + [rt])
    ensures Feasible(pf, x + [p] + y) <==> Feasible(pf, x + y + [rt])
  {
    assert forall q :: q in x || q in y ==> q in x + y;
    forall L: nat ensures Periodic(x + [p] + y) && Demand(x + [p] + y, L) == Demand(x + y + [rt], L) {
      PlacedAnywhere(x, p, y, L);
      DemandAppend(x + y, rt, L);
    }
  }

  lemma CanTakeIff(pf: Platform, list: seq<Task>, rt: Task, dst: nat)
    requires 0 < rt.period && FeasibleOn(pf, list, dst) && Accepts(pf, OnCpu(list, dst), rt)
    ensures
      var ts := OnCpu(list, dst) + [rt];
      Periodic(ts) && (Feasible(pf, ts) <==> CanTake(pf, list, rt, dst))
  {
    var ts := OnCpu(list, dst) + [rt];
    HyperperiodExists(ts);
    var H := PeriodProduct(ts);
    if rt.wcet == 0 {
      NoWorkIsFeasible(pf, OnCpu(list, dst), rt);
      FeasibleIff(pf, ts, H);
    } else {
      AcceptedFeasibleIff(pf, OnCpu(list, dst), rt, H);
    }
  }

  lemma RemovedFeasible(pf: Platform, x: seq<Task>, p: Task, y: seq<Task>)
    requires Periodic(x + [p] + y) && Feasible(pf, x + [p] + y)
    ensures Periodic(x + y) && Feasible(pf, x + y)
  {
    assert forall q :: q in x || q in y || q == p ==> q in x + [p] + y;
    forall L: nat ensures Demand(x + y, L) <= Demand(x + [p] + y, L) {
      PlacedAnywhere(x, p, y, L);
    }
    LessDemand(pf, x + y, x + [p] + y);
  }

  /** A task leaving the list, admitted or not, harms no CPU. */
  lemma ExitKeepsSchedulable(pf: Platform, a: seq<Task>, p: Task, b: seq<Task>)
    requires AllSchedulable(pf, a + [p] + b)
    ensures AllSchedulable(pf, a + b)
  {
    AllSchedulableIff(pf, a + [p] + b);
    forall c: nat | c < pf.cpus ensures FeasibleOn(pf, a + b, c) {
      var x, y := OnCpu(a, c), OnCpu(b, c);
      OnCpuAround(a, p, b, c);
      assert FeasibleOn(pf, a + [p] + b, c) && OnCpu(a + b, c) == x + y;
      if p.cpu == c {
        assert OnCpu(a + [p] + b, c) == x + [p] + y;
        RemovedFeasible(pf, x, p, y);
      }
    }
    AllSchedulableIff(pf, a + b);
  }

  /** A task without a CPU stands in the list: no CPU notices. */
  lemma SubmissionIsUnnoticed(pf: Platform, a: seq<Task>, rt: Task, b: seq<Task>)
    requires rt.cpu == pf.cpus
    ensures forall c: nat :: c < pf.cpus ==> OnCpu(a + [rt] + b, c) == OnCpu(a + b, c)
    ensures AllSchedulable(pf, a + [rt] + b) <==> AllSchedulable(pf, a + b)
  {
    forall c: nat | c < pf.cpus ensures OnCpu(a + [rt] + b, c) == OnCpu(a + b, c) {
      OnCpuAround(a, rt, b, c);
    }
  }

  // ---------------------------------------------------------------- the plugin's state

  /** The global list is sorted, and periodic tasks only stand on the CPUs. */
  ghost predicate WellFormed(pf: Platform, list: seq<Task>) {
    Sorted(list, PrioKey) && forall c: nat :: c < pf.cpus ==> Periodic(OnCpu(list, c))
  }

  /** The list with the task behind all tasks of at least its priority. */
  function Submitted(list: seq<Task>, rt: Task): seq<Task> {
    Insert(list, rt, PrioKey)
  }

  lemma SubmittedWellFormed(pf: Platform, list: seq<Task>, rt: Task)
    requires WellFormed(pf, list) && rt.cpu == pf.cpus
    ensures WellFormed(pf, Submitted(list, rt))
    ensures AllSchedulable(pf, Submitted(list, rt)) <==> AllSchedulable(pf, list)
  {
    var k := InsertPos(list, rt, PrioKey);
    assert list[..k] + list[k..] == list;
    InsertSorted(list, rt, PrioKey);
    SubmissionIsUnnoticed(pf, list[..k], rt, list[k..]);
  }

  lemma PlacedWellFormed(pf: Platform, list: seq<Task>, k: nat, dst: nat)
    requires WellFormed(pf, list) && k < |list| && list[k].cpu == pf.cpus && 0 < list[k].period && dst < pf.cpus
    ensures WellFormed(pf, list[k := Assigned(list[k], dst)])
  {
    var a, rt, b := list[..k], list[k], list[k + 1..];
    var now := list[k := Assigned(rt, dst)];
    assert list == a + [rt] + b && now == a + [Assigned(rt, dst)] + b;
    forall i, j | 0 <= i < j < |now| ensures PrioKey(now[i]) <= PrioKey(now[j]) {
      assert PrioKey(list[i]) <= PrioKey(list[j]);
    }
    forall c: nat | c < pf.cpus ensures Periodic(OnCpu(now, c)) {
      OnCpuAround(a, rt, b, c);
      OnCpuAround(a, Assigned(rt, dst), b, c);
      assert Periodic(OnCpu(list, c));
    }
  }

  lemma RemovedWellFormed(pf: Platform, list: seq<Task>, i: nat)
    requires WellFormed(pf, list) && i < |list|
    ensures WellFormed(pf, RemoveAt(list, i))
    ensures AllSchedulable(pf, list) ==> AllSchedulable(pf, RemoveAt(list, i))
  {
    var a, p, b := list[..i], list[i], list[i + 1..];
    assert list == a + [p] + b;
    RemoveSorted(list, i, PrioKey);
    forall c: nat | c < pf.cpus ensures Periodic(OnCpu(a + b, c)) {
      OnCpuAround(a, p, b, c);
      assert Periodic(OnCpu(list, c));
      assert forall q :: q in OnCpu(a + b, c) ==> q in OnCpu(list, c);
    }
    if AllSchedulable(pf, list) {
      ExitKeepsSchedulable(pf, a, p, b);
    }
  }

  /** The global list under the plugin. */
  class Plugin {
    const pf: Platform
    var list: seq<Task>

    constructor (pf: Platform)
      ensures this.pf == pf && list == [] && WellFormed(pf, list) && AllSchedulable(pf, list)
    {
      this.pf := pf;
      list := [];
      new;
      AllSchedulableIff(pf, list);
    }

    /** `api_run`: insertion into the global list, then the plugin's admission. A periodic task without a
        CPU leaves the list again; an aperiodic one stays, unplaced. If all CPUs were schedulable, they
        still are just when the chosen one can take the task. */
    method Submit(rt: Task, allowed: set<nat>) returns (dst: nat)
      requires WellFormed(pf, list) && rt.cpu == pf.cpus
      modifies this
      ensures WellFormed(pf, list)
      ensures dst == pf.cpus || 0 < rt.period
      ensures 0 < rt.period ==> WorstFit(pf, Submitted(old(list), rt), rt, allowed, dst)
      ensures
        var k := InsertPos(old(list), rt, PrioKey);
        list == if dst == pf.cpus && 0 < rt.period then old(list)
        else old(list)[..k] + [if dst < pf.cpus then rt.(cpu := dst, migratory := false) else rt] + old(list)[k..]
      ensures AllSchedulable(pf, old(list)) ==>
                (AllSchedulable(pf, list) <==> dst < pf.cpus ==> CanTake(pf, Submitted(old(list), rt), rt, dst))
    {
      var k := FindInsertPos(list, rt, PrioKey);
      SubmittedWellFormed(pf, list, rt);
      Spliced(list, k, rt, rt);
      list := list[..k] + [rt] + list[k..];
      dst := pf.cpus;
      if 0 < rt.period {
        dst := TaskRun(k, allowed);
        Spliced(old(list), k, rt, Assigned(rt, dst));
        if dst == pf.cpus {
          list := list[..k] + list[k + 1..];
        }
      }
    }

    /** The plugin's part of a submission, for the task at position `k`. */
    method TaskRun(k: nat, allowed: set<nat>) returns (dst: nat)
      requires WellFormed(pf, list) && k < |list| && list[k].cpu == pf.cpus && 0 < list[k].period
      modifies this
      ensures WellFormed(pf, list) && WorstFit(pf, old(list), old(list)[k], allowed, dst)
      ensures
        var placed := old(list)[k].(cpu := dst, migratory := false);
        list == if dst < pf.cpus then old(list)[k := placed] else old(list)
      ensures AllSchedulable(pf, old(list)) ==>
                (AllSchedulable(pf, list) <==> dst < pf.cpus ==> CanTake(pf, old(list), old(list)[k], dst))
    {
      var rt := list[k];
      dst := CpuWorstFit(pf, list, rt, allowed);
      if dst < pf.cpus {
        PlacedWellFormed(pf, list, k, dst);
        if AllSchedulable(pf, list) {
          AdmissionKeepsSchedulableIff(pf, list, k, dst);
        }
        list := list[k := Assigned(rt, dst)];
      }
    }

    /** The task at position `i` exits. */
    method TaskExit(i: nat)
      requires WellFormed(pf, list) && i < |list|
      modifies this
      ensures WellFormed(pf, list) && list == RemoveAt(old(list), i)
      ensures AllSchedulable(pf, old(list)) ==> AllSchedulable(pf, list)
    {
      RemovedWellFormed(pf, list, i);
      list := list[..i] + list[i + 1..];
    }
  }
}

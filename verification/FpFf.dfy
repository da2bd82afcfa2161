/** The FP-FF plugin: response-time analysis over the global list, first-fit admission,
    and what holds of every CPU after any history of submissions and exits. */
module FpFf {
  import opened Resch
  import opened SortedList
  import opened Interference

  /** `C` of the source: the WCET or the average runtime, by build configuration. */
  function C(pf: Platform, p: Task): nat {
    if pf.hardRt then p.wcet else p.runtime
  }

  function Micros(pf: Platform, j: nat): nat { j * pf.tick }

  lemma MicrosPositive(pf: Platform, j: nat)
    requires 0 < j
    ensures 0 < Micros(pf, j)
  {
  }

  /** Interference of `hp` with a task over `L` microseconds. */
  function InterfOf(pf: Platform, hp: Task, L: nat): nat
    requires 0 < hp.period
  {
    MicrosPositive(pf, hp.period);
    Interf(C(pf, hp), Micros(pf, hp.period), L)
  }

  predicate Interferes(hp: Task, rt: Task, cpu: nat) {
    hp.cpu == cpu && hp.rid != rt.rid && hp.prio >= rt.prio
  }

  /** Interference with `rt` on `cpu` from all tasks of the list. */
  function InterfSum(pf: Platform, list: seq<Task>, rt: Task, cpu: nat, L: nat): nat
    requires Periodic(OnCpu(list, cpu))
  {
    if list == [] then 0
    else
      var front, hp := list[..|list| - 1], list[|list| - 1];
      assert list == front + [hp] && forall p :: p in OnCpu(front, cpu) ==> p in OnCpu(list, cpu);
      assert hp.cpu == cpu ==> hp in OnCpu(list, cpu);
      InterfSum(pf, front, rt, cpu, L) + InterfTerm(pf, hp, rt, cpu, L)
  }

  function InterfTerm(pf: Platform, hp: Task, rt: Task, cpu: nat, L: nat): nat
    requires hp.cpu == cpu ==> 0 < hp.period
  {
    if Interferes(hp, rt, cpu) then InterfOf(pf, hp, L) else 0
  }

  /** Overhead charged to `rt` on `cpu`. */
  function Overhead(pf: Platform, list: seq<Task>, rt: Task, cpu: nat, L: nat): nat
    requires Periodic(OnCpu(list, cpu)) && 0 < rt.period
  {
    OverheadCpu(pf, OnCpu(list, cpu), L) + OverheadTask(pf, rt, L)
  }

  /** The bound the analysis computes: own work, interference and overhead over the deadline. */
  function ResponseTime(pf: Platform, list: seq<Task>, rt: Task, cpu: nat): nat
    requires Periodic(OnCpu(list, cpu)) && 0 < rt.period
  {
    var L := Micros(pf, rt.deadline);
    C(pf, rt) + InterfSum(pf, list, rt, cpu, L) + Overhead(pf, list, rt, cpu, L)
  }

  // ---------------------------------------------------------------- the walks of the plugin

  lemma SumStep(pf: Platform, list: seq<Task>, i: nat, rt: Task, cpu: nat, L: nat)
    requires Periodic(OnCpu(list, cpu)) && i < |list|
    ensures Periodic(OnCpu(list[..i], cpu)) && Periodic(OnCpu(list[..i + 1], cpu))
    ensures list[i].cpu == cpu ==> 0 < list[i].period
    ensures InterfSum(pf, list[..i + 1], rt, cpu, L) ==
            InterfSum(pf, list[..i], rt, cpu, L) + InterfTerm(pf, list[i], rt, cpu, L)
  {
    PrefixPeriodic(list, i, cpu);
    PrefixPeriodic(list, i + 1, cpu);
    assert list[..i + 1][..i] == list[..i];
    assert list[i].cpu == cpu ==> list[i] in OnCpu(list, cpu);
  }

  /** The walk stops at the first task of lower priority. */
  method Walk(pf: Platform, list: seq<Task>, rt: Task, cpu: nat, L: nat) returns (r: nat, i: nat)
    requires Periodic(OnCpu(list, cpu))
    ensures i <= |list| && (i < |list| ==> list[i].prio < rt.prio)
    ensures Periodic(OnCpu(list[..i], cpu)) && r == InterfSum(pf, list[..i], rt, cpu, L)
  {
    r, i := 0, 0;
    while i < |list| && list[i].prio >= rt.prio
      invariant i <= |list|
      invariant Periodic(OnCpu(list[..i], cpu)) && r == InterfSum(pf, list[..i], rt, cpu, L)
    {
      SumStep(pf, list, i, rt, cpu, L);
      r := r + InterfTerm(pf, list[i], rt, cpu, L);
      i := i + 1;
    }
  }

  /** In a sorted list the walk misses nothing. */
  method ResponseTimeAnalysis(pf: Platform, list: seq<Task>, rt: Task, cpu: nat) returns (r: nat)
    requires Sorted(list, PrioKey) && Periodic(OnCpu(list, cpu)) && 0 < rt.period
    ensures r == ResponseTime(pf, list, rt, cpu)
  {
    var L := Micros(pf, rt.deadline);
    var i;
    r, i := Walk(pf, list, rt, cpu, L);
    LowerTailAddsNothing(pf, list, i, rt, cpu, L);
    r := r + C(pf, rt) + Overhead(pf, list, rt, cpu, L);
  }

  lemma PrefixPeriodic(list: seq<Task>, i: nat, cpu: nat)
    requires i <= |list| && Periodic(OnCpu(list, cpu))
    ensures Periodic(OnCpu(list[..i], cpu))
  {
    assert forall p :: p in OnCpu(list[..i], cpu) ==> p in OnCpu(list, cpu);
  }

  lemma {:induction false} LowerTailAddsNothing(pf: Platform, list: seq<Task>, i: nat, rt: Task, cpu: nat, L: nat)
    requires Sorted(list, PrioKey) && Periodic(OnCpu(list, cpu)) && i <= |list|
    requires i < |list| ==> list[i].prio < rt.prio
    ensures Periodic(OnCpu(list[..i], cpu))
    ensures InterfSum(pf, list, rt, cpu, L) == InterfSum(pf, list[..i], rt, cpu, L)
    decreases |list|
  {
    PrefixPeriodic(list, i, cpu);
    if i == |list| {
      assert list[..i] == list;
    } else {
      var n := |list| - 1;
      PrefixPeriodic(list, n, cpu);
      LowerTailAddsNothing(pf, list[..n], i, rt, cpu, L);
      assert list[..n][..i] == list[..i];
      assert PrioKey(list[i]) <= PrioKey(list[n]);
    }
  }

  /** Task `lp` keeps its deadline when `rt` joins its CPU, as far as the plugin checks. */
  predicate ToleratesOn(pf: Platform, list: seq<Task>, rt: Task, lp: Task, cpu: nat)
    requires Periodic(OnCpu(list, cpu)) && 0 < lp.period && 0 < rt.period
  {
    ResponseTime(pf, list, lp, cpu) + InterfOf(pf, rt, Micros(pf, lp.deadline)) <= Micros(pf, lp.deadline)
  }

  /** The plugin's test of one CPU. */
  ghost predicate Admits(pf: Platform, list: seq<Task>, rt: Task, cpu: nat)
    requires Periodic(OnCpu(list, cpu)) && 0 < rt.period
  {
    && ResponseTime(pf, list, rt, cpu) <= Micros(pf, rt.deadline)
    && forall lp :: lp in OnCpu(list, cpu) && lp.prio <= rt.prio ==> ToleratesOn(pf, list, rt, lp, cpu)
  }

  /** `global_prio_task`: the first task of at most the given priority, as an index. */
  method GlobalPrioTask(list: seq<Task>, prio: int) returns (i: nat)
    requires Sorted(list, PrioKey)
    ensures i <= |list|
    ensures forall k :: 0 <= k < |list| ==> (list[k].prio <= prio <==> i <= k)
  {
    i := 0;
    while i < |list| && list[i].prio > prio
      invariant i <= |list|
      invariant forall k :: 0 <= k < i ==> list[k].prio > prio
    {
      i := i + 1;
    }
    forall k | i <= k < |list| ensures list[k].prio <= prio {
      assert PrioKey(list[i]) <= PrioKey(list[k]);
    }
  }

  method TestCpu(pf: Platform, list: seq<Task>, rt: Task, cpu: nat) returns (ok: bool)
    requires Sorted(list, PrioKey) && Periodic(OnCpu(list, cpu)) && 0 < rt.period
    ensures ok <==> Admits(pf, list, rt, cpu)
  {
    var ri := ResponseTimeAnalysis(pf, list, rt, cpu);
    if ri > Micros(pf, rt.deadline) {
      return false;
    }
    var start := GlobalPrioTask(list, rt.prio);
    for k := start to |list|
      invariant forall j :: start <= j < k && list[j].cpu == cpu ==>
                              list[j] in OnCpu(list, cpu) && ToleratesOn(pf, list, rt, list[j], cpu)
    {
      var lp := list[k];
      if lp.cpu != cpu {
        continue;
      }
      assert lp in OnCpu(list, cpu);
      var rk := ResponseTimeAnalysis(pf, list, lp, cpu);
      var dk := Micros(pf, lp.deadline);
      if rk + InterfOf(pf, rt, dk) > dk {
        return false;
      }
    }
    ok := true;
  }

  ghost predicate AdmitsOn(pf: Platform, list: seq<Task>, rt: Task, cpu: nat) {
    Periodic(OnCpu(list, cpu)) && 0 < rt.period && Admits(pf, list, rt, cpu)
  }

  /** The least allowed CPU that admits the task, or `pf.cpus` if there is none. */
  ghost predicate FirstFit(pf: Platform, list: seq<Task>, rt: Task, allowed: set<nat>, dst: nat) {
    && dst <= pf.cpus && (dst < pf.cpus ==> dst in allowed && AdmitsOn(pf, list, rt, dst))
    && forall c: nat :: c < dst && c in allowed ==> !AdmitsOn(pf, list, rt, c)
  }

  method Partition(pf: Platform, list: seq<Task>, rt: Task, allowed: set<nat>) returns (dst: nat)
    requires Sorted(list, PrioKey) && 0 < rt.period
    requires forall c: nat :: c < pf.cpus ==> Periodic(OnCpu(list, c))
    ensures FirstFit(pf, list, rt, allowed, dst)
  {
    for cpu := 0 to pf.cpus
      invariant forall c: nat :: c < cpu && c in allowed ==> !AdmitsOn(pf, list, rt, c)
    {
      if cpu !in allowed {
        continue;
      }
      var ok := TestCpu(pf, list, rt, cpu);
      if ok {
        return cpu;
      }
    }
    dst := pf.cpus;
  }

  // ---------------------------------------------------------------- the admission invariant

  ghost predicate UniqueIds(list: seq<Task>) {
    forall i, j :: 0 <= i < j < |list| ==> list[i].rid != list[j].rid
  }

  /** Own work and interference of `p` over its deadline. */
  ghost function DemandBound(pf: Platform, list: seq<Task>, p: Task): nat
    requires Periodic(OnCpu(list, p.cpu))
  {
    C(pf, p) + InterfSum(pf, list, p, p.cpu, Micros(pf, p.deadline))
  }

  ghost predicate Guaranteed(pf: Platform, list: seq<Task>, p: Task)
    requires Periodic(OnCpu(list, p.cpu))
  {
    DemandBound(pf, list, p) <= Micros(pf, p.deadline)
  }

  /** The invariant: every task placed on a CPU has its demand within its deadline. */
  ghost predicate Inv(pf: Platform, list: seq<Task>) {
    Shape(pf, list) && forall p :: p in list && p.cpu < pf.cpus ==> Guaranteed(pf, list, p)
  }

  lemma {:induction false} InterfSumConcat(pf: Platform, a: seq<Task>, b: seq<Task>, rt: Task, cpu: nat, L: nat)
    requires Periodic(OnCpu(a, cpu)) && Periodic(OnCpu(b, cpu))
    ensures Periodic(OnCpu(a + b, cpu))
    ensures InterfSum(pf, a + b, rt, cpu, L) == InterfSum(pf, a, rt, cpu, L) + InterfSum(pf, b, rt, cpu, L)
    decreases |b|
  {
    OnCpuConcat(a, b, cpu);
    if b == [] {
      assert a + b == a;
    } else {
      var n := |b| - 1;
      assert (a + b)[..|a + b| - 1] == a + b[..n];
      PrefixPeriodic(b, n, cpu);
      InterfSumConcat(pf, a, b[..n], rt, cpu, L);
    }
  }

  /** One task more or less changes the sum by that task's own interference. */
  lemma InterfSumAround(pf: Platform, a: seq<Task>, p: Task, b: seq<Task>, rt: Task, cpu: nat, L: nat)
    requires Periodic(OnCpu(a + [p] + b, cpu))
    ensures Periodic(OnCpu(a + b, cpu)) && (p.cpu == cpu ==> 0 < p.period)
    ensures InterfSum(pf, a + [p] + b, rt, cpu, L) == InterfSum(pf, a + b, rt, cpu, L) + InterfTerm(pf, p, rt, cpu, L)
  {
    var all := a + [p] + b;
    assert forall q :: q in OnCpu(a, cpu) || q in OnCpu(b, cpu) || q in OnCpu([p], cpu) ==> q in OnCpu(all, cpu);
    assert p.cpu == cpu ==> p in OnCpu(all, cpu);
    assert [p][..0] == [];
    InterfSumConcat(pf, a, b, rt, cpu, L);
    InterfSumConcat(pf, a, [p], rt, cpu, L);
    InterfSumConcat(pf, a + [p], b, rt, cpu, L);
  }

  /** A submitted task stands in the list without a CPU. */
  lemma SubmitKeepsInv(pf: Platform, list: seq<Task>, rt: Task, k: nat)
    requires Inv(pf, list) && rt.cpu == pf.cpus && forall p :: p in list ==> p.rid != rt.rid
    requires k == InsertPos(list, rt, PrioKey)
    ensures Inv(pf, list[..k] + [rt] + list[k..])
  {
    SubmittedShape(pf, list, rt, k);
    forall p: Task | p in list[..k] + [rt] + list[k..] && p.cpu < pf.cpus
      ensures Guaranteed(pf, list[..k] + [rt] + list[k..], p)
    {
      SubmittedGuaranteed(pf, list, rt, k, p);
    }
  }

  /** What the invariant says of the list itself. */
  ghost predicate Shape(pf: Platform, list: seq<Task>) {
    Sorted(list, PrioKey) && UniqueIds(list) && forall c: nat :: c < pf.cpus ==> Periodic(OnCpu(list, c))
  }

  lemma SubmittedShape(pf: Platform, list: seq<Task>, rt: Task, k: nat)
    requires Shape(pf, list) && rt.cpu == pf.cpus && forall p :: p in list ==> p.rid != rt.rid
    requires k == InsertPos(list, rt, PrioKey)
    ensures Shape(pf, list[..k] + [rt] + list[k..])
  {
    var a, b := list[..k], list[k..];
    assert list == a + b;
    InsertSorted(list, rt, PrioKey);
    UniqueAround(a, rt, b);
    forall c: nat | c < pf.cpus ensures Periodic(OnCpu(a + [rt] + b, c)) {
      OnCpuAround(a, rt, b, c);
      assert Periodic(OnCpu(list, c));
    }
  }

  lemma SubmittedGuaranteed(pf: Platform, list: seq<Task>, rt: Task, k: nat, p: Task)
    requires Inv(pf, list) && rt.cpu == pf.cpus && k <= |list|
    requires p in list[..k] + [rt] + list[k..] && p.cpu < pf.cpus
    ensures
      var now := list[..k] + [rt] + list[k..];
      Periodic(OnCpu(now, p.cpu)) && Guaranteed(pf, now, p)
  {
    var a, b := list[..k], list[k..];
    assert list == a + b;
    assert p in list && Periodic(OnCpu(list, p.cpu)) && Guaranteed(pf, list, p);
    OnCpuAround(a, rt, b, p.cpu);
    InterfSumAround(pf, a, rt, b, p, p.cpu, Micros(pf, p.deadline));
  }

  lemma UniqueAround(a: seq<Task>, rt: Task, b: seq<Task>)
    requires UniqueIds(a + b) && forall p :: p in a + b ==> p.rid != rt.rid
    ensures UniqueIds(a + [rt] + b)
  {
    var now := a + [rt] + b;
    forall i, j | 0 <= i < j < |now| ensures now[i].rid != now[j].rid {
      var i', j' := if i < |a| then i else i - 1, if j < |a| then j else j - 1;
      assert i != |a| ==> now[i] == (a + b)[i'] && now[i] in a + b;
      assert j != |a| ==> now[j] == (a + b)[j'] && now[j] in a + b;
    }
  }

  /** Placing the task on the CPU that admits it keeps every guarantee: above it nothing
      changes, at or below it the plugin has checked, and the task itself was analysed. */
  lemma AdmissionKeepsInv(pf: Platform, list: seq<Task>, k: nat, dst: nat)
    requires Inv(pf, list) && k < |list| && list[k].cpu == pf.cpus && dst < pf.cpus
    requires AdmitsOn(pf, list, list[k], dst)
    ensures Inv(pf, list[k := Assigned(list[k], dst)])
  {
    var now := list[k := Assigned(list[k], dst)];
    forall i, j | 0 <= i < j < |now| ensures now[i].rid != now[j].rid && PrioKey(now[i]) <= PrioKey(now[j]) {
      assert now[i].rid == list[i].rid && now[j].rid == list[j].rid;
      assert PrioKey(list[i]) <= PrioKey(list[j]);
    }
    forall c: nat | c < pf.cpus ensures Periodic(OnCpu(now, c)) {
      PlacedPeriodic(list, k, dst, c);
    }
    forall q | q in now && q.cpu < pf.cpus ensures Guaranteed(pf, now, q) {
      PlacedGuaranteed(pf, list, k, dst, q);
    }
  }

  lemma PlacedPeriodic(list: seq<Task>, k: nat, dst: nat, c: nat)
    requires k < |list| && list[k].cpu != c && 0 < list[k].period && Periodic(OnCpu(list, c))
    ensures Periodic(OnCpu(list[k := Assigned(list[k], dst)], c))
  {
    var a, rt, b := list[..k], list[k], list[k + 1..];
    assert list == a + [rt] + b && list[k := Assigned(rt, dst)] == a + [Assigned(rt, dst)] + b;
    OnCpuAround(a, rt, b, c);
    OnCpuAround(a, Assigned(rt, dst), b, c);
  }

  lemma PlacedGuaranteed(pf: Platform, list: seq<Task>, k: nat, dst: nat, q: Task)
    requires Inv(pf, list) && k < |list| && list[k].cpu == pf.cpus && dst < pf.cpus
    requires AdmitsOn(pf, list, list[k], dst) && q in list[k := Assigned(list[k], dst)] && q.cpu < pf.cpus
    ensures
      var now := list[k := Assigned(list[k], dst)];
      Periodic(OnCpu(now, q.cpu)) && Guaranteed(pf, now, q)
  {
    var a, rt, b, L := list[..k], list[k], list[k + 1..], Micros(pf, q.deadline);
    var p := Assigned(rt, dst);
    assert list == a + [rt] + b && list[k := p] == a + [p] + b;
    assert Periodic(OnCpu(list, q.cpu));
    PlacedPeriodic(list, k, dst, q.cpu);
    InterfSumAround(pf, a, p, b, q, q.cpu, L);
    InterfSumAround(pf, a, rt, b, q, q.cpu, L);
    if q == p {
      SameSum(pf, list, rt, p, dst, L);
    } else {
      assert q in list;
      if Interferes(p, q, q.cpu) {
        assert q in OnCpu(list, dst) && ToleratesOn(pf, list, rt, q, dst);
      }
    }
  }

  /** The sum looks at the id and priority of the analysed task only. */
  lemma SameSum(pf: Platform, list: seq<Task>, rt: Task, p: Task, cpu: nat, L: nat)
    requires Periodic(OnCpu(list, cpu)) && rt.rid == p.rid && rt.prio == p.prio
    ensures InterfSum(pf, list, rt, cpu, L) == InterfSum(pf, list, p, cpu, L)
  {
    if list != [] {
      PrefixPeriodic(list, |list| - 1, cpu);
      SameSum(pf, list[..|list| - 1], rt, p, cpu, L);
    }
  }

  /** A task that leaves takes its interference with it. */
  lemma ExitKeepsInv(pf: Platform, list: seq<Task>, k: nat)
    requires Inv(pf, list) && k < |list|
    ensures Inv(pf, list[..k] + list[k + 1..])
  {
    var a, p, b := list[..k], list[k], list[k + 1..];
    assert list == a + [p] + b;
    LeftShape(pf, list, k);
    forall q: Task | q in a + b && q.cpu < pf.cpus ensures Guaranteed(pf, a + b, q) {
      assert q in list && Periodic(OnCpu(list, q.cpu)) && Guaranteed(pf, list, q);
      InterfSumAround(pf, a, p, b, q, q.cpu, Micros(pf, q.deadline));
    }
  }

  lemma LeftShape(pf: Platform, list: seq<Task>, k: nat)
    requires Shape(pf, list) && k < |list|
    ensures Shape(pf, list[..k] + list[k + 1..])
  {
    var a, p, b := list[..k], list[k], list[k + 1..];
    assert list == a + [p] + b;
    forall i, j | 0 <= i < j < |a + b|
      ensures (a + b)[i].rid != (a + b)[j].rid && PrioKey((a + b)[i]) <= PrioKey((a + b)[j])
    {
      var i', j' := if i < k then i else i + 1, if j < k then j else j + 1;
      assert (a + b)[i] == list[i'] && (a + b)[j] == list[j'];
    }
    forall c: nat | c < pf.cpus ensures Periodic(OnCpu(a + b, c)) {
      OnCpuAround(a, p, b, c);
      assert Periodic(OnCpu(list, c));
      assert forall q :: q in OnCpu(a + b, c) ==> q in OnCpu(list, c);
    }
  }

  // ---------------------------------------------------------------- the plugin's state

  /** The global list under the plugin. */
  class Plugin {
    const pf: Platform
    var list: seq<Task>

    constructor (pf: Platform)
      ensures this.pf == pf && list == [] && Inv(pf, list)
    {
      this.pf := pf;
      list := [];
    }

    /** `api_run`: insertion into the global list, then the plugin's admission. A periodic task
        without a CPU leaves the list again; an aperiodic one stays, unplaced. */
    method Submit(rt: Task, allowed: set<nat>) returns (dst: nat)
      requires Inv(pf, list) && rt.cpu == pf.cpus && forall p :: p in list ==> p.rid != rt.rid
      modifies this
      ensures Inv(pf, list)
      ensures dst == pf.cpus || 0 < rt.period
      ensures 0 < rt.period ==> FirstFit(pf, Insert(old(list), rt, PrioKey), rt, allowed, dst)
      ensures
        var k := InsertPos(old(list), rt, PrioKey);
        list == if dst == pf.cpus && 0 < rt.period then old(list)
        else old(list)[..k] + [if dst < pf.cpus then rt.(cpu := dst, migratory := false) else rt] + old(list)[k..]
    {
      var k := FindInsertPos(list, rt, PrioKey);
      SubmitKeepsInv(pf, list, rt, k);
      Spliced(list, k, rt, rt);
      list := list[..k] + [rt] + list[k..];
      dst := pf.cpus;
      if 0 < rt.period {
        dst := TaskRun(k, allowed);
        Spliced(old(list), k, rt, Assigned(rt, dst));
        if dst == pf.cpus {
          list := list[..k] + list[k + 1..];
        }
      }
    }

    /** The plugin's part of a submission: choose a CPU for the task at position `k`. */
    method TaskRun(k: nat, allowed: set<nat>) returns (dst: nat)
      requires Inv(pf, list) && k < |list| && list[k].cpu == pf.cpus && 0 < list[k].period
      modifies this
      ensures Inv(pf, list) && FirstFit(pf, old(list), old(list)[k], allowed, dst)
      ensures
        var placed := old(list)[k].(cpu := dst, migratory := false);
        list == if dst < pf.cpus then old(list)[k := placed] else old(list)
    {
      var rt := list[k];
      dst := Partition(pf, list, rt, allowed);
      if dst < pf.cpus {
        AdmissionKeepsInv(pf, list, k, dst);
        list := list[k := Assigned(rt, dst)];
      }
    }

    /** `api_exit`: the task at position `i` leaves. */
    method Exit(i: nat)
      requires Inv(pf, list) && i < |list|
      modifies this
      ensures Inv(pf, list) && list == old(list)[..i] + old(list)[i + 1..]
    {
      ExitKeepsInv(pf, list, i);
      list := list[..i] + list[i + 1..];
    }
  }
}

/** The FP-PM plugin: response-time analysis with split tasks, partitioning, and splitting. */
module FpPm {
  import opened Resch
  import opened SortedList
  import opened Interference
  import opened SplitCapacity
  import opened SplitShares
  import FpFf

  /** What the plugin keeps of a task: its first and last CPU and its share on every CPU. */
  datatype Pieces = Pieces(first: nat, last: nat, runtime: seq<nat>)

  type Table = map<nat, Pieces>

  function Piece(tbl: Table, rid: nat, cpu: nat): nat {
    if rid in tbl && cpu < |tbl[rid].runtime| then tbl[rid].runtime[cpu] else 0
  }

  /** A task stands on a CPU as a whole or with a share. */
  predicate Present(tbl: Table, p: Task, cpu: nat) {
    p.cpu == cpu || 0 < Piece(tbl, p.rid, cpu)
  }

  /** The task has a share on this CPU and goes on to another one. */
  predicate Continues(tbl: Table, p: Task, cpu: nat) {
    0 < Piece(tbl, p.rid, cpu) && p.rid in tbl && tbl[p.rid].last != cpu
  }

  ghost predicate PeriodicOn(list: seq<Task>, tbl: Table, cpu: nat) {
    forall p :: p in list && Present(tbl, p, cpu) ==> 0 < p.period
  }

  function Micros(pf: Platform, j: nat): (u: nat)
    ensures 0 < j ==> 0 < u
  {
    FpFf.Micros(pf, j)
  }

  // ---------------------------------------------------------------- response times

  /** Execution of `hp` on the CPU that counts against `rt`. */
  function Load(pf: Platform, tbl: Table, hp: Task, rt: Task, cpu: nat): nat {
    if hp.prio < rt.prio then 0
    else if 0 < Piece(tbl, hp.rid, cpu) then Piece(tbl, hp.rid, cpu)
    else if hp.cpu == cpu && hp.rid != rt.rid then FpFf.C(pf, hp)
    else 0
  }

  function Term(pf: Platform, tbl: Table, hp: Task, rt: Task, cpu: nat, L: nat): nat
    requires Present(tbl, hp, cpu) ==> 0 < hp.period
  {
    var c := Load(pf, tbl, hp, rt, cpu);
    if c == 0 then 0 else Interf(c, Micros(pf, hp.period), L)
  }

  function InterfSum(pf: Platform, list: seq<Task>, tbl: Table, rt: Task, cpu: nat, L: nat): nat
    requires PeriodicOn(list, tbl, cpu)
  {
    if list == [] then 0
    else
      var front, hp := list[..|list| - 1], list[|list| - 1];
      assert list == front + [hp];
      InterfSum(pf, front, tbl, rt, cpu, L) + Term(pf, tbl, hp, rt, cpu, L)
  }

  /** Own work and interference over an interval. */
  function Demand(pf: Platform, list: seq<Task>, tbl: Table, rt: Task, cpu: nat): nat
    requires PeriodicOn(list, tbl, cpu)
  {
    FpFf.C(pf, rt) + InterfSum(pf, list, tbl, rt, cpu, Micros(pf, rt.deadline))
  }

  lemma WholeTasksPeriodic(list: seq<Task>, tbl: Table, cpu: nat)
    requires PeriodicOn(list, tbl, cpu)
    ensures Periodic(OnCpu(list, cpu))
  {
    assert forall p :: p in list && p.cpu == cpu ==> Present(tbl, p, cpu);
  }

  /** The bound the analysis computes. */
  function Response(pf: Platform, list: seq<Task>, tbl: Table, rt: Task, cpu: nat): nat
    requires PeriodicOn(list, tbl, cpu) && 0 < rt.period
  {
    WholeTasksPeriodic(list, tbl, cpu);
    Demand(pf, list, tbl, rt, cpu) + FpFf.Overhead(pf, list, rt, cpu, Micros(pf, rt.deadline))
  }

  /** Some task that counts against `rt` continues on another CPU. */
  ghost predicate Carries(list: seq<Task>, tbl: Table, rt: Task, cpu: nat) {
    if list == [] then false
    else
      var hp := list[|list| - 1];
      Carries(list[..|list| - 1], tbl, rt, cpu) || (hp.prio >= rt.prio && Continues(tbl, hp, cpu))
  }

  lemma {:induction false} CarriesIff(list: seq<Task>, tbl: Table, rt: Task, cpu: nat)
    ensures Carries(list, tbl, rt, cpu) <==>
            exists hp :: hp in list && hp.prio >= rt.prio && Continues(tbl, hp, cpu)
  {
    if list != [] {
      var front, hp := list[..|list| - 1], list[|list| - 1];
      assert list == front + [hp];
      CarriesIff(front, tbl, rt, cpu);
    }
  }

  lemma PrefixPeriodic(list: seq<Task>, i: nat, tbl: Table, cpu: nat)
    requires i <= |list| && PeriodicOn(list, tbl, cpu)
    ensures PeriodicOn(list[..i], tbl, cpu)
  {
  }

  lemma {:induction false} LowerTailAddsNothing(
    pf: Platform, list: seq<Task>, i: nat, tbl: Table, rt: Task, cpu: nat, L: nat)
    requires Sorted(list, PrioKey) && PeriodicOn(list, tbl, cpu) && i <= |list|
    requires i < |list| ==> list[i].prio < rt.prio
    ensures PeriodicOn(list[..i], tbl, cpu)
    ensures InterfSum(pf, list, tbl, rt, cpu, L) == InterfSum(pf, list[..i], tbl, rt, cpu, L)
    ensures Carries(list, tbl, rt, cpu) <==> Carries(list[..i], tbl, rt, cpu)
    decreases |list|
  {
    PrefixPeriodic(list, i, tbl, cpu);
    if i == |list| {
      assert list[..i] == list;
    } else {
      var n := |list| - 1;
      PrefixPeriodic(list, n, tbl, cpu);
      LowerTailAddsNothing(pf, list[..n], i, tbl, rt, cpu, L);
      assert list[..n][..i] == list[..i];
      assert PrioKey(list[i]) <= PrioKey(list[n]);
    }
  }

  lemma Step(pf: Platform, list: seq<Task>, i: nat, tbl: Table, rt: Task, cpu: nat, L: nat)
    requires PeriodicOn(list, tbl, cpu) && i < |list|
    ensures PeriodicOn(list[..i], tbl, cpu) && PeriodicOn(list[..i + 1], tbl, cpu)
    ensures Present(tbl, list[i], cpu) ==> 0 < list[i].period
    ensures InterfSum(pf, list[..i + 1], tbl, rt, cpu, L) ==
            InterfSum(pf, list[..i], tbl, rt, cpu, L) + Term(pf, tbl, list[i], rt, cpu, L)
    ensures Carries(list[..i + 1], tbl, rt, cpu) <==>
            Carries(list[..i], tbl, rt, cpu) || (list[i].prio >= rt.prio && Continues(tbl, list[i], cpu))
  {
    PrefixPeriodic(list, i, tbl, cpu);
    PrefixPeriodic(list, i + 1, tbl, cpu);
    assert list[..i + 1][..i] == list[..i];
  }

  /** What a task of at least the priority adds, and whether it continues elsewhere. */
  method Count(pf: Platform, tbl: Table, hp: Task, rt: Task, cpu: nat, L: nat) returns (r: nat, goes: bool)
    requires (Present(tbl, hp, cpu) ==> 0 < hp.period) && hp.prio >= rt.prio
    ensures r == Term(pf, tbl, hp, rt, cpu, L)
    ensures goes == Continues(tbl, hp, cpu)
  {
    var ck: nat := 0;
    goes := false;
    if 0 < Piece(tbl, hp.rid, cpu) {
      ck := Piece(tbl, hp.rid, cpu);
      goes := tbl[hp.rid].last != cpu;
    } else if hp.cpu == cpu && hp.rid != rt.rid {
      ck := FpFf.C(pf, hp);
    }
    r := if ck != 0 then Interf(ck, Micros(pf, hp.period), L) else 0;
  }

  /** The walk stops at the first task of lower priority; in a sorted list nothing is missed. */
  method Walk(pf: Platform, list: seq<Task>, tbl: Table, rt: Task, cpu: nat, L: nat)
    returns (r: nat, carries: bool)
    requires Sorted(list, PrioKey) && PeriodicOn(list, tbl, cpu)
    ensures r == InterfSum(pf, list, tbl, rt, cpu, L)
    ensures carries == Carries(list, tbl, rt, cpu)
  {
    r, carries := 0, false;
    var i := 0;
    while i < |list| && list[i].prio >= rt.prio
      invariant i <= |list|
      invariant PeriodicOn(list[..i], tbl, cpu)
      invariant r == InterfSum(pf, list[..i], tbl, rt, cpu, L)
      invariant carries == Carries(list[..i], tbl, rt, cpu)
    {
      Step(pf, list, i, tbl, rt, cpu, L);
      var term, goes := Count(pf, tbl, list[i], rt, cpu, L);
      r, carries := r + term, carries || goes;
      i := i + 1;
    }
    LowerTailAddsNothing(pf, list, i, tbl, rt, cpu, L);
  }

  /** `fppm_response_time_analysis`: it also tells whether a task that counts continues elsewhere,
      which takes the CPU away from a later split. */
  method ResponseTimeAnalysis(pf: Platform, list: seq<Task>, tbl: Table, rt: Task, cpu: nat)
    returns (r: nat, carries: bool)
    requires Sorted(list, PrioKey) && PeriodicOn(list, tbl, cpu) && 0 < rt.period
    ensures r == Response(pf, list, tbl, rt, cpu)
    ensures carries == Carries(list, tbl, rt, cpu)
  {
    WholeTasksPeriodic(list, tbl, cpu);
    var L := Micros(pf, rt.deadline);
    r, carries := Walk(pf, list, tbl, rt, cpu, L);
    r := r + FpFf.C(pf, rt) + FpFf.Overhead(pf, list, rt, cpu, L);
  }

  // ---------------------------------------------------------------- partitioning

  predicate Tolerates(pf: Platform, list: seq<Task>, tbl: Table, lp: Task, c: nat, p: nat, cpu: nat)
    requires PeriodicOn(list, tbl, cpu) && 0 < lp.period && 0 < p
  {
    var D := Micros(pf, lp.deadline);
    Response(pf, list, tbl, lp, cpu) + Interf(c, p, D) <= D
  }

  /** The plugin's test of one CPU for a task that is not split. */
  ghost predicate Admits(pf: Platform, list: seq<Task>, tbl: Table, rt: Task, cpu: nat)
    requires PeriodicOn(list, tbl, cpu) && 0 < rt.period
  {
    && Response(pf, list, tbl, rt, cpu) <= Micros(pf, rt.deadline)
    && forall lp :: lp in list && Present(tbl, lp, cpu) && lp.prio <= rt.prio ==>
                      Tolerates(pf, list, tbl, lp, FpFf.C(pf, rt), Micros(pf, rt.period), cpu)
  }

  /** Some task continues on another CPU. */
  ghost predicate CarriesAny(list: seq<Task>, tbl: Table, cpu: nat) {
    exists hp :: hp in list && Continues(tbl, hp, cpu)
  }

  /** The test of one CPU. The CPU is found taken when a task continues that counts against one of
      those looked at, `rt` among them. */
  method TestCpu(pf: Platform, list: seq<Task>, tbl: Table, rt: Task, cpu: nat) returns (ok: bool, taken: bool)
    requires Sorted(list, PrioKey) && PeriodicOn(list, tbl, cpu) && 0 < rt.period
    ensures ok <==> Admits(pf, list, tbl, rt, cpu)
    ensures Carries(list, tbl, rt, cpu) ==> taken
    ensures taken ==> CarriesAny(list, tbl, cpu)
  {
    var ri;
    ri, taken := ResponseTimeAnalysis(pf, list, tbl, rt, cpu);
    CarriesIff(list, tbl, rt, cpu);
    if ri > Micros(pf, rt.deadline) {
      return false, taken;
    }
    var start := FpFf.GlobalPrioTask(list, rt.prio);
    var carries;
    ok, carries := TestLower(pf, list, tbl, rt, cpu, start);
    taken := taken || carries;
  }

  /** The loop over the tasks of at most the priority, from `start` on. */
  method TestLower(pf: Platform, list: seq<Task>, tbl: Table, rt: Task, cpu: nat, start: nat)
    returns (ok: bool, taken: bool)
    requires Sorted(list, PrioKey) && PeriodicOn(list, tbl, cpu) && 0 < rt.period && start <= |list|
    ensures ok <==> forall j :: start <= j < |list| && Present(tbl, list[j], cpu) ==>
                                  Tolerates(pf, list, tbl, list[j], FpFf.C(pf, rt), Micros(pf, rt.period), cpu)
    ensures taken ==> CarriesAny(list, tbl, cpu)
  {
    taken := false;
    for k := start to |list|
      invariant taken ==> CarriesAny(list, tbl, cpu)
      invariant forall j :: start <= j < k && Present(tbl, list[j], cpu) ==>
                              Tolerates(pf, list, tbl, list[j], FpFf.C(pf, rt), Micros(pf, rt.period), cpu)
    {
      var lp := list[k];
      if !Present(tbl, lp, cpu) {
        continue;
      }
      var rk, carries := ResponseTimeAnalysis(pf, list, tbl, lp, cpu);
      CarriesIff(list, tbl, lp, cpu);
      taken := taken || carries;
      var dk := Micros(pf, lp.deadline);
      if rk + Interf(FpFf.C(pf, rt), Micros(pf, rt.period), dk) > dk {
        return false, taken;
      }
    }
    ok := true;
  }

  /** First fit: the least allowed CPU that admits the whole task, or `pf.cpus` if there is none. A CPU
      that stays available after its test carries no task that counts against `rt` elsewhere. */
  method Partition(pf: Platform, list: seq<Task>, tbl: Table, rt: Task, allowed: set<nat>, avail: array<bool>)
    returns (dst: nat)
    requires Sorted(list, PrioKey) && 0 < rt.period && avail.Length == pf.cpus
    requires forall c: nat :: c < pf.cpus ==> PeriodicOn(list, tbl, c)
    modifies avail
    ensures dst <= pf.cpus
    ensures dst < pf.cpus ==> dst in allowed && Admits(pf, list, tbl, rt, dst)
    ensures forall c: nat :: c < dst && c in allowed ==> !Admits(pf, list, tbl, rt, c)
    ensures forall c: nat :: c < dst && c in allowed && avail[c] ==> !Carries(list, tbl, rt, c)
    ensures forall c: nat :: c < pf.cpus && avail[c] != old(avail[c]) ==>
                               !avail[c] && c in allowed && CarriesAny(list, tbl, c)
  {
    for cpu := 0 to pf.cpus
      invariant forall c: nat :: c < cpu && c in allowed ==> !Admits(pf, list, tbl, rt, c)
      invariant forall c: nat :: c < cpu && c in allowed && avail[c] ==> !Carries(list, tbl, rt, c)
      invariant forall c: nat :: c < pf.cpus && avail[c] != old(avail[c]) ==>
                                   !avail[c] && c in allowed && CarriesAny(list, tbl, c)
    {
      if cpu !in allowed {
        continue;
      }
      var ok, taken := TestCpu(pf, list, tbl, rt, cpu);
      if taken {
        avail[cpu] := false;
      }
      if ok {
        return cpu;
      }
    }
    dst := pf.cpus;
  }

  // ---------------------------------------------------------------- splitting

  /** The room one task of the CPU leaves for a newcomer of period `P`, -1 if the task is overloaded. */
  function Room(pf: Platform, list: seq<Task>, tbl: Table, lp: Task, P: Pos, cpu: nat): (r: int)
    requires PeriodicOn(list, tbl, cpu) && 0 < lp.period
    ensures -1 <= r
  {
    var R, D := Response(pf, list, tbl, lp, cpu), Micros(pf, lp.deadline);
    if D < R then -1 else Capacity(R, D, P)
  }

  /** The rooms of the tasks on the CPU, in list order. */
  function Rooms(pf: Platform, list: seq<Task>, ts: seq<Task>, tbl: Table, P: Pos, cpu: nat): (r: seq<int>)
    requires PeriodicOn(list, tbl, cpu) && PeriodicOn(ts, tbl, cpu)
    ensures forall i :: 0 <= i < |r| ==> -1 <= r[i]
  {
    if ts == [] then []
    else
      var rest := Rooms(pf, list, ts[1..], tbl, P, cpu);
      if Present(tbl, ts[0], cpu) then [Room(pf, list, tbl, ts[0], P, cpu)] + rest else rest
  }

  /** What the CPU is given at most. */
  function Spare(pf: Platform, list: seq<Task>, tbl: Table, P: Pos, cpu: nat): nat
    requires PeriodicOn(list, tbl, cpu)
  {
    Fold(Rooms(pf, list, list, tbl, P, cpu), 0)
  }

  lemma SuffixPeriodic(list: seq<Task>, i: nat, tbl: Table, cpu: nat)
    requires i <= |list| && PeriodicOn(list, tbl, cpu)
    ensures PeriodicOn(list[i..], tbl, cpu)
  {
  }

  /** The inner loop of `split`. */
  method ComputeSpare(pf: Platform, list: seq<Task>, tbl: Table, P: Pos, cpu: nat) returns (s: nat)
    requires Sorted(list, PrioKey) && PeriodicOn(list, tbl, cpu)
    ensures s == Spare(pf, list, tbl, P, cpu)
  {
    s := 0;
    for i := 0 to |list|
      invariant PeriodicOn(list[i..], tbl, cpu)
      invariant Spare(pf, list, tbl, P, cpu) == Fold(Rooms(pf, list, list[i..], tbl, P, cpu), s)
    {
      SuffixPeriodic(list, i + 1, tbl, cpu);
      assert list[i..][1..] == list[i + 1..];
      var lp := list[i];
      if !Present(tbl, lp, cpu) {
        continue;
      }
      var rk, _ := ResponseTimeAnalysis(pf, list, tbl, lp, cpu);
      var dk := Micros(pf, lp.deadline);
      if dk < rk {
        return 0;
      }
      var tmp := Capacity(rk, dk, P);
      if s > tmp || s == 0 {
        s := tmp;
      }
    }
  }
}

/** From the FP-FF invariant to the runs of each CPU, and what the invariant leaves out. */
module FpAdmission {
  import opened Resch
  import opened SortedList
  import opened Interference
  import opened Arith
  import opened FpFf
  import opened Counting
  import opened FpCounts
  import FpSchedule
  import FpThreads
  import FpLevels
  import FpExact

  function InMicros(pf: Platform, p: Task): FpSchedule.Timing
    requires 0 < p.period
  {
    MicrosPositive(pf, p.period);
    FpSchedule.Timing(p.prio, C(pf, p), Micros(pf, p.period), Micros(pf, p.deadline))
  }

  function AllInMicros(pf: Platform, ts: seq<Task>): (r: seq<FpSchedule.Timing>)
    requires Periodic(ts)
    ensures |r| == |ts| && forall i :: 0 <= i < |ts| ==> r[i] == InMicros(pf, ts[i])
  {
    if ts == [] then [] else AllInMicros(pf, ts[..|ts| - 1]) + [InMicros(pf, ts[|ts| - 1])]
  }

  /** The schedule's interference is at most the closed form, and the same for jobs no longer
      than their period. */
  lemma {:induction false} InterIsClosedForm(p: FpSchedule.Timing, a: nat, e: nat)
    requires a <= e
    ensures FpSchedule.Inter(p, a, e) <= Interf(p.wcet, p.period, e - a)
    ensures p.wcet <= p.period ==> FpSchedule.Inter(p, a, e) == Interf(p.wcet, p.period, e - a)
    decreases e - a
  {
    FirstJob(p.wcet, p.period, e - a);
    if a + p.period <= e {
      InterIsClosedForm(p, a + p.period, e);
    }
  }

  /** The closed form covers the first job. */
  lemma {:induction false} CoversFirstJob(c: nat, p: Pos, L: nat)
    ensures Min(c, L) <= Interf(c, p, L)
  {
    FirstJob(c, p, L);
  }

  /** Interference by CPU: the tasks elsewhere add nothing. */
  lemma InterfSumOnCpu(pf: Platform, list: seq<Task>, rt: Task, cpu: nat, L: nat)
    requires Periodic(OnCpu(list, cpu))
    ensures OnCpu(OnCpu(list, cpu), cpu) == OnCpu(list, cpu)
    ensures InterfSum(pf, list, rt, cpu, L) == InterfSum(pf, OnCpu(list, cpu), rt, cpu, L)
  {
    if list != [] {
      var n := |list| - 1;
      PrefixPeriodic(list, n, cpu);
      InterfSumOnCpu(pf, list[..n], rt, cpu, L);
      var front, p := OnCpu(list[..n], cpu), list[n];
      if p.cpu == cpu {
        assert (front + [p])[..|front|] == front;
        assert OnCpu(list, cpu) == front + [p];
      }
    }
  }

  /** What one task adds to either side, seen from task `rt` of the same CPU. */
  lemma TermBound(pf: Platform, p: Task, rt: Task, cpu: nat, L: nat)
    requires 0 < p.period && p.cpu == cpu && (p.rid == rt.rid ==> p == rt)
    requires p.rid != rt.rid && p.prio == rt.prio ==> C(pf, p) <= InterfOf(pf, p, L)
    ensures
      (if p.prio > rt.prio then FpSchedule.Inter(InMicros(pf, p), 0, L) else 0) +
      (if p.prio == rt.prio then C(pf, p) else 0)
      <= InterfTerm(pf, p, rt, cpu, L) + (if p.rid == rt.rid then C(pf, rt) else 0)
  {
    InterIsClosedForm(InMicros(pf, p), 0, L);
  }

  /** Higher interference plus one job of each peer stays within the analysis. */
  lemma {:induction false} HigherWithinSum(pf: Platform, ts: seq<Task>, i: nat, cpu: nat, L: nat, n: nat)
    requires Periodic(ts) && UniqueIds(ts) && i < |ts| && n <= |ts|
    requires forall p :: p in ts ==> p.cpu == cpu
    requires forall j :: 0 <= j < |ts| && j != i && ts[j].prio == ts[i].prio ==> C(pf, ts[j]) <= InterfOf(pf, ts[j], L)
    ensures Periodic(OnCpu(ts[..n], cpu))
    ensures
      var us := AllInMicros(pf, ts);
      FpSchedule.HigherInter(us, ts[i].prio, L, n) + FpSchedule.PeerWork(us, ts[i].prio, n)
      <= InterfSum(pf, ts[..n], ts[i], cpu, L) + if i < n then C(pf, ts[i]) else 0
  {
    PrefixOnCpu(ts, cpu, n);
    if n > 0 {
      var j := n - 1;
      HigherWithinSum(pf, ts, i, cpu, L, j);
      OnCpuSumStep(pf, ts, ts[i], cpu, L, n);
      assert ts[j].rid == ts[i].rid <==> i == j;
      TermBound(pf, ts[j], ts[i], cpu, L);
    }
  }

  lemma PrefixOnCpu(ts: seq<Task>, cpu: nat, n: nat)
    requires n <= |ts| && forall p :: p in ts ==> p.cpu == cpu
    ensures OnCpu(ts[..n], cpu) == ts[..n]
  {
    if n > 0 {
      PrefixOnCpu(ts, cpu, n - 1);
      assert ts[..n][..n - 1] == ts[..n - 1];
      assert ts[..n] == ts[..n - 1] + [ts[n - 1]];
      assert ts[n - 1] in ts;
    }
  }

  lemma OnCpuSumStep(pf: Platform, ts: seq<Task>, rt: Task, cpu: nat, L: nat, n: nat)
    requires Periodic(ts) && 0 < n <= |ts| && forall p :: p in ts ==> p.cpu == cpu
    ensures Periodic(OnCpu(ts[..n], cpu)) && Periodic(OnCpu(ts[..n - 1], cpu)) && ts[n - 1] in ts
    ensures InterfSum(pf, ts[..n], rt, cpu, L)
         == InterfSum(pf, ts[..n - 1], rt, cpu, L) + InterfTerm(pf, ts[n - 1], rt, cpu, L)
  {
    PrefixOnCpu(ts, cpu, n);
    PrefixOnCpu(ts, cpu, n - 1);
    assert ts[..n][..n - 1] == ts[..n - 1];
  }

  lemma UniqueOnCpu(list: seq<Task>, cpu: nat)
    requires UniqueIds(list)
    ensures UniqueIds(OnCpu(list, cpu))
  {
    if list != [] {
      var n := |list| - 1;
      UniqueOnCpu(list[..n], cpu);
      forall p | p in OnCpu(list[..n], cpu) ensures p.rid != list[n].rid {
        assert p in list[..n];
      }
    }
  }

  /** One term of the sum. */
  lemma TermWithinSum(pf: Platform, list: seq<Task>, k: nat, rt: Task, cpu: nat, L: nat)
    requires Periodic(OnCpu(list, cpu)) && k < |list| && Interferes(list[k], rt, cpu)
    ensures 0 < list[k].period && InterfOf(pf, list[k], L) <= InterfSum(pf, list, rt, cpu, L)
  {
    assert list[k] in OnCpu(list, cpu);
    var n := |list| - 1;
    PrefixPeriodic(list, n, cpu);
    if k < n {
      TermWithinSum(pf, list[..n], k, rt, cpu, L);
    }
  }

  /** Where the sum stays below the interval, a peer's interference covers a whole job. */
  lemma PeerCovered(pf: Platform, ts: seq<Task>, j: nat, rt: Task, c: nat, L: nat)
    requires Periodic(OnCpu(ts, c)) && j < |ts| && Interferes(ts[j], rt, c) && 0 < ts[j].period
    requires InterfSum(pf, ts, rt, c, L) < L
    ensures C(pf, ts[j]) <= InterfOf(pf, ts[j], L)
  {
    TermWithinSum(pf, ts, j, rt, c, L);
    MicrosPositive(pf, ts[j].period);
    CoversFirstJob(C(pf, ts[j]), Micros(pf, ts[j].period), L);
  }

  /** Own work and interference of a task, counted on its CPU only. */
  lemma GuaranteedSum(pf: Platform, list: seq<Task>, c: nat, rt: Task)
    requires Inv(pf, list) && c < pf.cpus && rt in OnCpu(list, c)
    ensures Periodic(OnCpu(OnCpu(list, c), c))
    ensures C(pf, rt) + InterfSum(pf, OnCpu(list, c), rt, c, Micros(pf, rt.deadline)) <= Micros(pf, rt.deadline)
  {
    assert rt in list && Periodic(OnCpu(list, c)) && Guaranteed(pf, list, rt);
    InterfSumOnCpu(pf, list, rt, c, Micros(pf, rt.deadline));
  }

  /** Under the invariant each task of a CPU passes the condition of the schedule. */
  lemma GuaranteedFits(pf: Platform, list: seq<Task>, c: nat, i: nat)
    requires Inv(pf, list) && c < pf.cpus && i < |OnCpu(list, c)| && 0 < C(pf, OnCpu(list, c)[i])
    ensures FpSchedule.Fits(AllInMicros(pf, OnCpu(list, c)), i)
  {
    var ts := OnCpu(list, c);
    GuaranteedSum(pf, list, c, ts[i]);
    UniqueOnCpu(list, c);
    SumFits(pf, ts, c, i);
  }

  lemma SumFits(pf: Platform, ts: seq<Task>, c: nat, i: nat)
    requires Periodic(ts) && UniqueIds(ts) && i < |ts| && 0 < C(pf, ts[i]) && forall p :: p in ts ==> p.cpu == c
    requires Periodic(OnCpu(ts, c))
    requires C(pf, ts[i]) + InterfSum(pf, ts, ts[i], c, Micros(pf, ts[i].deadline)) <= Micros(pf, ts[i].deadline)
    ensures FpSchedule.Fits(AllInMicros(pf, ts), i)
  {
    var rt, L := ts[i], Micros(pf, ts[i].deadline);
    forall j | 0 <= j < |ts| && j != i && ts[j].prio == rt.prio ensures C(pf, ts[j]) <= InterfOf(pf, ts[j], L) {
      assert ts[j] in ts;
      PeerCovered(pf, ts, j, rt, c, L);
    }
    HigherWithinSum(pf, ts, i, c, L, |ts|);
    assert ts[..|ts|] == ts;
  }

  lemma GuaranteedAllFit(pf: Platform, list: seq<Task>, c: nat)
    requires Inv(pf, list) && c < pf.cpus
    ensures Periodic(OnCpu(list, c)) && FpSchedule.AllFit(AllInMicros(pf, OnCpu(list, c)))
  {
    var us := AllInMicros(pf, OnCpu(list, c));
    forall i | 0 <= i < |us| && 0 < us[i].wcet ensures FpSchedule.Fits(us, i) {
      GuaranteedFits(pf, list, c, i);
    }
  }

  // ---------------------------------------------------------------- the runs, by build

  /** The tasks with their worst-case execution times, in microseconds. */
  function WorstTimings(pf: Platform, ts: seq<Task>): (r: seq<FpSchedule.Timing>)
    requires Periodic(ts)
    ensures |r| == |ts|
  {
    seq(|ts|, i requires 0 <= i < |ts| =>
      Positive(ts[i].period, pf.tick);
      FpSchedule.Timing(ts[i].prio, ts[i].wcet, ts[i].period * pf.tick, ts[i].deadline * pf.tick))
  }

  /** The tasks with their average execution times. */
  function AverageTimings(pf: Platform, ts: seq<Task>): (r: seq<FpSchedule.Timing>)
    requires Periodic(ts)
    ensures |r| == |ts|
  {
    seq(|ts|, i requires 0 <= i < |ts| =>
      Positive(ts[i].period, pf.tick);
      FpSchedule.Timing(ts[i].prio, ts[i].runtime, ts[i].period * pf.tick, ts[i].deadline * pf.tick))
  }

  /** A hard real-time build analyses the worst case, the other one the average. */
  lemma AnalysedTimings(pf: Platform, ts: seq<Task>)
    requires Periodic(ts)
    ensures AllInMicros(pf, ts) == if pf.hardRt then WorstTimings(pf, ts) else AverageTimings(pf, ts)
  {
  }

  /** What FP-FF promises: after any history of submissions and exits, on every CPU whose tasks have
      deadlines within their periods, in every run with sporadic releases every job finishes by its deadline,
      if no job takes longer than its worst case on a hard real-time build, or its average on the other. */
  lemma PlacedTasksMeetDeadlines(pf: Platform, list: seq<Task>, c: nat)
    requires Inv(pf, list) && c < pf.cpus
    requires forall p :: p in OnCpu(list, c) && 0 < Work(p, pf.hardRt) ==> p.deadline <= p.period
    ensures Periodic(OnCpu(list, c))
    ensures pf.hardRt ==> FpThreads.AlwaysMeetsDeadlines(WorstTimings(pf, OnCpu(list, c)))
    ensures !pf.hardRt ==> FpThreads.AlwaysMeetsDeadlines(AverageTimings(pf, OnCpu(list, c)))
  {
    GuaranteedAllFit(pf, list, c);
    var ts := OnCpu(list, c);
    var us := AllInMicros(pf, ts);
    AnalysedTimings(pf, ts);
    forall i | 0 <= i < |us| && 0 < us[i].wcet ensures us[i].deadline <= us[i].period {
      assert ts[i] in ts;
      MulMono(ts[i].deadline, ts[i].period, pf.tick);
    }
    FpThreads.FpMeetsDeadlines(us);
  }

  /** No two tasks with work have the same priority. */
  ghost predicate DistinctPrios(pf: Platform, ts: seq<Task>) {
    forall i, j :: 0 <= i < j < |ts| && 0 < Work(ts[i], pf.hardRt) && 0 < Work(ts[j], pf.hardRt) ==>
                     ts[i].prio != ts[j].prio
  }

  /** Every task whose deadline exceeds the period has room for any number of overlapping jobs. */
  ghost predicate LongDeadlinesFit(us: seq<FpSchedule.Timing>) {
    forall i :: 0 <= i < |us| && 0 < us[i].wcet && us[i].period < us[i].deadline ==> FpLevels.Level(us, i, false)
  }

  /** Longer deadlines are another matter: with different priorities every run meets every deadline exactly
      when the tasks whose deadline exceeds the period have room for any number of overlapping jobs. */
  lemma PlacedTasksMeetDeadlinesIff(pf: Platform, list: seq<Task>, c: nat)
    requires Inv(pf, list) && c < pf.cpus && DistinctPrios(pf, OnCpu(list, c))
    ensures Periodic(OnCpu(list, c))
    ensures
      var us := WorstTimings(pf, OnCpu(list, c));
      pf.hardRt ==> (FpThreads.AlwaysMeetsDeadlines(us) <==> LongDeadlinesFit(us))
    ensures
      var us := AverageTimings(pf, OnCpu(list, c));
      !pf.hardRt ==> (FpThreads.AlwaysMeetsDeadlines(us) <==> LongDeadlinesFit(us))
  {
    GuaranteedAllFit(pf, list, c);
    AnalysedTimings(pf, OnCpu(list, c));
    FpExact.FittingMeetDeadlinesIff(AllInMicros(pf, OnCpu(list, c)));
  }

  const BARE := Platform(1000, 1, 0, 0, 0, true)
  // 15 of every 10 milliseconds, within 20
  const TOO_MUCH := Task(0, 10, 1, true, 15000, 15000, 10, 20)

  /** The plugin admits one and a half times what the CPU can do, since it looks at a single job. */
  lemma OverloadIsAdmitted()
    ensures Inv(BARE, [TOO_MUCH]) && AdmitsOn(BARE, [TOO_MUCH], TOO_MUCH, 0)
  {
    assert OnCpu([TOO_MUCH], 0) == [] by {
      assert [TOO_MUCH][..0] == [];
    }
    assert InterfSum(BARE, [TOO_MUCH], TOO_MUCH, 0, 20000) == 0 by {
      assert [TOO_MUCH][..0] == [];
    }
  }

  /** And the third job misses its deadline. */
  lemma AdmittedOverloadMisses()
    ensures
      var now := [Assigned(TOO_MUCH, 0)];
      && Inv(BARE, now) && OnCpu(now, 0) == now && Periodic(now)
      && !FpThreads.AlwaysMeetsDeadlines(WorstTimings(BARE, now))
  {
    OverloadIsAdmitted();
    var now := [Assigned(TOO_MUCH, 0)];
    AdmissionKeepsInv(BARE, [TOO_MUCH], 0, 0);
    assert [TOO_MUCH][0 := Assigned(TOO_MUCH, 0)] == now;
    assert now[..0] == [] && OnCpu(now, 0) == now;
    AnalysedTimings(BARE, now);
    var us := AllInMicros(BARE, now);
    assert us[0] == FpSchedule.Timing(10, 15000, 10000, 20000);
    forall t: nat ensures !FpLevels.Window(us, 0, false, 2, t) {
    }
    FpExact.MissingWindow(us, 0, 2);
  }

  // ---------------------------------------------------------------- overhead is not invariant

  /** The full bound of a task already on the CPU grows by the newcomer's interference, when it
      is not above the newcomer, and by the newcomer's overhead once it is placed, in either case. */
  lemma ResponseTimeAfter(pf: Platform, a: seq<Task>, rt: Task, b: seq<Task>, dst: nat, q: Task)
    requires 0 < rt.period && rt.cpu != dst && Periodic(OnCpu(a + [rt] + b, dst))
    requires 0 < q.period && q.rid != rt.rid
    ensures
      var p := Assigned(rt, dst);
      && Periodic(OnCpu(a + [p] + b, dst))
      && ResponseTime(pf, a + [p] + b, q, dst)
         == ResponseTime(pf, a + [rt] + b, q, dst)
            + (if q.prio <= rt.prio then InterfOf(pf, rt, Micros(pf, q.deadline)) else 0)
            + OverheadTask(pf, p, Micros(pf, q.deadline))
  {
    var p, L := Assigned(rt, dst), Micros(pf, q.deadline);
    var x, y := OnCpu(a, dst), OnCpu(b, dst);
    OnCpuAround(a, rt, b, dst);
    OnCpuAround(a, p, b, dst);
    assert forall t :: t in x || t in y ==> t in x + y;
    InterfSumAround(pf, a, p, b, q, dst, L);
    InterfSumAround(pf, a, rt, b, q, dst, L);
    OverheadAround(pf, x, p, y, L);
  }

  /** Own work, interference and overhead of `q` stay within its deadline. */
  ghost predicate FullyWithin(pf: Platform, list: seq<Task>, q: Task, cpu: nat)
    requires Periodic(OnCpu(list, cpu)) && 0 < q.period
  {
    ResponseTime(pf, list, q, cpu) <= Micros(pf, q.deadline)
  }

  /** The deadline of `q` has room for the newcomer's interference, when it counts, and overhead. */
  ghost predicate RoomFor(pf: Platform, list: seq<Task>, q: Task, rt: Task, cpu: nat)
    requires Periodic(OnCpu(list, cpu)) && 0 < q.period && 0 < rt.period
  {
    ResponseTime(pf, list, q, cpu)
    + (if q.prio <= rt.prio then InterfOf(pf, rt, Micros(pf, q.deadline)) else 0)
    + OverheadTask(pf, Assigned(rt, cpu), Micros(pf, q.deadline)) <= Micros(pf, q.deadline)
  }

  lemma RoomAround(pf: Platform, a: seq<Task>, rt: Task, b: seq<Task>, dst: nat, q: Task)
    requires 0 < rt.period && rt.cpu != dst && Periodic(OnCpu(a + [rt] + b, dst))
    requires 0 < q.period && q.rid != rt.rid
    ensures Periodic(OnCpu(a + [Assigned(rt, dst)] + b, dst))
    ensures FullyWithin(pf, a + [Assigned(rt, dst)] + b, q, dst) <==> RoomFor(pf, a + [rt] + b, q, rt, dst)
  {
    ResponseTimeAfter(pf, a, rt, b, dst, q);
  }

  lemma FullBoundKeptIff(pf: Platform, list: seq<Task>, k: nat, dst: nat, q: Task)
    requires Periodic(OnCpu(list, dst)) && k < |list| && list[k].cpu != dst && 0 < list[k].period
    requires q in OnCpu(list, dst) && q.rid != list[k].rid
    ensures Periodic(OnCpu(list[k := Assigned(list[k], dst)], dst))
    ensures FullyWithin(pf, list[k := Assigned(list[k], dst)], q, dst) <==> RoomFor(pf, list, q, list[k], dst)
  {
    var a, rt, b := list[..k], list[k], list[k + 1..];
    assert list == a + [rt] + b && list[k := Assigned(rt, dst)] == a + [Assigned(rt, dst)] + b;
    RoomAround(pf, a, rt, b, dst, q);
  }

  /** The full bounds of all tasks of the CPU stay within their deadlines just when each has that room;
      the plugin asks for room for the interference only. */
  lemma FullBoundsKeptIff(pf: Platform, list: seq<Task>, k: nat, dst: nat)
    requires FpFf.Shape(pf, list) && dst < pf.cpus && k < |list| && list[k].cpu == pf.cpus && 0 < list[k].period
    ensures
      var now := list[k := Assigned(list[k], dst)];
      && Periodic(OnCpu(list, dst)) && Periodic(OnCpu(now, dst))
      && ((forall q :: q in OnCpu(list, dst) ==> FullyWithin(pf, now, q, dst)) <==>
          (forall q :: q in OnCpu(list, dst) ==> RoomFor(pf, list, q, list[k], dst)))
  {
    assert Periodic(OnCpu(list, dst));
    PlacedPeriodic(list, k, dst, dst);
    forall q | q in OnCpu(list, dst)
      ensures FullyWithin(pf, list[k := Assigned(list[k], dst)], q, dst) <==> RoomFor(pf, list, q, list[k], dst)
    {
      assert q in list;
      FullBoundKeptIff(pf, list, k, dst, q);
    }
  }

  lemma OverheadConcat(pf: Platform, x: seq<Task>, y: seq<Task>, L: nat)
    requires Periodic(x) && Periodic(y)
    ensures Periodic(x + y) && OverheadTasks(pf, x + y, L) == OverheadTasks(pf, x, L) + OverheadTasks(pf, y, L)
  {
    if y == [] {
      assert x + y == x;
    } else {
      assert (x + y)[..|x + y| - 1] == x + y[..|y| - 1];
      OverheadConcat(pf, x, y[..|y| - 1], L);
    }
  }

  lemma OverheadAround(pf: Platform, x: seq<Task>, p: Task, y: seq<Task>, L: nat)
    requires Periodic(x) && Periodic(y) && 0 < p.period
    ensures Periodic(x + [p] + y) && Periodic(x + y)
    ensures OverheadTasks(pf, x + [p] + y, L) == OverheadTasks(pf, x + y, L) + OverheadTask(pf, p, L)
  {
    assert [p][..0] == [];
    OverheadConcat(pf, x, y, L);
    OverheadConcat(pf, x, [p], L);
    OverheadConcat(pf, x + [p], y, L);
  }

  const SAMPLE := Platform(1000, 1, 20, 5, 20, true)

  lemma SampleOverhead(p: Task)
    requires p.period == 10
    ensures OverheadTask(SAMPLE, p, 10000) == if p.migratory then 45 else 25
  {
  }

  lemma SampleResponse(rt: Task, q: Task, x: Task)
    requires rt.cpu == 1 && q.cpu == 0 && q.period == 10 && !q.migratory && x.period == x.deadline == 10
    ensures OnCpu([rt, q], 0) == [q] && Periodic([q])
    ensures
      ResponseTime(SAMPLE, [rt, q], x, 0) ==
      C(SAMPLE, x) + InterfTerm(SAMPLE, q, x, 0, 10000) + 125 + if x.migratory then 45 else 25
  {
    assert [rt, q] == [] + [rt] + [q] && [] + [q] == [q] && [q][..0] == [];
    OnCpuAround([], rt, [q], 0);
    assert OnCpu([q], 0) == [q];
    SampleOverhead(x);
    SampleOverhead(q);
    assert OverheadTasks(SAMPLE, [q], 10000) == 25;
    InterfSumAround(SAMPLE, [], rt, [q], x, 0, 10000);
  }

  const RESIDENT := Task(0, 10, 0, false, 8850, 8850, 10, 10)
  const NEWCOMER := Task(1, 20, 1, true, 1000, 1000, 10, 10)

  lemma SampleBefore()
    ensures OnCpu([NEWCOMER, RESIDENT], 0) == [RESIDENT] && Periodic([RESIDENT])
    ensures ResponseTime(SAMPLE, [NEWCOMER, RESIDENT], RESIDENT, 0) == 9000
    ensures ResponseTime(SAMPLE, [NEWCOMER, RESIDENT], NEWCOMER, 0) == 1170
    ensures InterfOf(SAMPLE, NEWCOMER, 10000) == 1000
  {
    SampleResponse(NEWCOMER, RESIDENT, RESIDENT);
    SampleResponse(NEWCOMER, RESIDENT, NEWCOMER);
  }

  lemma SampleAfter()
    ensures
      var now := [Assigned(NEWCOMER, 0), RESIDENT];
      Periodic(OnCpu(now, 0)) && ResponseTime(SAMPLE, now, RESIDENT, 0) == 10025
  {
    SampleBefore();
    SampleOverhead(Assigned(NEWCOMER, 0));
    var now := [Assigned(NEWCOMER, 0), RESIDENT];
    assert [NEWCOMER, RESIDENT] == [] + [NEWCOMER] + [RESIDENT] && now == [] + [Assigned(NEWCOMER, 0)] + [RESIDENT];
    ResponseTimeAfter(SAMPLE, [], NEWCOMER, [RESIDENT], 0, RESIDENT);
  }

  /** The plugin does not charge a newcomer's overhead to the tasks already there: a task that
      was within its deadline can leave it, overhead included, by an accepted admission. */
  lemma FullBoundIsNotInvariant()
    ensures Micros(SAMPLE, RESIDENT.deadline) == 10000
    ensures
      var was, now := [NEWCOMER, RESIDENT], [Assigned(NEWCOMER, 0), RESIDENT];
      && Periodic(OnCpu(was, 0)) && ResponseTime(SAMPLE, was, RESIDENT, 0) == 9000
      && Admits(SAMPLE, was, NEWCOMER, 0)
      && Periodic(OnCpu(now, 0)) && ResponseTime(SAMPLE, now, RESIDENT, 0) == 10025
  {
    SampleBefore();
    SampleAfter();
  }
}

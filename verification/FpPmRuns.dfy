/** From the demand bounds of FP-PM to the runs of a CPU, residents beside migrating shares. A job that
    migrates reaches a CPU at a fixed offset from its release, when the timers of the CPUs before have run,
    so its shares arrive there at least a period apart. */
module FpPmRuns {
  import opened Resch
  import opened Interference
  import opened SplitCapacity
  import opened SplitShares
  import opened FpPm
  import opened FpPmSplit
  import opened FpPmGuarantee
  import opened FpCounts
  import opened Counting
  import FpFf
  import FpAdmission
  import FpSchedule
  import FpThreads
  import FpLevels
  import FpExact

  /** What a task may execute on the CPU per job: its share, all of it, or nothing. */
  function LoadOn(pf: Platform, tbl: Table, p: Task, cpu: nat): nat {
    if 0 < Piece(tbl, p.rid, cpu) then Piece(tbl, p.rid, cpu)
    else if p.cpu == cpu then Work(p, pf.hardRt)
    else 0
  }

  /** The task executes a share here and migrates. */
  predicate Migrates(tbl: Table, p: Task, cpu: nat) {
    0 < Piece(tbl, p.rid, cpu) && p.rid in tbl && tbl[p.rid].first != tbl[p.rid].last
  }

  /** The task stays on the CPU: it was not split, or the split ended on its first CPU. */
  predicate Stays(tbl: Table, p: Task, cpu: nat) {
    Present(tbl, p, cpu) && !Migrates(tbl, p, cpu)
  }

  /** A task that stays has its own deadline; a share has to be through within `span`. */
  function TimingOf(pf: Platform, tbl: Table, p: Task, cpu: nat, span: nat): FpSchedule.Timing {
    var length := p.period * pf.tick;
    FpSchedule.Timing(
      p.prio, LoadOn(pf, tbl, p, cpu), if 0 < length then length else 1,
      if Migrates(tbl, p, cpu) then span else p.deadline * pf.tick)
  }

  /** So a task that was not split executes up to its worst case on a hard real-time build, or its average on
      the other, in its own period and deadline. */
  lemma WholeTaskTiming(pf: Platform, list: seq<Task>, tbl: Table, cpu: nat, i: nat)
    requires i < |list| && list[i].cpu == cpu && Piece(tbl, list[i].rid, cpu) == 0 && 0 < list[i].period
    ensures 0 < list[i].period * pf.tick
    ensures
      var p := list[i];
      var own := if pf.hardRt then p.wcet else p.runtime;
      AllTimings(pf, list, tbl, cpu)[i] ==
      FpSchedule.Timing(p.prio, own, p.period * pf.tick, p.deadline * pf.tick)
  {
    Positive(list[i].period, pf.tick);
  }

  function Timings(pf: Platform, list: seq<Task>, tbl: Table, cpu: nat, span: nat): (r: seq<FpSchedule.Timing>)
    ensures |r| == |list|
  {
    seq(|list|, i requires 0 <= i < |list| => TimingOf(pf, tbl, list[i], cpu, span))
  }

  /** One job of everything on the CPU at the priority of the tasks that migrate. */
  function Span(pf: Platform, list: seq<Task>, tbl: Table, cpu: nat): nat {
    if list == [] then 0
    else
      var p := list[|list| - 1];
      Span(pf, list[..|list| - 1], tbl, cpu) + if p.prio == PRIO_MIGRATORY then LoadOn(pf, tbl, p, cpu) else 0
  }

  function AllTimings(pf: Platform, list: seq<Task>, tbl: Table, cpu: nat): seq<FpSchedule.Timing> {
    Timings(pf, list, tbl, cpu, Span(pf, list, tbl, cpu))
  }

  // ---------------------------------------------------------------- tasks that stay

  /** Interference of all tasks but `rt` itself. */
  function OthersSum(pf: Platform, list: seq<Task>, tbl: Table, rt: Task, cpu: nat, L: nat): nat
    requires PeriodicOn(list, tbl, cpu)
  {
    if list == [] then 0
    else
      var front, hp := list[..|list| - 1], list[|list| - 1];
      assert list == front + [hp];
      OthersSum(pf, front, tbl, rt, cpu, L) + if hp.rid == rt.rid then 0 else Term(pf, tbl, hp, rt, cpu, L)
  }

  /** What the task executes on the CPU and the interference of the others. */
  function Bound(pf: Platform, list: seq<Task>, tbl: Table, rt: Task, cpu: nat): nat
    requires PeriodicOn(list, tbl, cpu)
  {
    LoadOn(pf, tbl, rt, cpu) + OthersSum(pf, list, tbl, rt, cpu, Micros(pf, rt.deadline))
  }

  lemma {:induction false} NoneOther(pf: Platform, list: seq<Task>, tbl: Table, rt: Task, cpu: nat, L: nat)
    requires PeriodicOn(list, tbl, cpu) && forall q :: q in list ==> q.rid != rt.rid
    ensures OthersSum(pf, list, tbl, rt, cpu, L) == InterfSum(pf, list, tbl, rt, cpu, L)
  {
    if list != [] {
      var front := list[..|list| - 1];
      assert list == front + [list[|list| - 1]];
      NoneOther(pf, front, tbl, rt, cpu, L);
    }
  }

  /** The sum of the plugin counts the share of the task itself as well. */
  lemma {:induction false} OthersAndOwn(pf: Platform, list: seq<Task>, tbl: Table, i: nat, cpu: nat, L: nat)
    requires PeriodicOn(list, tbl, cpu) && FpFf.UniqueIds(list) && i < |list|
    ensures Present(tbl, list[i], cpu) ==> 0 < list[i].period
    ensures InterfSum(pf, list, tbl, list[i], cpu, L) ==
            OthersSum(pf, list, tbl, list[i], cpu, L) + Term(pf, tbl, list[i], list[i], cpu, L)
  {
    var n := |list| - 1;
    PrefixPeriodic(list, n, tbl, cpu);
    assert list == list[..n] + [list[n]];
    if i == n {
      NoneOther(pf, list[..n], tbl, list[i], cpu, L);
    } else {
      OthersAndOwn(pf, list[..n], tbl, i, cpu, L);
    }
  }

  /** What one task adds to the condition of the schedule. */
  ghost function Added(t: FpSchedule.Timing, pi: int, L: nat): nat {
    (if t.prio > pi then FpSchedule.Inter(t, 0, L) else 0) + if t.prio == pi then t.wcet else 0
  }

  /** Seen from a task of the CPU. */
  lemma TermBound(pf: Platform, tbl: Table, p: Task, rt: Task, cpu: nat, span: nat, L: nat)
    requires (Present(tbl, p, cpu) ==> 0 < p.period) && p.rid != rt.rid
    requires p.prio == rt.prio ==> LoadOn(pf, tbl, p, cpu) <= Term(pf, tbl, p, rt, cpu, L)
    ensures Added(TimingOf(pf, tbl, p, cpu, span), rt.prio, L) <= Term(pf, tbl, p, rt, cpu, L)
  {
    var t := TimingOf(pf, tbl, p, cpu, span);
    FpAdmission.InterIsClosedForm(t, 0, L);
    Shape(0, t.period, L);
  }

  /** Every peer of task `i` interferes with it for a whole job. */
  ghost predicate PeersCovered(pf: Platform, list: seq<Task>, tbl: Table, i: nat, cpu: nat, L: nat)
    requires i < |list|
  {
    forall j :: 0 <= j < |list| && j != i && list[j].prio == list[i].prio ==>
                  (Present(tbl, list[j], cpu) ==> 0 < list[j].period) &&
                  LoadOn(pf, tbl, list[j], cpu) <= Term(pf, tbl, list[j], list[i], cpu, L)
  }

  /** Higher interference and one job of each peer, over the first `n` tasks. */
  ghost function Against(us: seq<FpSchedule.Timing>, pi: int, L: nat, n: nat): nat
    requires n <= |us|
  {
    FpSchedule.HigherInter(us, pi, L, n) + FpSchedule.PeerWork(us, pi, n)
  }

  lemma AgainstStep(us: seq<FpSchedule.Timing>, pi: int, L: nat, n: nat)
    requires n < |us|
    ensures Against(us, pi, L, n + 1) == Against(us, pi, L, n) + Added(us[n], pi, L)
  {
  }

  lemma OthersStep(pf: Platform, list: seq<Task>, tbl: Table, rt: Task, cpu: nat, L: nat, n: nat)
    requires PeriodicOn(list, tbl, cpu) && n < |list|
    ensures PeriodicOn(list[..n], tbl, cpu) && PeriodicOn(list[..n + 1], tbl, cpu)
    ensures Present(tbl, list[n], cpu) ==> 0 < list[n].period
    ensures OthersSum(pf, list[..n + 1], tbl, rt, cpu, L) ==
            OthersSum(pf, list[..n], tbl, rt, cpu, L) +
            if list[n].rid == rt.rid then 0 else Term(pf, tbl, list[n], rt, cpu, L)
  {
    PrefixPeriodic(list, n, tbl, cpu);
    PrefixPeriodic(list, n + 1, tbl, cpu);
    assert list[..n + 1][..n] == list[..n];
  }

  /** They stay within the sum of the plugin. */
  lemma {:induction false} AgainstWithinSum(
    pf: Platform, list: seq<Task>, tbl: Table, i: nat, cpu: nat, span: nat, L: nat, n: nat)
    requires PeriodicOn(list, tbl, cpu) && FpFf.UniqueIds(list) && i < |list| && n <= |list|
    requires PeersCovered(pf, list, tbl, i, cpu, L)
    ensures PeriodicOn(list[..n], tbl, cpu)
    ensures Against(Timings(pf, list, tbl, cpu, span), list[i].prio, L, n) <=
            OthersSum(pf, list[..n], tbl, list[i], cpu, L) + if i < n then LoadOn(pf, tbl, list[i], cpu) else 0
  {
    PrefixPeriodic(list, n, tbl, cpu);
    if n > 0 {
      AgainstWithinSum(pf, list, tbl, i, cpu, span, L, n - 1);
      AgainstStep(Timings(pf, list, tbl, cpu, span), list[i].prio, L, n - 1);
      OthersStep(pf, list, tbl, list[i], cpu, L, n - 1);
      if i != n - 1 {
        assert list[n - 1].rid != list[i].rid;
        TermBound(pf, tbl, list[n - 1], list[i], cpu, span, L);
      }
    }
  }

  /** One term of the sum. */
  lemma {:induction false} TermWithinSum(pf: Platform, list: seq<Task>, tbl: Table, k: nat, rt: Task, cpu: nat, L: nat)
    requires PeriodicOn(list, tbl, cpu) && k < |list| && list[k].rid != rt.rid
    ensures Present(tbl, list[k], cpu) ==> 0 < list[k].period
    ensures Term(pf, tbl, list[k], rt, cpu, L) <= OthersSum(pf, list, tbl, rt, cpu, L)
  {
    var n := |list| - 1;
    PrefixPeriodic(list, n, tbl, cpu);
    assert list == list[..n] + [list[n]];
    if k < n {
      TermWithinSum(pf, list[..n], tbl, k, rt, cpu, L);
    }
  }

  /** Where the sum stays below the interval, a peer's interference covers a whole job. */
  lemma PeerCovered(pf: Platform, list: seq<Task>, tbl: Table, j: nat, i: nat, cpu: nat, L: nat)
    requires PeriodicOn(list, tbl, cpu) && FpFf.UniqueIds(list) && i < |list| && j < |list| && i != j
    requires list[j].prio == list[i].prio && OthersSum(pf, list, tbl, list[i], cpu, L) < L
    ensures Present(tbl, list[j], cpu) ==> 0 < list[j].period
    ensures LoadOn(pf, tbl, list[j], cpu) <= Term(pf, tbl, list[j], list[i], cpu, L)
  {
    var p, c := list[j], LoadOn(pf, tbl, list[j], cpu);
    assert p.rid != list[i].rid;
    TermWithinSum(pf, list, tbl, j, list[i], cpu, L);
    if c > 0 {
      FpAdmission.CoversFirstJob(c, Micros(pf, p.period), L);
    }
  }

  lemma StayingFits(pf: Platform, list: seq<Task>, tbl: Table, cpu: nat, span: nat, i: nat)
    requires PeriodicOn(list, tbl, cpu) && FpFf.UniqueIds(list) && i < |list| && Stays(tbl, list[i], cpu)
    requires 0 < LoadOn(pf, tbl, list[i], cpu) && Bound(pf, list, tbl, list[i], cpu) <= Micros(pf, list[i].deadline)
    ensures FpSchedule.Fits(Timings(pf, list, tbl, cpu, span), i)
  {
    var L := Micros(pf, list[i].deadline);
    forall j | 0 <= j < |list| && j != i && list[j].prio == list[i].prio
      ensures (Present(tbl, list[j], cpu) ==> 0 < list[j].period) &&
              LoadOn(pf, tbl, list[j], cpu) <= Term(pf, tbl, list[j], list[i], cpu, L)
    {
      PeerCovered(pf, list, tbl, j, i, cpu, L);
    }
    AgainstWithinSum(pf, list, tbl, i, cpu, span, L, |list|);
    assert list[..|list|] == list;
  }

  // ---------------------------------------------------------------- shares

  lemma {:induction false} SpanIsPeerWork(pf: Platform, list: seq<Task>, tbl: Table, cpu: nat, span: nat, n: nat)
    requires n <= |list|
    ensures FpSchedule.PeerWork(Timings(pf, list, tbl, cpu, span), PRIO_MIGRATORY, n) == Span(pf, list[..n], tbl, cpu)
  {
    if n > 0 {
      SpanIsPeerWork(pf, list, tbl, cpu, span, n - 1);
      assert list[..n][..n - 1] == list[..n - 1];
    }
  }

  lemma {:induction false} NothingHigher(us: seq<FpSchedule.Timing>, pi: int, L: nat, n: nat)
    requires n <= |us| && forall i :: 0 <= i < n && pi < us[i].prio ==> us[i].wcet == 0
    ensures FpSchedule.HigherInter(us, pi, L, n) == 0
  {
    if n > 0 {
      NothingHigher(us, pi, L, n - 1);
      if us[n - 1].wcet == 0 {
        FpAdmission.InterIsClosedForm(us[n - 1], 0, L);
        Shape(0, us[n - 1].period, L);
      }
    }
  }

  /** Tasks that migrate have been raised, and nobody stands above them. */
  ghost predicate SharesOnTop(list: seq<Task>, tbl: Table, cpu: nat) {
    forall p :: p in list ==>
                  && (Present(tbl, p, cpu) ==> p.prio <= PRIO_MIGRATORY)
                  && (Migrates(tbl, p, cpu) ==> p.prio == PRIO_MIGRATORY)
  }

  lemma ShareFits(pf: Platform, list: seq<Task>, tbl: Table, cpu: nat, i: nat)
    requires i < |list| && Migrates(tbl, list[i], cpu) && SharesOnTop(list, tbl, cpu)
    ensures FpSchedule.Fits(AllTimings(pf, list, tbl, cpu), i)
  {
    var span := Span(pf, list, tbl, cpu);
    var us := Timings(pf, list, tbl, cpu, span);
    forall j | 0 <= j < |us| && PRIO_MIGRATORY < us[j].prio ensures us[j].wcet == 0 {
      assert list[j] in list;
    }
    assert list[i] in list;
    NothingHigher(us, PRIO_MIGRATORY, span, |us|);
    SpanIsPeerWork(pf, list, tbl, cpu, span, |list|);
    assert list[..|list|] == list;
  }

  // ---------------------------------------------------------------- the runs

  /** Every task that stays on the CPU has own work and interference within its deadline. */
  ghost predicate AllWithin(pf: Platform, list: seq<Task>, tbl: Table, cpu: nat)
    requires PeriodicOn(list, tbl, cpu)
  {
    forall lp :: lp in list && Stays(tbl, lp, cpu) ==> Bound(pf, list, tbl, lp, cpu) <= Micros(pf, lp.deadline)
  }

  /** Everything on the CPU has to be done within its period. */
  ghost predicate WithinPeriods(pf: Platform, list: seq<Task>, tbl: Table, cpu: nat) {
    forall p :: p in list ==>
                  && (Stays(tbl, p, cpu) ==> p.deadline <= p.period)
                  && (Migrates(tbl, p, cpu) ==> Span(pf, list, tbl, cpu) <= Micros(pf, p.period))
  }

  lemma AllTimingsFit(pf: Platform, list: seq<Task>, tbl: Table, cpu: nat)
    requires PeriodicOn(list, tbl, cpu) && FpFf.UniqueIds(list)
    requires AllWithin(pf, list, tbl, cpu) && SharesOnTop(list, tbl, cpu)
    ensures FpSchedule.AllFit(AllTimings(pf, list, tbl, cpu))
  {
    var us := AllTimings(pf, list, tbl, cpu);
    forall i | 0 <= i < |us| && 0 < us[i].wcet ensures FpSchedule.Fits(us, i) {
      assert list[i] in list;
      if Migrates(tbl, list[i], cpu) {
        ShareFits(pf, list, tbl, cpu, i);
      } else {
        StayingFits(pf, list, tbl, cpu, Span(pf, list, tbl, cpu), i);
      }
    }
  }

  lemma ShorterMicros(pf: Platform, a: nat, b: nat)
    requires a <= b
    ensures Micros(pf, a) <= Micros(pf, b)
  {
  }

  /** Then in every run of the CPU, with sporadic arrivals of jobs and shares, every job of a task that stays
      finishes by its deadline, and every share within one job of everything at its priority. */
  lemma ResidentsMeetDeadlines(pf: Platform, list: seq<Task>, tbl: Table, cpu: nat)
    requires PeriodicOn(list, tbl, cpu) && FpFf.UniqueIds(list)
    requires AllWithin(pf, list, tbl, cpu) && SharesOnTop(list, tbl, cpu) && WithinPeriods(pf, list, tbl, cpu)
    ensures FpThreads.AlwaysMeetsDeadlines(AllTimings(pf, list, tbl, cpu))
  {
    AllTimingsFit(pf, list, tbl, cpu);
    var us := AllTimings(pf, list, tbl, cpu);
    forall i | 0 <= i < |us| && 0 < us[i].wcet ensures us[i].deadline <= us[i].period {
      assert list[i] in list;
      if Stays(tbl, list[i], cpu) {
        ShorterMicros(pf, list[i].deadline, list[i].period);
      }
    }
    FpThreads.FpMeetsDeadlines(us);
  }

  /** Without that: where no two priorities are the same, just when whatever has longer than its period has
      room for any number of overlapping jobs. */
  lemma ResidentsMeetDeadlinesIff(pf: Platform, list: seq<Task>, tbl: Table, cpu: nat)
    requires PeriodicOn(list, tbl, cpu) && FpFf.UniqueIds(list)
    requires AllWithin(pf, list, tbl, cpu) && SharesOnTop(list, tbl, cpu)
    requires FpLevels.Distinct(AllTimings(pf, list, tbl, cpu))
    ensures
      var us := AllTimings(pf, list, tbl, cpu);
      FpThreads.AlwaysMeetsDeadlines(us) <==>
      forall i :: 0 <= i < |us| && 0 < us[i].wcet && us[i].period < us[i].deadline ==> FpLevels.Level(us, i, false)
  {
    AllTimingsFit(pf, list, tbl, cpu);
    FpExact.FittingMeetDeadlinesIff(AllTimings(pf, list, tbl, cpu));
  }

  // ---------------------------------------------------------------- after a split

  /** Every task that stays on the CPU bears the share, counted against what it had to bear before. */
  ghost predicate AllBear(pf: Platform, list: seq<Task>, tbl: Table, rt: Task, p: Pieces, cpu: nat)
    requires PeriodicOn(list, tbl, cpu) && cpu < |p.runtime| && 0 < rt.period
  {
    forall lp :: lp in list && Stays(tbl, lp, cpu) ==>
                   BearsShare(p.runtime[cpu], Bound(pf, list, tbl, lp, cpu), Micros(pf, lp.deadline),
                              Micros(pf, rt.period), lp.prio <= NewPrio(rt, p))
  }

  /** A task that ended up on a single CPU has a deadline to keep there as well. */
  ghost predicate NewcomerWithin(pf: Platform, list: seq<Task>, tbl: Table, rt: Task, p: Pieces, cpu: nat)
    requires PeriodicOn(list, tbl, cpu) && cpu < |p.runtime|
  {
    p.first == p.last == cpu ==>
      p.runtime[cpu] + InterfSum(pf, list, tbl, rt, cpu, Micros(pf, rt.deadline)) <= Micros(pf, rt.deadline)
  }

  /** A task is not on the CPU before the split, and after it just with its share. */
  ghost predicate Newcomer(tbl: Table, rt: Task, p: Pieces, cpu: nat) {
    !Present(tbl, rt, cpu) && 0 < rt.period && cpu < |p.runtime| && (p.first == cpu ==> 0 < p.runtime[cpu])
  }

  lemma BoundAfterSplit(
    pf: Platform, a: seq<Task>, rt: Task, b: seq<Task>, a': seq<Task>, b': seq<Task>,
    tbl: Table, p: Pieces, lp: Task, cpu: nat)
    requires a + b == a' + b' && FpFf.UniqueIds(a + b) && lp in a + b && forall q :: q in a + b ==> q.rid != rt.rid
    requires PeriodicOn(a + [rt] + b, tbl, cpu) && Newcomer(tbl, rt, p, cpu)
    ensures
      var now := a' + [Raised(rt, p)] + b';
      && PeriodicOn(now, tbl[rt.rid := p], cpu)
      && Bound(pf, now, tbl[rt.rid := p], lp, cpu) ==
         Bound(pf, a + [rt] + b, tbl, lp, cpu) +
         if lp.prio <= NewPrio(rt, p) then Interf(p.runtime[cpu], Micros(pf, rt.period), Micros(pf, lp.deadline))
         else 0
  {
    var L, tbl' := Micros(pf, lp.deadline), tbl[rt.rid := p];
    var was, now := a + [rt] + b, a' + [Raised(rt, p)] + b';
    SumAfterSplit(pf, a, rt, b, a', b', tbl, p, lp, cpu, L);
    FpFf.UniqueAround(a, rt, b);
    FpFf.UniqueAround(a', Raised(rt, p), b');
    assert lp in was && lp in now by {
      assert lp in a || lp in b;
      assert lp in a' + b' && (lp in a' || lp in b');
    }
    var i :| 0 <= i < |was| && was[i] == lp;
    var j :| 0 <= j < |now| && now[j] == lp;
    OthersAndOwn(pf, was, tbl, i, cpu, L);
    OthersAndOwn(pf, now, tbl', j, cpu, L);
  }

  /** What the split task has to bear on its only CPU. */
  lemma NewcomerAfterSplit(
    pf: Platform, a: seq<Task>, rt: Task, b: seq<Task>, a': seq<Task>, b': seq<Task>,
    tbl: Table, p: Pieces, cpu: nat)
    requires a + b == a' + b' && FpFf.UniqueIds(a + b) && forall q :: q in a + b ==> q.rid != rt.rid
    requires PeriodicOn(a + [rt] + b, tbl, cpu) && Newcomer(tbl, rt, p, cpu) && p.first == p.last == cpu
    ensures
      var now := a' + [Raised(rt, p)] + b';
      && PeriodicOn(now, tbl[rt.rid := p], cpu)
      && Bound(pf, now, tbl[rt.rid := p], Raised(rt, p), cpu) ==
         p.runtime[cpu] + InterfSum(pf, a + [rt] + b, tbl, rt, cpu, Micros(pf, rt.deadline))
  {
    var L, rt' := Micros(pf, rt.deadline), Raised(rt, p);
    var was, now := a + [rt] + b, a' + [rt'] + b';
    SumAfterSplit(pf, a, rt, b, a', b', tbl, p, rt', cpu, L);
    FpFf.UniqueAround(a', rt', b');
    assert now[|a'|] == rt';
    OthersAndOwn(pf, now, tbl[rt.rid := p], |a'|, cpu, L);
    SameSum(pf, was, tbl, rt, rt', cpu, L);
  }

  /** The sum looks at the id and priority of the analysed task only. */
  lemma {:induction false} SameSum(pf: Platform, list: seq<Task>, tbl: Table, p: Task, q: Task, cpu: nat, L: nat)
    requires PeriodicOn(list, tbl, cpu) && p.rid == q.rid && p.prio == q.prio
    ensures InterfSum(pf, list, tbl, p, cpu, L) == InterfSum(pf, list, tbl, q, cpu, L)
  {
    if list != [] {
      var front := list[..|list| - 1];
      assert list == front + [list[|list| - 1]];
      SameSum(pf, front, tbl, p, q, cpu, L);
    }
  }

  lemma KeepsWithinIff(
    pf: Platform, a: seq<Task>, rt: Task, b: seq<Task>, a': seq<Task>, b': seq<Task>,
    tbl: Table, p: Pieces, lp: Task, cpu: nat)
    requires a + b == a' + b' && FpFf.UniqueIds(a + b) && lp in a + b && forall q :: q in a + b ==> q.rid != rt.rid
    requires PeriodicOn(a + [rt] + b, tbl, cpu) && Newcomer(tbl, rt, p, cpu)
    ensures PeriodicOn(a' + [Raised(rt, p)] + b', tbl[rt.rid := p], cpu)
    ensures
      Bound(pf, a' + [Raised(rt, p)] + b', tbl[rt.rid := p], lp, cpu) <= Micros(pf, lp.deadline) <==>
      BearsShare(p.runtime[cpu], Bound(pf, a + [rt] + b, tbl, lp, cpu), Micros(pf, lp.deadline),
                 Micros(pf, rt.period), lp.prio <= NewPrio(rt, p))
  {
    BoundAfterSplit(pf, a, rt, b, a', b', tbl, p, lp, cpu);
    FitsIff(p.runtime[cpu], Bound(pf, a + [rt] + b, tbl, lp, cpu), Micros(pf, lp.deadline), Micros(pf, rt.period));
  }

  /** The tasks of the list that stay on the CPU are within their deadlines, among those of a longer list. */
  ghost predicate SomeWithin(pf: Platform, some: seq<Task>, list: seq<Task>, tbl: Table, cpu: nat)
    requires PeriodicOn(list, tbl, cpu)
  {
    forall lp :: lp in some && Stays(tbl, lp, cpu) ==> Bound(pf, list, tbl, lp, cpu) <= Micros(pf, lp.deadline)
  }

  lemma ResidentsWithinIff(
    pf: Platform, a: seq<Task>, rt: Task, b: seq<Task>, a': seq<Task>, b': seq<Task>,
    tbl: Table, p: Pieces, cpu: nat)
    requires a + b == a' + b' && FpFf.UniqueIds(a + b) && forall q :: q in a + b ==> q.rid != rt.rid
    requires PeriodicOn(a + [rt] + b, tbl, cpu) && Newcomer(tbl, rt, p, cpu)
    ensures PeriodicOn(a' + [Raised(rt, p)] + b', tbl[rt.rid := p], cpu)
    ensures SomeWithin(pf, a + b, a' + [Raised(rt, p)] + b', tbl[rt.rid := p], cpu) <==>
            AllBear(pf, a + [rt] + b, tbl, rt, p, cpu)
  {
    SumAfterSplit(pf, a, rt, b, a', b', tbl, p, rt, cpu, 0);
    assert forall q :: q in a + [rt] + b <==> q == rt || q in a + b;
    assert !Stays(tbl, rt, cpu);
    forall lp | lp in a + b
      ensures Stays(tbl[rt.rid := p], lp, cpu) <==> Stays(tbl, lp, cpu)
      ensures Bound(pf, a' + [Raised(rt, p)] + b', tbl[rt.rid := p], lp, cpu) <= Micros(pf, lp.deadline) <==>
              BearsShare(p.runtime[cpu], Bound(pf, a + [rt] + b, tbl, lp, cpu), Micros(pf, lp.deadline),
                         Micros(pf, rt.period), lp.prio <= NewPrio(rt, p))
    {
      KeepsWithinIff(pf, a, rt, b, a', b', tbl, p, lp, cpu);
    }
  }

  /** After a split all tasks that stay on the CPU are within their deadlines just when they bear the share,
      and the new one is within its own if it stays. */
  lemma SplitKeepsAllWithinIff(
    pf: Platform, a: seq<Task>, rt: Task, b: seq<Task>, a': seq<Task>, b': seq<Task>,
    tbl: Table, p: Pieces, cpu: nat)
    requires a + b == a' + b' && FpFf.UniqueIds(a + b) && forall q :: q in a + b ==> q.rid != rt.rid
    requires PeriodicOn(a + [rt] + b, tbl, cpu) && Newcomer(tbl, rt, p, cpu)
    requires p.first == p.last && 0 < p.runtime[cpu] ==> p.first == cpu
    ensures
      var was, now := a + [rt] + b, a' + [Raised(rt, p)] + b';
      && PeriodicOn(now, tbl[rt.rid := p], cpu)
      && (AllWithin(pf, now, tbl[rt.rid := p], cpu) <==>
          AllBear(pf, was, tbl, rt, p, cpu) && NewcomerWithin(pf, was, tbl, rt, p, cpu))
  {
    var rt', tbl' := Raised(rt, p), tbl[rt.rid := p];
    var now := a' + [rt'] + b';
    ResidentsWithinIff(pf, a, rt, b, a', b', tbl, p, cpu);
    assert forall q :: q in now <==> q == rt' || q in a + b;
    assert Stays(tbl', rt', cpu) <==> p.first == p.last == cpu;
    if p.first == p.last == cpu {
      NewcomerAfterSplit(pf, a, rt, b, a', b', tbl, p, cpu);
    }
  }

  /** The task list after the split; where no two tasks share an id. */
  ghost predicate Moved(a: seq<Task>, rt: Task, b: seq<Task>, a': seq<Task>, b': seq<Task>) {
    a + b == a' + b' && FpFf.UniqueIds(a + b) && forall q :: q in a + b ==> q.rid != rt.rid
  }

  /** What a split that succeeds at CPU `k` leaves behind. */
  ghost predicate SplitOn(
    pf: Platform, list: seq<Task>, tbl: Table, rt: Task, avail: seq<bool>, k: nat, p: Pieces)
  {
    && Periods(list, tbl, |avail|) && 0 < rt.period && Small(pf, list, Micros(pf, rt.period))
    && 0 < FpFf.C(pf, rt) < WORD && k < |avail|
    && var caps := Caps(pf, list, tbl, Micros(pf, rt.period), avail);
    StopsAt(caps, avail, FpFf.C(pf, rt), k) && SplitInto(caps, FpFf.C(pf, rt), k, p)
  }

  /** The share of a CPU is at most what it can spare, and the first CPU has one. */
  lemma ShareSpared(
    pf: Platform, list: seq<Task>, tbl: Table, rt: Task, avail: seq<bool>, k: nat, p: Pieces, cpu: nat)
    requires SplitOn(pf, list, tbl, rt, avail, k, p) && cpu < |avail|
    ensures |p.runtime| == |avail| && (p.first == cpu ==> 0 < p.runtime[cpu])
    ensures p.runtime[cpu] <= Spare(pf, list, tbl, Micros(pf, rt.period), cpu) || p.runtime[cpu] == 0
    ensures p.first == p.last && 0 < p.runtime[cpu] ==> p.first == cpu
  {
    CapsOffered(pf, list, tbl, Micros(pf, rt.period), avail);
    CapsAt(pf, list, tbl, Micros(pf, rt.period), avail, cpu);
    SplitConserves(Caps(pf, list, tbl, Micros(pf, rt.period), avail), avail, FpFf.C(pf, rt), k, p);
  }

  /** A task of the CPU that was within its deadline and tolerates the share by the plugin's test bears it. */
  lemma ToleratesBears(pf: Platform, list: seq<Task>, tbl: Table, i: nat, rt: Task, p: Pieces, cpu: nat)
    requires PeriodicOn(list, tbl, cpu) && FpFf.UniqueIds(list) && i < |list| && Stays(tbl, list[i], cpu)
    requires cpu < |p.runtime| && 0 < rt.period && 0 < list[i].period
    requires Bound(pf, list, tbl, list[i], cpu) <= Micros(pf, list[i].deadline)
    requires p.runtime[cpu] == 0 || Tolerates(pf, list, tbl, list[i], p.runtime[cpu], Micros(pf, rt.period), cpu)
    ensures BearsShare(p.runtime[cpu], Bound(pf, list, tbl, list[i], cpu), Micros(pf, list[i].deadline),
                       Micros(pf, rt.period), list[i].prio <= NewPrio(rt, p))
  {
    var lp, D, P := list[i], Micros(pf, list[i].deadline), Micros(pf, rt.period);
    FitsIff(p.runtime[cpu], Bound(pf, list, tbl, lp, cpu), D, P);
    OthersAndOwn(pf, list, tbl, i, cpu, D);
    Shape(0, P, D);
    var c := LoadOn(pf, tbl, lp, cpu);
    if 0 < Piece(tbl, lp.rid, cpu) {
      FpAdmission.CoversFirstJob(c, Micros(pf, lp.period), D);
    }
  }

  /** What a sound CPU is given, all its tasks bear. */
  lemma SoundSplitBorne(
    pf: Platform, list: seq<Task>, tbl: Table, rt: Task, avail: seq<bool>, k: nat, p: Pieces, cpu: nat)
    requires SplitOn(pf, list, tbl, rt, avail, k, p) && cpu < |avail| && FpFf.UniqueIds(list)
    requires AllWithin(pf, list, tbl, cpu) && Sound(pf, list, tbl, Micros(pf, rt.period), cpu)
    ensures |p.runtime| == |avail| && AllBear(pf, list, tbl, rt, p, cpu)
  {
    ShareSpared(pf, list, tbl, rt, avail, k, p, cpu);
    if 0 < p.runtime[cpu] {
      SoundShareTolerated(pf, list, tbl, Micros(pf, rt.period), cpu, p.runtime[cpu]);
    }
    forall lp | lp in list && Stays(tbl, lp, cpu)
      ensures BearsShare(p.runtime[cpu], Bound(pf, list, tbl, lp, cpu), Micros(pf, lp.deadline),
                         Micros(pf, rt.period), lp.prio <= NewPrio(rt, p))
    {
      var i :| 0 <= i < |list| && list[i] == lp;
      ToleratesBears(pf, list, tbl, i, rt, p, cpu);
    }
  }

  /** So a split keeps every CPU with sound rooms, whose tasks were within their deadlines before it, as it
      was, up to the new task where it ends up on that CPU alone. */
  lemma SoundSplitKeepsAllWithinIff(
    pf: Platform, a: seq<Task>, rt: Task, b: seq<Task>, a': seq<Task>, b': seq<Task>,
    tbl: Table, avail: seq<bool>, k: nat, p: Pieces, cpu: nat)
    requires Moved(a, rt, b, a', b') && cpu < |avail| && !Present(tbl, rt, cpu)
    requires SplitOn(pf, a + [rt] + b, tbl, rt, avail, k, p)
    requires AllWithin(pf, a + [rt] + b, tbl, cpu) && Sound(pf, a + [rt] + b, tbl, Micros(pf, rt.period), cpu)
    ensures |p.runtime| == |avail|
    ensures
      var was, now := a + [rt] + b, a' + [Raised(rt, p)] + b';
      && PeriodicOn(now, tbl[rt.rid := p], cpu)
      && (AllWithin(pf, now, tbl[rt.rid := p], cpu) <==> NewcomerWithin(pf, was, tbl, rt, p, cpu))
  {
    FpFf.UniqueAround(a, rt, b);
    ShareSpared(pf, a + [rt] + b, tbl, rt, avail, k, p, cpu);
    SoundSplitBorne(pf, a + [rt] + b, tbl, rt, avail, k, p, cpu);
    SplitKeepsAllWithinIff(pf, a, rt, b, a', b', tbl, p, cpu);
  }

  /** From the split itself to the runs: then every run of the CPU after it meets every deadline. */
  lemma SplitMeetsDeadlines(
    pf: Platform, a: seq<Task>, rt: Task, b: seq<Task>, a': seq<Task>, b': seq<Task>,
    tbl: Table, avail: seq<bool>, k: nat, p: Pieces, cpu: nat)
    requires Moved(a, rt, b, a', b') && cpu < |avail| && !Present(tbl, rt, cpu)
    requires SplitOn(pf, a + [rt] + b, tbl, rt, avail, k, p)
    requires AllWithin(pf, a + [rt] + b, tbl, cpu) && Sound(pf, a + [rt] + b, tbl, Micros(pf, rt.period), cpu)
    requires cpu < |p.runtime| && NewcomerWithin(pf, a + [rt] + b, tbl, rt, p, cpu)
    requires SharesOnTop(a + [rt] + b, tbl, cpu) && rt.prio <= PRIO_MIGRATORY
    requires WithinPeriods(pf, a' + [Raised(rt, p)] + b', tbl[rt.rid := p], cpu)
    ensures FpThreads.AlwaysMeetsDeadlines(AllTimings(pf, a' + [Raised(rt, p)] + b', tbl[rt.rid := p], cpu))
  {
    var rt', tbl' := Raised(rt, p), tbl[rt.rid := p];
    var now := a' + [rt'] + b';
    SoundSplitKeepsAllWithinIff(pf, a, rt, b, a', b', tbl, avail, k, p, cpu);
    FpFf.UniqueAround(a', rt', b');
    forall q | q in now
      ensures Present(tbl', q, cpu) ==> q.prio <= PRIO_MIGRATORY
      ensures Migrates(tbl', q, cpu) ==> q.prio == PRIO_MIGRATORY
    {
      assert q == rt' || q in a + b;
      assert q != rt' ==> q in a + [rt] + b;
    }
    ResidentsMeetDeadlines(pf, now, tbl', cpu);
  }
}

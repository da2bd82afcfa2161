/** When fixed-priority threads meet their deadlines in every run: the windows of `FpLevels` are enough, and
    where no two priorities are the same they are also necessary. */
module FpExact {
  import opened FpThreads
  import opened FpJobs
  import opened FpLevels
  import FpSchedule

  // ---------------------------------------------------------------- enough

  ghost predicate Safe(ts: seq<Timing>, s: State) {
    Ordered(ts, s) && Kept(ts, ViewOf(s))
  }

  lemma {:induction false} RunSafe(ts: seq<Timing>, s: State, es: seq<Event>)
    requires Safe(ts, s) && LegalRun(ts, s, es)
    ensures Safe(ts, Run(ts, s, es))
    decreases |es|
  {
    if es != [] {
      var e, s' := es[0], Step(ts, s, es[0]);
      if e.Release? {
        ReleaseRefines(ts, s, e.task, e.cost);
        ReleaseKeeps(ts, ViewOf(s), ViewOf(s'), e.task, e.cost);
      } else {
        TickRefines(ts, s, e.stays);
        TickKeeps(ts, ViewOf(s), ViewOf(s'));
      }
      RunSafe(ts, s', es[1..]);
    }
  }

  lemma StartFresh(ts: seq<Timing>)
    ensures Ordered(ts, Start(ts)) && Fresh(ts, ViewOf(Start(ts)))
  {
    ViewIsFair(ts, Start(ts));
  }

  /** Where every task has its windows, equals counted, no run misses a deadline. */
  lemma LevelsSuffice(ts: seq<Timing>)
    requires AllLevels(ts, true)
    ensures AlwaysMeetsDeadlines(ts)
  {
    StartFresh(ts);
    FreshKept(ts, ViewOf(Start(ts)));
    forall es | LegalRun(ts, Start(ts), es) ensures MeetsDeadlines(ts, Run(ts, Start(ts), es)) {
      RunSafe(ts, Start(ts), es);
      KeptInTime(ts, ViewOf(Run(ts, Start(ts), es)));
      MeetsByTask(ts, Run(ts, Start(ts), es));
    }
  }

  // ---------------------------------------------------------------- necessary

  /** Releasing everything as early and as long as allowed, and ticking when nobody is ready, keeps task `i`
      behind until its last job misses. */
  lemma {:induction false} GreedyRun(ts: seq<Timing>, s: State, i: nat, left: nat, d: nat, r: nat)
    returns (es: seq<Event>)
    requires Ordered(ts, s) && i < |ts| && 0 < ts[i].wcet && d == r + ts[i].deadline
    requires Behind(ts, ViewOf(s), i, left, d) && OnSchedule(ts, ViewOf(s), i, left, r)
    ensures LegalRun(ts, s, es) && !MeetsDeadlines(ts, Run(ts, s, es))
    decreases d - s.cpu.now, Ready(ts, ViewOf(s), i, left)
  {
    var ready := Ready(ts, ViewOf(s), i, left);
    if j :| j in ready {
      var s' := Step(ts, s, Release(j, ts[j].wcet));
      ReleaseRefines(ts, s, j, ts[j].wcet);
      ScheduleKept(ts, ViewOf(s), ViewOf(s'), i, left, r, j);
      ReadyShrinks(ts, ViewOf(s), ViewOf(s'), i, left, j);
      BehindKept(ts, ViewOf(s), ViewOf(s'), i, left, d, j);
      var rest := GreedyRun(ts, s', i, LeftAfter(i, left, j), d, r);
      es := [Release(j, ts[j].wcet)] + rest;
      assert es[1..] == rest;
    } else if s.cpu.now < d {
      TickRefines(ts, s, true);
      BehindTick(ts, ViewOf(s), ViewOf(Step(ts, s, Tick(true))), i, left, d, r);
      var rest := GreedyRun(ts, Step(ts, s, Tick(true)), i, left, d, r);
      es := [Tick(true)] + rest;
      assert es[1..] == rest;
    } else {
      es := [];
      MissesAt(ts, ViewOf(s), i, left, d, r);
      MeetsByTask(ts, s);
    }
  }

  /** Where a window is missing, counting higher priorities only, starting everything at once misses. */
  lemma MissingWindow(ts: seq<Timing>, i: nat, q: nat)
    requires i < |ts| && 0 < ts[i].wcet && !HasWindow(ts, i, false, q)
    ensures !AlwaysMeetsDeadlines(ts)
  {
    RunBehind(ts, i, q, q * ts[i].period);
  }

  lemma RunBehind(ts: seq<Timing>, i: nat, q: nat, r: nat)
    requires i < |ts| && 0 < ts[i].wcet && !HasWindow(ts, i, false, q) && r == q * ts[i].period
    ensures !AlwaysMeetsDeadlines(ts)
  {
    StartFresh(ts);
    FreshBehind(ts, ViewOf(Start(ts)), i, q, r);
    BehindMisses(ts, i, q + 1, r + ts[i].deadline, r);
  }

  lemma BehindMisses(ts: seq<Timing>, i: nat, left: nat, d: nat, r: nat)
    requires Ordered(ts, Start(ts)) && i < |ts| && 0 < ts[i].wcet && d == r + ts[i].deadline
    requires Behind(ts, ViewOf(Start(ts)), i, left, d) && OnSchedule(ts, ViewOf(Start(ts)), i, left, r)
    ensures !AlwaysMeetsDeadlines(ts)
  {
    var es := GreedyRun(ts, Start(ts), i, left, d, r);
  }

  // ---------------------------------------------------------------- the exact condition

  /** Tasks of different priorities meet their deadlines in every run exactly when each has its windows. */
  lemma FpMeetsDeadlinesIff(ts: seq<Timing>)
    requires Distinct(ts)
    ensures AlwaysMeetsDeadlines(ts) <==> AllLevels(ts, false)
  {
    forall i | 0 <= i < |ts| && 0 < ts[i].wcet ensures Level(ts, i, true) <==> Level(ts, i, false) {
      LevelTies(ts, i);
    }
    if AllLevels(ts, false) {
      LevelsSuffice(ts);
    }
    LevelsNecessary(ts);
  }

  /** With equals the windows that count higher priorities only are still necessary. */
  lemma LevelsNecessary(ts: seq<Timing>)
    ensures AlwaysMeetsDeadlines(ts) ==> AllLevels(ts, false)
  {
    if AlwaysMeetsDeadlines(ts) {
      forall i, q: nat | 0 <= i < |ts| && 0 < ts[i].wcet ensures HasWindow(ts, i, false, q) {
        if !HasWindow(ts, i, false, q) {
          MissingWindow(ts, i, q);
        }
      }
    }
  }

  /** So tasks of different priorities that pass it meet their deadlines in every run exactly when those
      whose deadline exceeds the period have the other windows too. */
  lemma FittingMeetDeadlinesIff(ts: seq<Timing>)
    requires Distinct(ts) && FpSchedule.AllFit(ts)
    ensures
      AlwaysMeetsDeadlines(ts) <==>
      forall i :: 0 <= i < |ts| && 0 < ts[i].wcet && ts[i].period < ts[i].deadline ==> Level(ts, i, false)
  {
    FpMeetsDeadlinesIff(ts);
    forall i | 0 <= i < |ts| && 0 < ts[i].wcet && ts[i].deadline <= ts[i].period ensures Level(ts, i, false) {
      FitsHasWindow(ts, i);
      FirstWindowDecides(ts, i, false);
    }
  }
}

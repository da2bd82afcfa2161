/** When fixed-priority threads meet their deadlines, whatever the deadlines: looking at each task beside
    those that go before it. Task i is settled by its windows: for each q some time by which q + 1 of its
    jobs and all that arrives above it fit, no later than the deadline of the last of these jobs. */
module FpLevels {
  import opened Arith
  import opened FpJobs
  import FpSchedule

  type Timing = FpSchedule.Timing
  type Job = FpSchedule.Job

  /** Task `j` can go before task `i`; between equals the order of arrival decides. */
  ghost predicate Before(ts: seq<Timing>, i: nat, j: nat, ties: bool)
    requires i < |ts| && j < |ts|
  {
    j != i && (ts[i].prio < ts[j].prio || (ties && ts[i].prio == ts[j].prio))
  }

  /** Work of `p` that arrives from `a` on and before `e`. */
  ghost function Arrivals(p: Timing, a: nat, e: nat): nat
    decreases e - a
  {
    if a < e then p.wcet + Arrivals(p, a + p.period, e) else 0
  }

  /** All that arrives before time `t` and can go before task `i`, when everybody starts at once; over the
      first `n` tasks. */
  ghost function Demand(ts: seq<Timing>, i: nat, ties: bool, t: nat, n: nat): nat
    requires i < |ts| && n <= |ts|
  {
    if n == 0 then 0
    else Demand(ts, i, ties, t, n - 1) + if Before(ts, i, n - 1, ties) then Arrivals(ts[n - 1], 0, t) else 0
  }

  /** By time `t` there is room for `q + 1` jobs of task `i` and for what goes before them. */
  ghost predicate Window(ts: seq<Timing>, i: nat, ties: bool, q: nat, t: nat)
    requires i < |ts|
  {
    0 < t <= q * ts[i].period + ts[i].deadline && (q + 1) * ts[i].wcet + Demand(ts, i, ties, t, |ts|) <= t
  }

  ghost predicate HasWindow(ts: seq<Timing>, i: nat, ties: bool, q: nat)
    requires i < |ts|
  {
    exists t: nat :: Window(ts, i, ties, q, t)
  }

  /** Every number of jobs of task `i` has its window. */
  ghost predicate Level(ts: seq<Timing>, i: nat, ties: bool)
    requires i < |ts|
  {
    forall q: nat :: HasWindow(ts, i, ties, q)
  }

  ghost predicate AllLevels(ts: seq<Timing>, ties: bool) {
    forall i :: 0 <= i < |ts| && 0 < ts[i].wcet ==> Level(ts, i, ties)
  }

  // ---------------------------------------------------------------- pending work

  ghost function Total(js: seq<Job>): nat {
    if js == [] then 0 else js[0].remaining + Total(js[1..])
  }

  lemma {:induction false} TotalAppend(js: seq<Job>, j: Job)
    ensures Total(js + [j]) == Total(js) + j.remaining
  {
    if js == [] {
      assert [] + [j] == [j] && [j][1..] == [];
    } else {
      assert (js + [j])[1..] == js[1..] + [j];
      TotalAppend(js[1..], j);
    }
  }

  lemma TotalExecute(js: seq<Job>)
    requires js != [] && 0 < js[0].remaining
    ensures Total(FpSchedule.Execute(js)) == Total(js) - 1
  {
    assert js[0].remaining > 1 ==> FpSchedule.Execute(js)[1..] == js[1..];
  }

  lemma {:induction false} ArrivalsLater(p: Timing, a: nat, b: nat, e: nat)
    requires a <= b
    ensures Arrivals(p, b, e) <= Arrivals(p, a, e)
    decreases e - a
  {
    if b < e {
      if a + p.period <= b {
        ArrivalsLater(p, a + p.period, b, e);
      } else {
        ArrivalsLater(p, a + p.period, b + p.period, e);
      }
    }
  }

  lemma {:induction false} ArrivalsShift(p: Timing, a: nat, e: nat, n: nat)
    requires n <= a
    ensures Arrivals(p, a, n + e) == Arrivals(p, a - n, e)
    decreases n + e - a
  {
    if a < n + e {
      ArrivalsShift(p, a + p.period, e, n);
    }
  }

  /** What goes before task `i` until `e`: pending or still to arrive. */
  ghost function Ahead(ts: seq<Timing>, s: View, i: nat, ties: bool, e: nat, n: nat): nat
    requires i < |ts| == |s.next| == |s.jobs| && n <= |ts|
  {
    if n == 0 then 0
    else Ahead(ts, s, i, ties, e, n - 1) + if Before(ts, i, n - 1, ties) then AheadOf(ts, s, n - 1, e) else 0
  }

  ghost function AheadOf(ts: seq<Timing>, s: View, j: nat, e: nat): nat
    requires j < |ts| == |s.next| == |s.jobs|
  {
    Total(s.jobs[j]) + Arrivals(ts[j], Max(s.now, s.next[j]), e)
  }

  /** A release brings no more than was still to arrive, and as much if the job is as long as allowed. */
  lemma AheadOfRelease(ts: seq<Timing>, s: View, s': View, k: nat, cost: nat, j: nat, e: nat)
    requires AfterRelease(ts, s, s', k, cost) && j < |ts|
    ensures
      && (s.now < e ==> AheadOf(ts, s', j, e) <= AheadOf(ts, s, j, e))
      && (cost == ts[k].wcet ==> AheadOf(ts, s', j, e) >= AheadOf(ts, s, j, e))
  {
    if k == j {
      TotalAppend(s.jobs[k], FpSchedule.Job(k, ts[k].prio, s.now, cost));
    }
  }

  lemma AheadRelease(
    ts: seq<Timing>, s: View, s': View, k: nat, cost: nat, i: nat, ties: bool, e: nat, n: nat)
    requires AfterRelease(ts, s, s', k, cost) && i < |ts| && n <= |ts|
    ensures
      && (s.now < e ==> Ahead(ts, s', i, ties, e, n) <= Ahead(ts, s, i, ties, e, n))
      && (cost == ts[k].wcet ==> Ahead(ts, s', i, ties, e, n) >= Ahead(ts, s, i, ties, e, n))
  {
    if n > 0 {
      AheadRelease(ts, s, s', k, cost, i, ties, e, n - 1);
      AheadOfRelease(ts, s, s', k, cost, n - 1, e);
    }
  }

  lemma TickTotal(ts: seq<Timing>, s: View, s': View, k: nat)
    requires AfterTick(ts, s, s') && k < |ts|
    ensures k == s.served ==> s.jobs[k] != []
    ensures Total(s'.jobs[k]) == Total(s.jobs[k]) - if k == s.served then 1 else 0
  {
    if k == s.served {
      TotalExecute(s.jobs[k]);
    }
  }

  /** A tick for one that goes before task `i` pays for itself. */
  lemma AheadTick(ts: seq<Timing>, s: View, s': View, i: nat, ties: bool, e: nat, n: nat)
    requires AfterTick(ts, s, s') && i < |ts| && n <= |ts|
    ensures
      var k := s.served;
      && Ahead(ts, s', i, ties, e, n) + (if k < n && Before(ts, i, k, ties) then 1 else 0) <=
         Ahead(ts, s, i, ties, e, n)
  {
    if n > 0 {
      AheadTick(ts, s, s', i, ties, e, n - 1);
      TickTotal(ts, s, s', n - 1);
      ArrivalsLater(ts[n - 1], Max(s.now, s.next[n - 1]), Max(s.now + 1, s.next[n - 1]), e);
    }
  }

  /** With nothing pending that goes before task `i`, no more is ahead than if everybody starts at once. */
  lemma AheadIdle(ts: seq<Timing>, s: View, i: nat, ties: bool, t: nat, n: nat)
    requires i < |ts| == |s.next| == |s.jobs| && n <= |ts|
    requires forall j :: 0 <= j < |ts| && Before(ts, i, j, ties) ==> s.jobs[j] == []
    ensures Ahead(ts, s, i, ties, s.now + t, n) <= Demand(ts, i, ties, t, n)
  {
    if n > 0 {
      AheadIdle(ts, s, i, ties, t, n - 1);
      ArrivalsLater(ts[n - 1], s.now, Max(s.now, s.next[n - 1]), s.now + t);
      ArrivalsShift(ts[n - 1], s.now, t, s.now);
    }
  }

  // ---------------------------------------------------------------- the task itself

  /** Work of its next `k` jobs, those pending first, each of those to come as long as `c`. */
  ghost function Own(js: seq<Job>, k: nat, c: nat): nat {
    if k == 0 then 0
    else if js == [] then c + Own([], k - 1, c)
    else js[0].remaining + Own(js[1..], k - 1, c)
  }

  lemma {:induction false} OwnAppend(js: seq<Job>, j: Job, k: nat, c: nat)
    requires j.remaining <= c
    ensures Own(js + [j], k, c) <= Own(js, k, c)
  {
    if js == [] {
      assert [] + [j] == [j] && [j][1..] == [];
    } else if k > 0 {
      assert (js + [j])[1..] == js[1..] + [j];
      OwnAppend(js[1..], j, k - 1, c);
    }
  }

  lemma {:induction false} OwnNone(k: nat, c: nat)
    ensures Own([], k, c) == k * c
  {
    if k > 0 {
      OwnNone(k - 1, c);
    }
  }

  /** Jobs released from `a` on, a period apart, the next one not before the time `b`. */
  ghost predicate Spaced(js: seq<Job>, a: nat, p: nat, b: nat) {
    if js == [] then a <= b else a <= js[0].release && Spaced(js[1..], a + p, p, b)
  }

  lemma {:induction false} SpacedAppend(js: seq<Job>, a: nat, p: nat, b: nat, j: Job)
    requires Spaced(js, a, p, b) && b <= j.release
    ensures Spaced(js + [j], a, p, j.release + p)
  {
    if js == [] {
      assert [] + [j] == [j] && [j][1..] == [];
    } else {
      assert (js + [j])[1..] == js[1..] + [j];
      SpacedAppend(js[1..], a + p, p, b, j);
    }
  }

  lemma {:induction false} SpacedLater(js: seq<Job>, a: nat, p: nat, b: nat, b': nat)
    requires Spaced(js, a, p, b) && b <= b'
    ensures Spaced(js, a, p, b')
  {
    if js != [] {
      SpacedLater(js[1..], a + p, p, b, b');
    }
  }

  // ---------------------------------------------------------------- enough: every window holds

  ghost function WindowOf(ts: seq<Timing>, i: nat, q: nat): (t: nat)
    requires i < |ts| && HasWindow(ts, i, true, q)
    ensures Window(ts, i, true, q, t)
  {
    var t: nat :| Window(ts, i, true, q, t); t
  }

  /** The first `m + 1` jobs since time `t`, of which `c` are done, fit before the end of their window. */
  ghost predicate Holds(ts: seq<Timing>, s: View, i: nat, t: nat, c: nat, m: nat)
    requires i < |ts| == |s.next| == |s.jobs| && HasWindow(ts, i, true, m) && c <= m
  {
    Ahead(ts, s, i, true, t + WindowOf(ts, i, m), |ts|) + Own(s.jobs[i], m + 1 - c, ts[i].wcet) + s.now
    <= t + WindowOf(ts, i, m)
  }

  /** At time `t` nothing of the level was pending; since then `c` jobs of task `i` are done. */
  ghost predicate Since(ts: seq<Timing>, s: View, i: nat, t: nat, c: nat)
    requires i < |ts| == |s.next| == |s.jobs| && Level(ts, i, true)
  {
    && Spaced(s.jobs[i], t + c * ts[i].period, ts[i].period, Max(s.now, s.next[i]))
    && forall m: nat :: c <= m ==> Holds(ts, s, i, t, c, m)
  }

  /** Work is left in every window that is not done. */
  lemma Positive(ts: seq<Timing>, s: View, i: nat, t: nat, c: nat, m: nat)
    requires Fair(ts, s) && i < |ts| && 0 < ts[i].wcet && HasWindow(ts, i, true, m) && c <= m
    requires Holds(ts, s, i, t, c, m)
    ensures s.now < t + WindowOf(ts, i, m)
  {
  }

  /** A fresh start. */
  lemma SinceNow(ts: seq<Timing>, s: View, i: nat)
    requires Fair(ts, s) && i < |ts| && Level(ts, i, true) && s.jobs[i] == []
    requires forall j :: 0 <= j < |ts| && Before(ts, i, j, true) ==> s.jobs[j] == []
    ensures Since(ts, s, i, s.now, 0)
  {
    forall m: nat ensures Holds(ts, s, i, s.now, 0, m) {
      AheadIdle(ts, s, i, true, WindowOf(ts, i, m), |ts|);
      OwnNone(m + 1, ts[i].wcet);
    }
  }

  lemma SinceRelease(ts: seq<Timing>, s: View, s': View, k: nat, cost: nat, i: nat, t: nat, c: nat)
    requires AfterRelease(ts, s, s', k, cost) && i < |ts| && 0 < ts[i].wcet && Level(ts, i, true)
    requires Since(ts, s, i, t, c)
    ensures Since(ts, s', i, t, c)
  {
    var j := FpSchedule.Job(k, ts[k].prio, s.now, cost);
    if k == i {
      SpacedAppend(s.jobs[i], t + c * ts[i].period, ts[i].period, s.now, j);
    }
    forall m: nat | c <= m ensures Holds(ts, s', i, t, c, m) {
      assert Holds(ts, s, i, t, c, m);
      Positive(ts, s, i, t, c, m);
      AheadRelease(ts, s, s', k, cost, i, true, t + WindowOf(ts, i, m), |ts|);
      if k == i {
        OwnAppend(s.jobs[i], j, m + 1 - c, ts[i].wcet);
      }
    }
  }

  /** A tick for one that goes before the task. */
  lemma SinceAhead(ts: seq<Timing>, s: View, s': View, i: nat, t: nat, c: nat)
    requires AfterTick(ts, s, s') && i < |ts| && 0 < ts[i].wcet && Level(ts, i, true) && Since(ts, s, i, t, c)
    requires s.served < |ts| && Before(ts, i, s.served, true)
    ensures Since(ts, s', i, t, c)
  {
    SpacedLater(s.jobs[i], t + c * ts[i].period, ts[i].period, Max(s.now, s.next[i]),
                Max(s'.now, s'.next[i]));
    forall m: nat | c <= m ensures Holds(ts, s', i, t, c, m) {
      assert Holds(ts, s, i, t, c, m);
      AheadTick(ts, s, s', i, true, t + WindowOf(ts, i, m), |ts|);
    }
  }

  lemma OwnServed(js: seq<Job>, k: nat, c: nat)
    requires js != [] && 0 < js[0].remaining && 0 < k
    ensures js[0].remaining > 1 ==> Own(FpSchedule.Execute(js), k, c) == Own(js, k, c) - 1
    ensures js[0].remaining == 1 ==> Own(FpSchedule.Execute(js), k - 1, c) == Own(js, k, c) - 1
  {
    assert js[0].remaining > 1 ==> FpSchedule.Execute(js)[1..] == js[1..];
  }

  lemma SpacedServed(js: seq<Job>, a: nat, p: nat, b: nat)
    requires js != [] && 0 < js[0].remaining && Spaced(js, a, p, b)
    ensures Spaced(FpSchedule.Execute(js), if js[0].remaining > 1 then a else a + p, p, b)
  {
    assert js[0].remaining > 1 ==> FpSchedule.Execute(js)[1..] == js[1..];
  }

  lemma NextMultiple(c: nat, p: nat)
    ensures (c + 1) * p == c * p + p
  {
  }

  /** How many jobs are done after a tick for the task itself. */
  ghost function DoneAfter(js: seq<Job>, c: nat): nat
    requires js != []
  {
    if js[0].remaining > 1 then c else c + 1
  }

  lemma HoldsOwn(ts: seq<Timing>, s: View, s': View, i: nat, t: nat, c: nat, m: nat)
    requires AfterTick(ts, s, s') && i < |ts| && HasWindow(ts, i, true, m) && s.served == i && s.jobs[i] != []
    requires c <= DoneAfter(s.jobs[i], c) <= m && Holds(ts, s, i, t, c, m)
    ensures Holds(ts, s', i, t, DoneAfter(s.jobs[i], c), m)
  {
    AheadTick(ts, s, s', i, true, t + WindowOf(ts, i, m), |ts|);
    OwnServed(s.jobs[i], m + 1 - c, ts[i].wcet);
  }

  /** A tick for the task itself. */
  lemma SinceOwn(ts: seq<Timing>, s: View, s': View, i: nat, t: nat, c: nat)
    requires AfterTick(ts, s, s') && i < |ts| && 0 < ts[i].wcet && Level(ts, i, true) && Since(ts, s, i, t, c)
    requires s.served == i
    ensures s.jobs[i] != []
    ensures Since(ts, s', i, t, DoneAfter(s.jobs[i], c))
  {
    SpacedOwn(ts, s, s', i, t, c);
    forall m: nat | DoneAfter(s.jobs[i], c) <= m
      ensures Holds(ts, s', i, t, DoneAfter(s.jobs[i], c), m)
    {
      HoldsOwn(ts, s, s', i, t, c, m);
    }
  }

  lemma SpacedOwn(ts: seq<Timing>, s: View, s': View, i: nat, t: nat, c: nat)
    requires AfterTick(ts, s, s') && i < |ts| && s.served == i && s.jobs[i] != []
    requires Spaced(s.jobs[i], t + c * ts[i].period, ts[i].period, Max(s.now, s.next[i]))
    ensures Spaced(s'.jobs[i], t + DoneAfter(s.jobs[i], c) * ts[i].period, ts[i].period,
                   Max(s'.now, s'.next[i]))
  {
    var js, P := s.jobs[i], ts[i].period;
    NextMultiple(c, P);
    var a := t + DoneAfter(js, c) * P;
    SpacedServed(js, t + c * P, P, Max(s.now, s.next[i]));
    SpacedLater(s'.jobs[i], a, P, Max(s.now, s.next[i]), Max(s'.now, s'.next[i]));
  }

  /** Every tick keeps the windows: one that serves neither the task nor one that goes before it finds
      nothing of the level pending, and the windows start anew. */
  lemma TickKeepsWindows(ts: seq<Timing>, s: View, s': View, i: nat, t: nat, c: nat) returns (t': nat, c': nat)
    requires AfterTick(ts, s, s') && i < |ts| && 0 < ts[i].wcet && Level(ts, i, true) && Since(ts, s, i, t, c)
    ensures Since(ts, s', i, t', c')
  {
    t', c' := t, c;
    if s.served == i {
      SinceOwn(ts, s, s', i, t, c);
      c' := DoneAfter(s.jobs[i], c);
    } else if s.served < |ts| && Before(ts, i, s.served, true) {
      SinceAhead(ts, s, s', i, t, c);
    } else {
      SinceNow(ts, s', i);
      t', c' := s'.now, 0;
    }
  }

  /** Each pending job is before the end of its window, which is within its deadline. */
  lemma {:induction false} WithinDeadline(
    ts: seq<Timing>, js: seq<Job>, now: nat, i: nat, t: nat, c: nat, b: nat, k: nat)
    requires i < |ts| && Level(ts, i, true) && k < |js|
    requires Spaced(js, t + c * ts[i].period, ts[i].period, b)
    requires forall m: nat :: c <= m ==> now < t + WindowOf(ts, i, m)
    ensures now < js[k].release + ts[i].deadline
  {
    if k == 0 {
      assert now < t + WindowOf(ts, i, c);
    } else {
      NextMultiple(c, ts[i].period);
      WithinDeadline(ts, js[1..], now, i, t, c + 1, b, k - 1);
    }
  }

  /** Every task with work has its windows, and a time since which they hold. */
  ghost predicate Kept(ts: seq<Timing>, s: View) {
    && Fair(ts, s)
    && (forall i :: 0 <= i < |ts| && ts[i].wcet == 0 ==> s.jobs[i] == [])
    && forall i :: 0 <= i < |ts| && 0 < ts[i].wcet ==>
                     Level(ts, i, true) && exists t: nat, c: nat :: Since(ts, s, i, t, c)
  }

  lemma ReleaseKeeps(ts: seq<Timing>, s: View, s': View, k: nat, cost: nat)
    requires Kept(ts, s) && AfterRelease(ts, s, s', k, cost)
    ensures Kept(ts, s')
  {
    forall i | 0 <= i < |ts| && 0 < ts[i].wcet ensures exists t: nat, c: nat :: Since(ts, s', i, t, c) {
      var t: nat, c: nat :| Since(ts, s, i, t, c);
      SinceRelease(ts, s, s', k, cost, i, t, c);
    }
  }

  lemma TickKeeps(ts: seq<Timing>, s: View, s': View)
    requires Kept(ts, s) && AfterTick(ts, s, s')
    ensures Kept(ts, s')
  {
    forall i | 0 <= i < |ts| && 0 < ts[i].wcet ensures exists t: nat, c: nat :: Since(ts, s', i, t, c) {
      var t: nat, c: nat :| Since(ts, s, i, t, c);
      var t', c' := TickKeepsWindows(ts, s, s', i, t, c);
    }
  }

  lemma KeptInTime(ts: seq<Timing>, s: View)
    requires Kept(ts, s)
    ensures InTime(ts, s)
  {
    forall i, k | 0 <= i < |ts| && 0 <= k < |s.jobs[i]| ensures s.now < s.jobs[i][k].release + ts[i].deadline {
      var t: nat, c: nat :| Since(ts, s, i, t, c);
      forall m: nat | c <= m ensures s.now < t + WindowOf(ts, i, m) {
        assert Holds(ts, s, i, t, c, m);
        Positive(ts, s, i, t, c, m);
      }
      WithinDeadline(ts, s.jobs[i], s.now, i, t, c, Max(s.now, s.next[i]), k);
    }
  }

  /** Nothing has been released. */
  ghost predicate Fresh(ts: seq<Timing>, s: View) {
    Fair(ts, s) && s.now == 0 && forall i :: 0 <= i < |ts| ==> s.next[i] == 0 && s.jobs[i] == []
  }

  lemma FreshKept(ts: seq<Timing>, s: View)
    requires AllLevels(ts, true) && Fresh(ts, s)
    ensures Kept(ts, s)
  {
    forall i | 0 <= i < |ts| && 0 < ts[i].wcet ensures Since(ts, s, i, 0, 0) {
      SinceNow(ts, s, i);
    }
  }

  // ---------------------------------------------------------------- no less: a window that is missing

  /** The tasks that may release now in a run that starts everything as early as possible, task `i` for
      `left` more jobs only. */
  ghost function Ready(ts: seq<Timing>, s: View, i: nat, left: nat): set<nat>
    requires i < |ts| == |s.next|
  {
    set j: nat | j < |ts| && 0 < ts[j].wcet && s.next[j] <= s.now
                 && (Before(ts, i, j, false) || (j == i && 0 < left))
  }

  lemma NoArrivals(p: Timing, a: nat, e: nat)
    requires p.wcet == 0
    ensures Arrivals(p, a, e) == 0
    decreases e - a
  {
  }

  /** A tick loses no work of a task that is not due but what it serves. */
  lemma AheadOfWaits(ts: seq<Timing>, s: View, s': View, j: nat, e: nat)
    requires AfterTick(ts, s, s') && j < |ts| && (ts[j].wcet == 0 || s.now < s.next[j])
    ensures AheadOf(ts, s', j, e) + (if j == s.served then 1 else 0) == AheadOf(ts, s, j, e)
  {
    TickTotal(ts, s, s', j);
    if ts[j].wcet == 0 {
      NoArrivals(ts[j], Max(s.now, s.next[j]), e);
      NoArrivals(ts[j], Max(s.now + 1, s.next[j]), e);
    }
  }

  lemma AheadWaits(ts: seq<Timing>, s: View, s': View, i: nat, left: nat, e: nat, n: nat)
    requires AfterTick(ts, s, s') && i < |ts| && n <= |ts| && Ready(ts, s, i, left) == {}
    ensures
      var k := s.served;
      && Ahead(ts, s', i, false, e, n) + (if k < n && Before(ts, i, k, false) then 1 else 0) ==
         Ahead(ts, s, i, false, e, n)
  {
    if n > 0 {
      AheadWaits(ts, s, s', i, left, e, n - 1);
      if Before(ts, i, n - 1, false) {
        assert n - 1 !in Ready(ts, s, i, left);
        AheadOfWaits(ts, s, s', n - 1, e);
      }
    }
  }

  /** With nobody ready and nothing pending above task `i`, nothing is ahead until now. */
  lemma NothingAhead(ts: seq<Timing>, s: View, i: nat, left: nat, n: nat)
    requires Fair(ts, s) && i < |ts| && n <= |ts| && Ready(ts, s, i, left) == {}
    requires forall j :: 0 <= j < |ts| && Before(ts, i, j, false) ==> s.jobs[j] == []
    ensures Ahead(ts, s, i, false, s.now + 1, n) == 0
  {
    if n > 0 {
      NothingAhead(ts, s, i, left, n - 1);
      assert n - 1 !in Ready(ts, s, i, left);
      if ts[n - 1].wcet == 0 {
        NoArrivals(ts[n - 1], Max(s.now, s.next[n - 1]), s.now + 1);
      }
    }
  }

  /** What is left of `q + 1` jobs of task `i`. */
  ghost function Rest(ts: seq<Timing>, s: View, i: nat, left: nat): nat
    requires i < |ts| && i < |s.jobs|
  {
    Total(s.jobs[i]) + left * ts[i].wcet
  }

  /** Until `d` more is to be done at every time than there is time for, and the task is not done. */
  ghost predicate Behind(ts: seq<Timing>, s: View, i: nat, left: nat, d: nat) {
    && Fair(ts, s) && i < |ts| && s.now <= d && 0 < Rest(ts, s, i, left)
    && forall f: nat :: 0 < f && s.now <= f <= d ==>
                          f < s.now + Ahead(ts, s, i, false, f, |ts|) + Rest(ts, s, i, left)
  }

  /** The jobs of task `i` are released a period apart, the last of them at time `r`. */
  ghost predicate OnSchedule(ts: seq<Timing>, s: View, i: nat, left: nat, r: nat) {
    && i < |ts| && Fair(ts, s)
    && s.next[i] + left * ts[i].period == r + ts[i].period
    && (0 < left ==> s.now <= s.next[i])
    && forall k :: 0 <= k < |s.jobs[i]| ==> s.jobs[i][k].release <= r
  }

  /** State `s'` is what the release of a job that is ready, as long as allowed, makes of `s`. */
  ghost predicate Released(ts: seq<Timing>, s: View, s': View, i: nat, left: nat, j: nat) {
    i < |ts| && j < |ts| && AfterRelease(ts, s, s', j, ts[j].wcet) && j in Ready(ts, s, i, left)
  }

  ghost function LeftAfter(i: nat, left: nat, j: nat): nat
    requires j == i ==> 0 < left
  {
    if j == i then left - 1 else left
  }

  lemma RestKept(ts: seq<Timing>, s: View, s': View, i: nat, left: nat, j: nat)
    requires Released(ts, s, s', i, left, j)
    ensures Rest(ts, s', i, LeftAfter(i, left, j)) == Rest(ts, s, i, left)
  {
    if j == i {
      TotalAppend(s.jobs[i], FpSchedule.Job(j, ts[j].prio, s.now, ts[j].wcet));
      NextMultiple(left - 1, ts[i].wcet);
    }
  }

  lemma ScheduleKept(ts: seq<Timing>, s: View, s': View, i: nat, left: nat, r: nat, j: nat)
    requires OnSchedule(ts, s, i, left, r) && Released(ts, s, s', i, left, j)
    ensures OnSchedule(ts, s', i, LeftAfter(i, left, j), r)
  {
    if j == i {
      NextMultiple(left - 1, ts[i].period);
    }
  }

  lemma ReadyShrinks(ts: seq<Timing>, s: View, s': View, i: nat, left: nat, j: nat)
    requires Released(ts, s, s', i, left, j)
    ensures Ready(ts, s', i, LeftAfter(i, left, j)) < Ready(ts, s, i, left)
  {
    var after := Ready(ts, s', i, LeftAfter(i, left, j));
    assert j !in after && after <= Ready(ts, s, i, left);
  }

  lemma BehindKept(ts: seq<Timing>, s: View, s': View, i: nat, left: nat, d: nat, j: nat)
    requires Behind(ts, s, i, left, d) && Released(ts, s, s', i, left, j)
    ensures Behind(ts, s', i, LeftAfter(i, left, j), d)
  {
    RestKept(ts, s, s', i, left, j);
    forall f: nat | 0 < f && s.now <= f <= d
      ensures f < s.now + Ahead(ts, s', i, false, f, |ts|) + Rest(ts, s, i, left)
    {
      AheadRelease(ts, s, s', j, ts[j].wcet, i, false, f, |ts|);
    }
  }

  lemma BehindTick(ts: seq<Timing>, s: View, s': View, i: nat, left: nat, d: nat, r: nat)
    requires Behind(ts, s, i, left, d) && OnSchedule(ts, s, i, left, r) && 0 < ts[i].wcet
    requires Ready(ts, s, i, left) == {} && s.now < d && AfterTick(ts, s, s')
    ensures Behind(ts, s', i, left, d) && OnSchedule(ts, s', i, left, r)
  {
    TickTotal(ts, s, s', i);
    NotDone(ts, s, i, left, d);
    forall f: nat | s'.now <= f <= d
      ensures f < s'.now + Ahead(ts, s', i, false, f, |ts|) + Rest(ts, s', i, left)
    {
      AheadWaits(ts, s, s', i, left, f, |ts|);
    }
    assert i !in Ready(ts, s, i, left);
    LeftReleases(s.jobs[i], r);
  }

  lemma LeftReleases(js: seq<Job>, r: nat)
    requires forall k :: 0 <= k < |js| ==> js[k].release <= r
    ensures forall k :: 0 <= k < |FpSchedule.Execute(js)| ==> FpSchedule.Execute(js)[k].release <= r
  {
  }

  /** The task is not done with this tick: it would have been served with nothing ahead. */
  lemma NotDone(ts: seq<Timing>, s: View, i: nat, left: nat, d: nat)
    requires Behind(ts, s, i, left, d) && Ready(ts, s, i, left) == {} && s.now < d
    ensures s.served == i ==> 1 < Rest(ts, s, i, left)
  {
    if s.served == i && Rest(ts, s, i, left) == 1 {
      NothingAhead(ts, s, i, left, |ts|);
      assert false;
    }
  }

  lemma MissesAt(ts: seq<Timing>, s: View, i: nat, left: nat, d: nat, r: nat)
    requires Behind(ts, s, i, left, d) && OnSchedule(ts, s, i, left, r) && 0 < ts[i].wcet
    requires Ready(ts, s, i, left) == {} && s.now == d == r + ts[i].deadline
    ensures !InTime(ts, s)
  {
    assert i !in Ready(ts, s, i, left);
    if 0 < left {
      NextMultiple(left - 1, ts[i].period);
    }
    assert s.jobs[i][0].release <= r;
  }

  lemma AheadFresh(ts: seq<Timing>, s: View, i: nat, f: nat, n: nat)
    requires Fresh(ts, s) && i < |ts| && n <= |ts|
    ensures Ahead(ts, s, i, false, f, n) == Demand(ts, i, false, f, n)
  {
  }

  /** Where a window is missing, counting higher priorities only, the start is behind already. */
  lemma FreshBehind(ts: seq<Timing>, s: View, i: nat, q: nat, r: nat)
    requires Fresh(ts, s) && i < |ts| && 0 < ts[i].wcet && !HasWindow(ts, i, false, q) && r == q * ts[i].period
    ensures Behind(ts, s, i, q + 1, r + ts[i].deadline) && OnSchedule(ts, s, i, q + 1, r)
  {
    forall f: nat | 0 < f <= r + ts[i].deadline
      ensures f < Ahead(ts, s, i, false, f, |ts|) + Rest(ts, s, i, q + 1)
    {
      assert !Window(ts, i, false, q, f);
      AheadFresh(ts, s, i, f, |ts|);
    }
    NextMultiple(q, ts[i].wcet);
    NextMultiple(q, ts[i].period);
  }

  // ---------------------------------------------------------------- equal priorities

  /** Tasks with work have different priorities. */
  ghost predicate Distinct(ts: seq<Timing>) {
    forall i, j :: 0 <= i < j < |ts| && 0 < ts[i].wcet && 0 < ts[j].wcet ==> ts[i].prio != ts[j].prio
  }

  lemma {:induction false} NoTies(ts: seq<Timing>, i: nat, t: nat, n: nat)
    requires i < |ts| && n <= |ts| && 0 < ts[i].wcet && Distinct(ts)
    ensures Demand(ts, i, true, t, n) == Demand(ts, i, false, t, n)
  {
    if n > 0 {
      NoTies(ts, i, t, n - 1);
      if ts[n - 1].wcet == 0 {
        NoArrivals(ts[n - 1], 0, t);
      }
    }
  }

  lemma LevelTies(ts: seq<Timing>, i: nat)
    requires i < |ts| && 0 < ts[i].wcet && Distinct(ts)
    ensures Level(ts, i, true) <==> Level(ts, i, false)
  {
    forall q: nat ensures HasWindow(ts, i, true, q) <==> HasWindow(ts, i, false, q) {
      forall t: nat ensures Window(ts, i, true, q, t) <==> Window(ts, i, false, q, t) {
        NoTies(ts, i, t, |ts|);
      }
    }
  }

  // ---------------------------------------------------------------- finitely many windows

  lemma {:induction false} ArrivalsSplit(p: Timing, a: nat, t: nat, u: nat)
    requires a <= t
    ensures Arrivals(p, a, t + u) <= Arrivals(p, a, t) + Arrivals(p, 0, u)
    decreases t - a
  {
    if a < t {
      if a + p.period <= t {
        ArrivalsSplit(p, a + p.period, t, u);
      } else {
        ArrivalsLater(p, t, a + p.period, t + u);
        ArrivalsShift(p, t, u, t);
        assert Arrivals(p, a + p.period, t) == 0;
      }
    } else {
      ArrivalsShift(p, t, u, t);
    }
  }

  lemma DemandSplit(ts: seq<Timing>, i: nat, ties: bool, t: nat, u: nat, n: nat)
    requires i < |ts| && n <= |ts|
    ensures Demand(ts, i, ties, t + u, n) <= Demand(ts, i, ties, t, n) + Demand(ts, i, ties, u, n)
  {
    if n > 0 {
      DemandSplit(ts, i, ties, t, u, n - 1);
      ArrivalsSplit(ts[n - 1], 0, t, u);
    }
  }

  lemma AddMultiples(x: nat, y: nat, z: nat, p: nat)
    requires x == y + z
    ensures x * p == y * p + z * p
  {
  }

  /** A window that ends before the next job can be released settles all larger ones: they repeat it. */
  lemma {:induction false} ShortWindowSettles(ts: seq<Timing>, i: nat, ties: bool, q: nat, t: nat, m: nat)
    requires i < |ts| && Window(ts, i, ties, q, t) && t <= (q + 1) * ts[i].period
    requires forall k: nat :: k <= q ==> HasWindow(ts, i, ties, k)
    ensures HasWindow(ts, i, ties, m)
  {
    if q < m {
      ShortWindowSettles(ts, i, ties, q, t, m - q - 1);
      var u: nat :| Window(ts, i, ties, m - q - 1, u);
      DemandSplit(ts, i, ties, t, u, |ts|);
      AddMultiples(m, q + 1, m - q - 1, ts[i].period);
      AddMultiples(m + 1, q + 1, m - q, ts[i].wcet);
      assert Window(ts, i, ties, m, t + u);
    }
  }

  /** So with a deadline within the period the first window decides. */
  lemma FirstWindowDecides(ts: seq<Timing>, i: nat, ties: bool)
    requires i < |ts| && ts[i].deadline <= ts[i].period
    ensures Level(ts, i, ties) <==> HasWindow(ts, i, ties, 0)
  {
    if HasWindow(ts, i, ties, 0) {
      var t: nat :| Window(ts, i, ties, 0, t);
      forall m: nat ensures HasWindow(ts, i, ties, m) {
        ShortWindowSettles(ts, i, ties, 0, t, m);
      }
    }
  }

  /** All periods that count for task `i` divide `H`. */
  ghost predicate Hyperperiod(ts: seq<Timing>, i: nat, ties: bool, H: nat)
    requires i < |ts|
  {
    && 0 < H && H % ts[i].period == 0
    && forall j :: 0 <= j < |ts| && Before(ts, i, j, ties) && 0 < ts[j].wcet ==> H % ts[j].period == 0
  }

  /** What the level brings in one hyperperiod. */
  ghost function LevelLoad(ts: seq<Timing>, i: nat, ties: bool, H: nat): nat
    requires i < |ts|
  {
    H / ts[i].period * ts[i].wcet + Demand(ts, i, ties, H, |ts|)
  }

  lemma {:induction false} ArrivalsRepeat(p: Timing, k: nat, u: nat)
    ensures Arrivals(p, 0, k * p.period + u) == k * p.wcet + Arrivals(p, 0, u)
  {
    if k > 0 {
      NextMultiple(k - 1, p.period);
      NextMultiple(k - 1, p.wcet);
      ArrivalsShift(p, p.period, (k - 1) * p.period + u, p.period);
      ArrivalsRepeat(p, k - 1, u);
    }
  }

  lemma Quotient(H: nat, p: nat)
    requires 0 < p && H % p == 0
    ensures H == H / p * p
  {
  }

  lemma {:induction false} DemandRepeats(ts: seq<Timing>, i: nat, ties: bool, H: nat, u: nat, n: nat)
    requires i < |ts| && n <= |ts| && Hyperperiod(ts, i, ties, H)
    ensures Demand(ts, i, ties, H + u, n) == Demand(ts, i, ties, H, n) + Demand(ts, i, ties, u, n)
  {
    if n > 0 {
      DemandRepeats(ts, i, ties, H, u, n - 1);
      var p := ts[n - 1];
      if p.wcet == 0 {
        NoArrivals(p, 0, H + u);
        NoArrivals(p, 0, H);
        NoArrivals(p, 0, u);
      } else if Before(ts, i, n - 1, ties) {
        Quotient(H, p.period);
        ArrivalsRepeat(p, H / p.period, u);
        ArrivalsRepeat(p, H / p.period, 0);
      }
    }
  }

  /** Where the level is overloaded a window loses a microsecond with every hyperperiod taken out of it. */
  lemma {:induction false} WindowShrinks(ts: seq<Timing>, i: nat, ties: bool, H: nat, k: nat, t: nat, m: nat)
    requires i < |ts| && 0 < ts[i].wcet && Hyperperiod(ts, i, ties, H) && H < LevelLoad(ts, i, ties, H)
    requires
      var c := H / ts[i].period * ts[i].wcet;
      k * c + Demand(ts, i, ties, t, |ts|) + m <= t <= k * H + ts[i].deadline
    ensures k + m <= H + ts[i].deadline
    decreases k
  {
    var c := H / ts[i].period * ts[i].wcet;
    if k > 0 {
      NextMultiple(k - 1, c);
      NextMultiple(k - 1, H);
      if t < H {
        PositiveLoad(H, ts[i].period, ts[i].wcet);
        MulMono(1, c, k);
      } else {
        DemandRepeats(ts, i, ties, H, t - H, |ts|);
        WindowShrinks(ts, i, ties, H, k - 1, t - H, m + 1);
      }
    }
  }

  lemma PositiveLoad(H: nat, p: nat, c: nat)
    requires 0 < H && 0 < p && H % p == 0 && 0 < c
    ensures 0 < H / p * c && 0 < H / p
  {
    Quotient(H, p);
    MulMono(1, c, H / p);
  }

  /** Then some number of jobs has none. */
  lemma OverloadFails(ts: seq<Timing>, i: nat, ties: bool, H: nat)
    requires i < |ts| && 0 < ts[i].wcet && Hyperperiod(ts, i, ties, H) && H < LevelLoad(ts, i, ties, H)
    ensures !Level(ts, i, ties)
  {
    if Level(ts, i, ties) {
      var Q, P, k := H / ts[i].period, ts[i].period, H + ts[i].deadline + 1;
      PositiveLoad(H, P, ts[i].wcet);
      MulMono(1, Q, k);
      assert HasWindow(ts, i, ties, k * Q - 1);
      var t: nat :| Window(ts, i, ties, k * Q - 1, t);
      Nested(k, Q, ts[i].wcet);
      Nested(k, Q, P);
      Quotient(H, P);
      NextMultiple(k * Q - 1, P);
      WindowShrinks(ts, i, ties, H, k, t, 0);
    }
  }

  lemma Nested(k: nat, q: nat, c: nat)
    ensures k * q * c == k * (q * c)
  {
  }

  /** So for a deadline beyond the period finitely many windows decide: those of one hyperperiod, which the
      level must not overload. */
  lemma LevelIff(ts: seq<Timing>, i: nat, ties: bool, H: nat)
    requires i < |ts| && 0 < ts[i].wcet && ts[i].period <= ts[i].deadline && Hyperperiod(ts, i, ties, H)
    ensures
      Level(ts, i, ties) <==>
      LevelLoad(ts, i, ties, H) <= H && forall q: nat :: q < H / ts[i].period ==> HasWindow(ts, i, ties, q)
  {
    if H < LevelLoad(ts, i, ties, H) {
      OverloadFails(ts, i, ties, H);
    } else if forall q: nat :: q < H / ts[i].period ==> HasWindow(ts, i, ties, q) {
      var Q := H / ts[i].period;
      PositiveLoad(H, ts[i].period, ts[i].wcet);
      Quotient(H, ts[i].period);
      NextMultiple(Q - 1, ts[i].period);
      assert Window(ts, i, ties, Q - 1, H);
      forall m: nat ensures HasWindow(ts, i, ties, m) {
        ShortWindowSettles(ts, i, ties, Q - 1, H, m);
      }
    }
  }

  // ---------------------------------------------------------------- what the analysis settles

  lemma {:induction false} InterShorter(p: Timing, a: nat, x: nat, e: nat)
    requires x <= e
    ensures FpSchedule.Inter(p, a, x) <= FpSchedule.Inter(p, a, e)
    decreases e - a
  {
    if a < e {
      InterShorter(p, a + p.period, x, e);
    }
  }

  /** Either every job that arrives before `e` is counted in full, or one that arrives at `x` is cut off
      and takes all the time from there. */
  lemma {:induction false} CutOff(p: Timing, a: nat, e: nat) returns (x: nat)
    ensures x <= e
    ensures x == e ==> FpSchedule.Inter(p, a, e) == Arrivals(p, a, e)
    ensures x < e ==> FpSchedule.Inter(p, a, x) + e - x <= FpSchedule.Inter(p, a, e)
    decreases e - a
  {
    x := e;
    if a < e {
      if p.wcet > e - a {
        x := a;
      } else {
        x := CutOff(p, a + p.period, e);
      }
    }
  }

  lemma {:induction false} HigherShorter(ts: seq<Timing>, pi: int, x: nat, e: nat, n: nat)
    requires n <= |ts| && x <= e
    ensures FpSchedule.HigherInter(ts, pi, x, n) <= FpSchedule.HigherInter(ts, pi, e, n)
  {
    if n > 0 {
      HigherShorter(ts, pi, x, e, n - 1);
      InterShorter(ts[n - 1], 0, x, e);
    }
  }

  lemma {:induction false} HigherCutOff(ts: seq<Timing>, i: nat, e: nat, n: nat) returns (x: nat)
    requires i < |ts| && n <= |ts|
    ensures x <= e
    ensures x == e ==> FpSchedule.HigherInter(ts, ts[i].prio, e, n) == Demand(ts, i, false, e, n)
    ensures x < e ==>
              FpSchedule.HigherInter(ts, ts[i].prio, x, n) + e - x <= FpSchedule.HigherInter(ts, ts[i].prio, e, n)
  {
    x := e;
    if n > 0 {
      x := HigherCutOff(ts, i, e, n - 1);
      if x < e {
        InterShorter(ts[n - 1], 0, x, e);
      } else if ts[i].prio < ts[n - 1].prio {
        x := CutOff(ts[n - 1], 0, e);
        HigherShorter(ts, ts[i].prio, x, e, n - 1);
      }
    }
  }

  /** The bound of the analysis cuts jobs off at the end of the interval; where it fits, some window does. */
  lemma {:induction false} BoundHasWindow(ts: seq<Timing>, i: nat, e: nat)
    requires i < |ts| && 0 < ts[i].wcet && e <= ts[i].deadline
    requires ts[i].wcet + FpSchedule.HigherInter(ts, ts[i].prio, e, |ts|) <= e
    ensures HasWindow(ts, i, false, 0)
    decreases e
  {
    var x := HigherCutOff(ts, i, e, |ts|);
    if x < e {
      BoundHasWindow(ts, i, x);
    } else {
      assert Window(ts, i, false, 0, e);
    }
  }

  /** The analysis settles the first window. */
  lemma FitsHasWindow(ts: seq<Timing>, i: nat)
    requires i < |ts| && 0 < ts[i].wcet && FpSchedule.Fits(ts, i)
    ensures HasWindow(ts, i, false, 0)
  {
    FpSchedule.PeerPositive(ts, i, |ts|);
    BoundHasWindow(ts, i, ts[i].deadline);
  }
}

/** EDF execution on one CPU, one microsecond per step, for tasks timed in microseconds.
    The main result: every run meets every deadline exactly when no interval can be
    claimed for more work than it holds. */
module EdfSchedule {
  import opened SortedList
  import opened Arith

  /** Execution time, period and relative deadline of a task, in microseconds. */
  datatype TimingRaw = Timing(wcet: nat, period: nat, deadline: nat)
  type Timing = t: TimingRaw | 0 < t.period witness Timing(0, 1, 0)

  /** A released job: its task, absolute deadline and unfinished work. */
  datatype Job = Job(task: nat, deadline: nat, remaining: nat)

  function DeadlineOf(j: Job): int { j.deadline }

  /** A task releases a job, or one microsecond passes. */
  datatype Event = Release(task: nat, cost: nat) | Tick

  /** `next[i]` is the earliest time at which task i may release again. */
  datatype State = State(now: nat, queue: seq<Job>, next: seq<nat>)

  ghost predicate Legal(ts: seq<Timing>, s: State, e: Event) {
    e.Release? ==> e.task < |ts| == |s.next| && 0 < e.cost <= ts[e.task].wcet && s.next[e.task] <= s.now
  }

  ghost function JobOf(ts: seq<Timing>, s: State, e: Event): Job
    requires Legal(ts, s, e) && e.Release?
  {
    Job(e.task, s.now + ts[e.task].deadline, e.cost)
  }

  /** A release enters the deadline-sorted queue; a tick executes the head of the queue. */
  ghost function Step(ts: seq<Timing>, s: State, e: Event): State
    requires Legal(ts, s, e)
  {
    if e.Release? then
      State(s.now, Insert(s.queue, JobOf(ts, s, e), DeadlineOf), s.next[e.task := s.now + ts[e.task].period])
    else
      State(s.now + 1, Execute(s.queue), s.next)
  }

  /** One microsecond of the head; a finished job leaves the queue. */
  ghost function Execute(q: seq<Job>): seq<Job> {
    if q == [] then []
    else if q[0].remaining <= 1 then q[1..]
    else [q[0].(remaining := q[0].remaining - 1)] + q[1..]
  }

  ghost predicate LegalRun(ts: seq<Timing>, s: State, es: seq<Event>)
    decreases |es|
  {
    es == [] || (Legal(ts, s, es[0]) && LegalRun(ts, Step(ts, s, es[0]), es[1..]))
  }

  ghost function Run(ts: seq<Timing>, s: State, es: seq<Event>): State
    requires LegalRun(ts, s, es)
    decreases |es|
  {
    if es == [] then s else Run(ts, Step(ts, s, es[0]), es[1..])
  }

  ghost function Start(ts: seq<Timing>): State {
    State(0, [], seq(|ts|, i => 0))
  }

  ghost predicate MeetsDeadlines(s: State) {
    forall i :: 0 <= i < |s.queue| ==> s.now < s.queue[i].deadline
  }

  /** No run, whatever its releases, leaves a job unfinished at its deadline. */
  ghost predicate AlwaysMeetsDeadlines(ts: seq<Timing>) {
    forall es :: LegalRun(ts, Start(ts), es) ==> MeetsDeadlines(Run(ts, Start(ts), es))
  }

  // ---------------------------------------------------------------- pending work

  /** Unfinished work with deadline at most `d`. */
  ghost function Work(q: seq<Job>, d: nat): nat {
    if q == [] then 0 else WorkOf(q[0], d) + Work(q[1..], d)
  }

  ghost function WorkOf(j: Job, d: nat): nat {
    if j.deadline <= d then j.remaining else 0
  }

  lemma WorkConcat(a: seq<Job>, b: seq<Job>, d: nat)
    ensures Work(a + b, d) == Work(a, d) + Work(b, d)
  {
    if a == [] {
      assert a + b == b;
    } else {
      assert (a + b)[1..] == a[1..] + b;
      WorkConcat(a[1..], b, d);
    }
  }

  lemma WorkInsert(q: seq<Job>, j: Job, d: nat)
    ensures Work(Insert(q, j, DeadlineOf), d) == Work(q, d) + WorkOf(j, d)
  {
    var p := InsertPos(q, j, DeadlineOf);
    WorkConcat([j], q[p..], d);
    WorkConcat(q[..p], [j] + q[p..], d);
    WorkConcat(q[..p], q[p..], d);
    assert q[..p] + q[p..] == q && q[..p] + [j] + q[p..] == q[..p] + ([j] + q[p..]);
  }

  ghost predicate Pending(q: seq<Job>) {
    Sorted(q, DeadlineOf) && forall i :: 0 <= i < |q| ==> 0 < q[i].remaining
  }

  lemma NoWorkBeyond(q: seq<Job>, d: nat)
    requires forall i :: 0 <= i < |q| ==> q[i].deadline > d
    ensures Work(q, d) == 0
  {
  }

  /** The head has the earliest deadline, so a step reduces any work that is left. */
  lemma ExecuteWork(q: seq<Job>, d: nat)
    requires Pending(q)
    ensures Pending(Execute(q))
    ensures Work(Execute(q), d) == if Work(q, d) == 0 then 0 else Work(q, d) - 1
  {
    if q != [] {
      if q[0].deadline > d {
        assert forall i :: 0 <= i < |q| ==> DeadlineOf(q[0]) <= DeadlineOf(q[i]);
        NoWorkBeyond(q, d);
        NoWorkBeyond(q[1..], d);
      }
      assert q[0].remaining > 1 ==> Execute(q)[1..] == q[1..];
    }
  }

  lemma InsertPending(q: seq<Job>, j: Job)
    requires Pending(q) && 0 < j.remaining
    ensures Pending(Insert(q, j, DeadlineOf))
  {
    InsertSorted(q, j, DeadlineOf);
  }

  lemma {:induction false} WorkCovers(q: seq<Job>, i: nat, d: nat)
    requires i < |q| && q[i].deadline <= d
    ensures q[i].remaining <= Work(q, d)
  {
    if i > 0 {
      WorkCovers(q[1..], i - 1, d);
    }
  }

  lemma {:induction false} WorkIsSomeJob(q: seq<Job>, d: nat)
    requires 0 < Work(q, d)
    ensures exists i :: 0 <= i < |q| && q[i].deadline <= d
  {
    if q[0].deadline > d {
      WorkIsSomeJob(q[1..], d);
      var i :| 0 <= i < |q[1..]| && q[1..][i].deadline <= d;
      assert q[i + 1].deadline <= d;
    }
  }

  // ---------------------------------------------------------------- what may still arrive

  /** The most work of `p` released from `a` on with deadline at most `d`. */
  ghost function Claim(p: Timing, a: nat, d: nat): nat
    decreases d - a
  {
    if a + p.deadline <= d then p.wcet + Claim(p, a + p.period, d) else 0
  }

  lemma {:induction false} ClaimLater(p: Timing, a: nat, b: nat, d: nat)
    requires a <= b
    ensures Claim(p, b, d) <= Claim(p, a, d)
    decreases d - a
  {
    if b + p.deadline <= d {
      if a + p.period <= b {
        ClaimLater(p, a + p.period, b, d);
      } else {
        ClaimLater(p, a + p.period, b + p.period, d);
      }
    }
  }

  lemma {:induction false} ClaimShift(p: Timing, a: nat, d: nat, n: nat)
    requires n <= a <= d
    ensures Claim(p, a, d) == Claim(p, a - n, d - n)
    decreases d - a
  {
    if a + p.deadline <= d && a + p.period <= d {
      ClaimShift(p, a + p.period, d, n);
    }
  }

  /** The claims of the first `n` tasks, each from its own earliest release. */
  ghost function Claims(ts: seq<Timing>, now: nat, next: seq<nat>, d: nat, n: nat): nat
    requires n <= |ts| == |next|
  {
    if n == 0 then 0
    else Claims(ts, now, next, d, n - 1) + Claim(ts[n - 1], Max(now, next[n - 1]), d)
  }

  lemma ClaimsLater(ts: seq<Timing>, now: nat, now': nat, next: seq<nat>, d: nat, n: nat)
    requires n <= |ts| == |next| && now <= now'
    ensures Claims(ts, now', next, d, n) <= Claims(ts, now, next, d, n)
  {
    if n > 0 {
      ClaimsLater(ts, now, now', next, d, n - 1);
      ClaimLater(ts[n - 1], Max(now, next[n - 1]), Max(now', next[n - 1]), d);
    }
  }

  /** A release spends at least what it brings in, and no more when it is as long as allowed. */
  lemma ClaimsRelease(ts: seq<Timing>, s: State, e: Event, d: nat, n: nat)
    requires n <= |ts| == |s.next| && e.Release? && Legal(ts, s, e)
    ensures
      var brought := if e.task < n then WorkOf(JobOf(ts, s, e), d) else 0;
      var before, after := Claims(ts, s.now, s.next, d, n), Claims(ts, s.now, Step(ts, s, e).next, d, n);
      brought + after <= before && (e.cost == ts[e.task].wcet ==> brought + after == before)
  {
    if n > 0 {
      ClaimsRelease(ts, s, e, d, n - 1);
    }
  }

  // ---------------------------------------------------------------- soundness

  /** No interval is claimed for more work than it holds. */
  ghost predicate Supplies(ts: seq<Timing>) {
    forall L: nat :: Claims(ts, 0, Start(ts).next, L, |ts|) <= L
  }

  lemma ClaimsShift(ts: seq<Timing>, now: nat, next: seq<nat>, d: nat, n: nat)
    requires n <= |ts| == |next| && now <= d
    ensures Claims(ts, now, next, d, n) <= Claims(ts, 0, Start(ts).next, d - now, n)
  {
    if n > 0 {
      ClaimsShift(ts, now, next, d, n - 1);
      ClaimLater(ts[n - 1], now, Max(now, next[n - 1]), d);
      ClaimShift(ts[n - 1], now, d, now);
    }
  }

  /** Pending work by `d` plus what may still arrive by `d`. */
  ghost function Load(ts: seq<Timing>, s: State, d: nat): nat
    requires |ts| == |s.next|
  {
    Work(s.queue, d) + Claims(ts, s.now, s.next, d, |ts|)
  }

  /** The load by `d` fits before `d`. */
  ghost predicate Safe(ts: seq<Timing>, s: State, d: nat) {
    |s.next| == |ts| && Pending(s.queue) && (s.now <= d ==> Load(ts, s, d) <= d - s.now)
  }

  lemma ReleaseLoad(ts: seq<Timing>, s: State, e: Event, d: nat)
    requires |ts| == |s.next| && Pending(s.queue) && Legal(ts, s, e) && e.Release?
    ensures
      var s' := Step(ts, s, e);
      && Pending(s'.queue) && |s'.next| == |ts|
      && Load(ts, s', d) <= Load(ts, s, d)
      && (e.cost == ts[e.task].wcet ==> Load(ts, s', d) == Load(ts, s, d))
  {
    InsertPending(s.queue, JobOf(ts, s, e));
    WorkInsert(s.queue, JobOf(ts, s, e), d);
    ClaimsRelease(ts, s, e, d, |ts|);
  }

  /** Each step keeps the system safe for every horizon: a release only moves load, a busy
      tick pays one microsecond, and an idle tick restarts from what the supply promises. */
  lemma StepSafe(ts: seq<Timing>, s: State, e: Event, d: nat)
    requires Supplies(ts) && Safe(ts, s, d) && Legal(ts, s, e)
    ensures Safe(ts, Step(ts, s, e), d)
  {
    if e.Release? {
      ReleaseLoad(ts, s, e, d);
    } else {
      ExecuteWork(s.queue, d);
      if s.now + 1 <= d {
        if Work(s.queue, d) == 0 {
          ClaimsShift(ts, s.now + 1, s.next, d, |ts|);
        } else {
          ClaimsLater(ts, s.now, s.now + 1, s.next, d, |ts|);
        }
      }
    }
  }

  lemma {:induction false} RunSafe(ts: seq<Timing>, s: State, es: seq<Event>, d: nat)
    requires Supplies(ts) && Safe(ts, s, d) && LegalRun(ts, s, es)
    ensures Safe(ts, Run(ts, s, es), d)
    decreases |es|
  {
    if es != [] {
      StepSafe(ts, s, es[0], d);
      RunSafe(ts, Step(ts, s, es[0]), es[1..], d);
    }
  }

  /** EDF soundness: every job still in the queue is before its deadline. */
  lemma EdfMeetsDeadlines(ts: seq<Timing>, es: seq<Event>)
    requires Supplies(ts) && LegalRun(ts, Start(ts), es)
    ensures MeetsDeadlines(Run(ts, Start(ts), es))
  {
    var s := Run(ts, Start(ts), es);
    RunSafe(ts, Start(ts), es, s.now);
    forall i | 0 <= i < |s.queue| ensures s.now < s.queue[i].deadline {
      if s.queue[i].deadline <= s.now {
        WorkCovers(s.queue, i, s.now);
      }
    }
  }

  // ---------------------------------------------------------------- the supply is also necessary

  /** The tasks that may release now. */
  ghost function Ready(ts: seq<Timing>, s: State): set<nat>
    requires |s.next| == |ts|
  {
    set i: nat | i < |ts| && 0 < ts[i].wcet && s.next[i] <= s.now
  }

  lemma ClaimNothing(p: Timing, a: nat, d: nat)
    requires p.wcet == 0
    ensures Claim(p, a, d) == 0
    decreases d - a
  {
  }

  lemma ClaimsIdle(ts: seq<Timing>, s: State, d: nat, n: nat)
    requires n <= |ts| == |s.next| && Ready(ts, s) == {}
    ensures Claims(ts, s.now + 1, s.next, d, n) == Claims(ts, s.now, s.next, d, n)
    ensures d <= s.now ==> Claims(ts, s.now, s.next, d, n) == 0
  {
    if n > 0 {
      ClaimsIdle(ts, s, d, n - 1);
      assert n - 1 !in Ready(ts, s);
      if ts[n - 1].wcet == 0 {
        ClaimNothing(ts[n - 1], Max(s.now, s.next[n - 1]), d);
        ClaimNothing(ts[n - 1], Max(s.now + 1, s.next[n - 1]), d);
      }
    }
  }

  /** Releasing a job as early and as long as allowed, or ticking when none is left, loses no load. */
  lemma GreedyStep(ts: seq<Timing>, s: State, d: nat) returns (e: Event)
    requires |s.next| == |ts| && Pending(s.queue) && s.now <= d
    requires s.now < d || Ready(ts, s) != {}
    ensures Legal(ts, s, e)
    ensures
      var s' := Step(ts, s, e);
      && |s'.next| == |ts| && Pending(s'.queue) && s'.now <= d
      && Load(ts, s, d) + s.now <= Load(ts, s', d) + s'.now
      && (s.now < s'.now || (s.now == s'.now && Ready(ts, s') < Ready(ts, s)))
  {
    if i :| i in Ready(ts, s) {
      e := Release(i, ts[i].wcet);
      ReleaseLoad(ts, s, e, d);
      assert i !in Ready(ts, Step(ts, s, e)) && Ready(ts, Step(ts, s, e)) <= Ready(ts, s);
    } else {
      e := Tick;
      ClaimsIdle(ts, s, d, |ts|);
      ExecuteWork(s.queue, d);
    }
  }

  lemma {:induction false} GreedyRun(ts: seq<Timing>, s: State, d: nat) returns (es: seq<Event>)
    requires |s.next| == |ts| && Pending(s.queue) && s.now <= d
    ensures LegalRun(ts, s, es) && Run(ts, s, es).now == d
    ensures Load(ts, s, d) + s.now <= Work(Run(ts, s, es).queue, d) + d
    decreases d - s.now, Ready(ts, s)
  {
    if s.now == d && Ready(ts, s) == {} {
      ClaimsIdle(ts, s, d, |ts|);
      return [];
    }
    var e := GreedyStep(ts, s, d);
    var rest := GreedyRun(ts, Step(ts, s, e), d);
    es := [e] + rest;
    assert es[1..] == rest;
  }

  /** EDF meets every deadline in every run exactly when no interval is claimed too much. */
  lemma EdfMeetsDeadlinesIff(ts: seq<Timing>)
    ensures Supplies(ts) <==> AlwaysMeetsDeadlines(ts)
  {
    if Supplies(ts) {
      forall es | LegalRun(ts, Start(ts), es) ensures MeetsDeadlines(Run(ts, Start(ts), es)) {
        EdfMeetsDeadlines(ts, es);
      }
    } else {
      var d: nat :| Claims(ts, 0, Start(ts).next, d, |ts|) > d;
      var es := GreedyRun(ts, Start(ts), d);
      WorkIsSomeJob(Run(ts, Start(ts), es).queue, d);
      assert !MeetsDeadlines(Run(ts, Start(ts), es));
    }
  }
}

/** Fixed-priority execution on one CPU, one microsecond per step, FIFO within a priority, as long as no
    job is released before the one before it is done; `FpThreads` adds the jobs that are. If for every task
    its own work plus the interference of the tasks of higher or equal priority fits in its deadline, every
    job keeps room to finish in time. */
module FpSchedule {
  import opened SortedList
  import opened Arith

  datatype TimingRaw = Timing(prio: int, wcet: nat, period: nat, deadline: nat)
  type Timing = t: TimingRaw | 0 < t.period witness Timing(0, 0, 1, 0)

  datatype Job = Job(task: nat, prio: int, release: nat, remaining: nat)

  /** Lists are walked from the highest priority down. */
  function PrioKey(j: Job): int { -j.prio }

  datatype Event = Release(task: nat, cost: nat) | Tick

  /** `next[i]` is the earliest time at which task i may release again. */
  datatype State = State(now: nat, queue: seq<Job>, next: seq<nat>)

  /** Unfinished work of task `i`. */
  ghost function Rem(q: seq<Job>, i: nat): nat {
    if q == [] then 0 else (if q[0].task == i then q[0].remaining else 0) + Rem(q[1..], i)
  }

  ghost predicate Legal(ts: seq<Timing>, s: State, e: Event) {
    e.Release? ==>
      && e.task < |ts| == |s.next|
      && 0 < e.cost <= ts[e.task].wcet
      && s.next[e.task] <= s.now
      && Rem(s.queue, e.task) == 0
  }

  ghost function JobOf(ts: seq<Timing>, s: State, e: Event): Job
    requires Legal(ts, s, e) && e.Release?
  {
    Job(e.task, ts[e.task].prio, s.now, e.cost)
  }

  ghost function Step(ts: seq<Timing>, s: State, e: Event): State
    requires Legal(ts, s, e)
  {
    if e.Release? then
      State(s.now, Insert(s.queue, JobOf(ts, s, e), PrioKey), s.next[e.task := s.now + ts[e.task].period])
    else
      State(s.now + 1, Execute(s.queue), s.next)
  }

  ghost function Execute(q: seq<Job>): seq<Job> {
    if q == [] then []
    else if q[0].remaining <= 1 then q[1..]
    else [q[0].(remaining := q[0].remaining - 1)] + q[1..]
  }

  ghost function Start(ts: seq<Timing>): State {
    State(0, [], seq(|ts|, i => 0))
  }

  ghost predicate MeetsDeadlines(ts: seq<Timing>, s: State) {
    forall k :: 0 <= k < |s.queue| ==>
                  s.queue[k].task < |ts| && s.now < s.queue[k].release + ts[s.queue[k].task].deadline
  }

  // ---------------------------------------------------------------- interference

  /** The most that jobs of `p` released from `a` on can execute before `e`. */
  ghost function Inter(p: Timing, a: nat, e: nat): nat
    decreases e - a
  {
    if a < e then Min(p.wcet, e - a) + Inter(p, a + p.period, e) else 0
  }

  lemma {:induction false} InterLater(p: Timing, a: nat, b: nat, e: nat)
    requires a <= b
    ensures Inter(p, b, e) <= Inter(p, a, e)
    decreases e - a
  {
    if b < e {
      if a + p.period <= b {
        InterLater(p, a + p.period, b, e);
      } else {
        InterLater(p, a + p.period, b + p.period, e);
      }
    }
  }

  lemma {:induction false} InterShift(p: Timing, a: nat, e: nat, n: nat)
    requires n <= a
    ensures Inter(p, a, n + e) == Inter(p, a - n, e)
    decreases n + e - a
  {
    if a < n + e {
      InterShift(p, a + p.period, e, n);
    }
  }

  /** The most that tasks above priority `pi` can execute before `e`: what they have pending
      and what they may still release; over the first `n` tasks. */
  ghost function Higher(ts: seq<Timing>, s: State, pi: int, e: nat, n: nat): nat
    requires n <= |ts| == |s.next| && s.now <= e
  {
    if n == 0 then 0
    else
      Higher(ts, s, pi, e, n - 1) +
      if ts[n - 1].prio > pi then Min(Rem(s.queue, n - 1), e - s.now) + Inter(ts[n - 1], Max(s.now, s.next[n - 1]), e)
      else 0
  }

  /** Interference with a deadline `L`: everything above `pi`, over the first `n` tasks. */
  ghost function HigherInter(ts: seq<Timing>, pi: int, L: nat, n: nat): nat
    requires n <= |ts|
  {
    if n == 0 then 0
    else HigherInter(ts, pi, L, n - 1) + if ts[n - 1].prio > pi then Inter(ts[n - 1], 0, L) else 0
  }

  /** One job of every task of priority `pi`. */
  ghost function PeerWork(ts: seq<Timing>, pi: int, n: nat): nat
    requires n <= |ts|
  {
    if n == 0 then 0 else PeerWork(ts, pi, n - 1) + if ts[n - 1].prio == pi then ts[n - 1].wcet else 0
  }

  /** The condition of the schedule for task `i`. */
  ghost predicate Fits(ts: seq<Timing>, i: nat)
    requires i < |ts|
  {
    HigherInter(ts, ts[i].prio, ts[i].deadline, |ts|) + PeerWork(ts, ts[i].prio, |ts|) <= ts[i].deadline
  }

  /** A task without work never releases a job. */
  ghost predicate AllFit(ts: seq<Timing>) {
    forall i :: 0 <= i < |ts| && 0 < ts[i].wcet ==> Fits(ts, i)
  }

  // ---------------------------------------------------------------- the queue

  ghost predicate WellFormed(ts: seq<Timing>, s: State) {
    && |s.next| == |ts|
    && Sorted(s.queue, PrioKey)
    && (forall k :: 0 <= k < |s.queue| ==>
                      && s.queue[k].task < |ts|
                      && s.queue[k].prio == ts[s.queue[k].task].prio
                      && 0 < s.queue[k].remaining)
    && (forall i :: 0 <= i < |ts| ==> Rem(s.queue, i) <= ts[i].wcet)
  }

  lemma {:induction q} RemInsert(q: seq<Job>, j: Job, i: nat)
    ensures Rem(Insert(q, j, PrioKey), i) == Rem(q, i) + if j.task == i then j.remaining else 0
  {
    InsertUnfold(q, j, PrioKey);
    if q != [] && PrioKey(j) >= PrioKey(q[0]) {
      RemInsert(q[1..], j, i);
      assert ([q[0]] + Insert(q[1..], j, PrioKey))[1..] == Insert(q[1..], j, PrioKey);
    } else {
      assert ([j] + q)[1..] == q;
    }
  }

  lemma RemExecute(q: seq<Job>, i: nat)
    requires q != [] && 0 < q[0].remaining
    ensures Rem(Execute(q), i) == Rem(q, i) - if q[0].task == i then 1 else 0
  {
    assert q[0].remaining > 1 ==> Execute(q)[1..] == q[1..];
  }

  lemma RemNone(q: seq<Job>, i: nat)
    requires forall k :: 0 <= k < |q| ==> q[k].task != i
    ensures Rem(q, i) == 0
  {
  }

  lemma StepWellFormed(ts: seq<Timing>, s: State, e: Event)
    requires WellFormed(ts, s) && Legal(ts, s, e)
    ensures WellFormed(ts, Step(ts, s, e))
  {
    if e.Release? {
      ReleaseWellFormed(ts, s, e);
    } else {
      TickWellFormed(ts, s);
    }
  }

  lemma ReleaseWellFormed(ts: seq<Timing>, s: State, e: Event)
    requires WellFormed(ts, s) && Legal(ts, s, e) && e.Release?
    ensures WellFormed(ts, Step(ts, s, e))
  {
    InsertSorted(s.queue, JobOf(ts, s, e), PrioKey);
    forall i | 0 <= i < |ts| ensures Rem(Step(ts, s, e).queue, i) <= ts[i].wcet {
      RemInsert(s.queue, JobOf(ts, s, e), i);
    }
  }

  lemma TickWellFormed(ts: seq<Timing>, s: State)
    requires WellFormed(ts, s)
    ensures WellFormed(ts, Step(ts, s, Tick))
  {
    var q := s.queue;
    if q != [] {
      forall i | 0 <= i < |ts| ensures Rem(Execute(q), i) <= ts[i].wcet {
        RemExecute(q, i);
      }
    }
  }

  // ---------------------------------------------------------------- a task's slack

  /** Before `e` there is room for all higher work and one job of each peer of task `i`. */
  ghost predicate Slack(ts: seq<Timing>, s: State, i: nat, e: nat)
    requires i < |ts| == |s.next|
  {
    && s.now <= e <= s.now + ts[i].deadline
    && Higher(ts, s, ts[i].prio, e, |ts|) + PeerWork(ts, ts[i].prio, |ts|) <= e - s.now
  }

  lemma HigherIdle(ts: seq<Timing>, s: State, pi: int, L: nat, n: nat)
    requires n <= |ts| == |s.next|
    requires forall j :: 0 <= j < |ts| && ts[j].prio > pi ==> Rem(s.queue, j) == 0
    ensures Higher(ts, s, pi, s.now + L, n) <= HigherInter(ts, pi, L, n)
  {
    if n > 0 {
      HigherIdle(ts, s, pi, L, n - 1);
      InterLater(ts[n - 1], s.now, Max(s.now, s.next[n - 1]), s.now + L);
      InterShift(ts[n - 1], s.now, L, s.now);
    }
  }

  /** With no higher work pending, the schedule condition restores the full slack. */
  lemma FreshSlack(ts: seq<Timing>, s: State, i: nat)
    requires i < |ts| == |s.next| && Fits(ts, i)
    requires forall j :: 0 <= j < |ts| && ts[j].prio > ts[i].prio ==> Rem(s.queue, j) == 0
    ensures Slack(ts, s, i, s.now + ts[i].deadline)
  {
    HigherIdle(ts, s, ts[i].prio, ts[i].deadline, |ts|);
  }

  lemma HigherRelease(ts: seq<Timing>, s: State, ev: Event, pi: int, e: nat, n: nat)
    requires WellFormed(ts, s) && Legal(ts, s, ev) && ev.Release? && s.now <= e && n <= |ts|
    ensures Higher(ts, Step(ts, s, ev), pi, e, n) <= Higher(ts, s, pi, e, n)
  {
    if n > 0 {
      HigherRelease(ts, s, ev, pi, e, n - 1);
      RemInsert(s.queue, JobOf(ts, s, ev), n - 1);
      if ev.task == n - 1 && s.now < e {
        assert Inter(ts[n - 1], s.now, e) ==
               Min(ts[n - 1].wcet, e - s.now) + Inter(ts[n - 1], s.now + ts[n - 1].period, e);
      }
    }
  }

  /** A tick that serves a task above `pi` pays for itself; any other tick costs nothing. */
  lemma HigherTick(ts: seq<Timing>, s: State, pi: int, e: nat, n: nat)
    requires WellFormed(ts, s) && s.now < e && n <= |ts|
    ensures
      var served := s.queue != [] && s.queue[0].prio > pi && s.queue[0].task < n;
      Higher(ts, Step(ts, s, Tick), pi, e, n) + (if served then 1 else 0) <= Higher(ts, s, pi, e, n)
  {
    if n > 0 {
      HigherTick(ts, s, pi, e, n - 1);
      if s.queue != [] {
        RemExecute(s.queue, n - 1);
      }
      InterLater(ts[n - 1], Max(s.now, s.next[n - 1]), Max(s.now + 1, s.next[n - 1]), e);
    }
  }

  lemma {:induction false} NoneAbove(ts: seq<Timing>, q: seq<Job>, pi: int, j: nat)
    requires Sorted(q, PrioKey) && (q == [] || q[0].prio <= pi)
    requires forall k :: 0 <= k < |q| ==> q[k].task < |ts| && q[k].prio == ts[q[k].task].prio
    requires j < |ts| && ts[j].prio > pi
    ensures Rem(q, j) == 0
  {
    forall k | 0 <= k < |q| ensures q[k].task != j {
      assert PrioKey(q[0]) <= PrioKey(q[k]);
    }
    RemNone(q, j);
  }

  /** Slack is never lost: higher work pays for its ticks, and any other tick finds no higher
      work pending. */
  lemma SlackKept(ts: seq<Timing>, s: State, ev: Event, i: nat, e: nat) returns (e': nat)
    requires WellFormed(ts, s) && Legal(ts, s, ev)
    requires i < |ts| && 0 < ts[i].wcet && Fits(ts, i) && Slack(ts, s, i, e)
    ensures Slack(ts, Step(ts, s, ev), i, e')
  {
    var pi, q, s' := ts[i].prio, s.queue, Step(ts, s, ev);
    StepWellFormed(ts, s, ev);
    if ev.Release? {
      HigherRelease(ts, s, ev, pi, e, |ts|);
      e' := e;
    } else if q != [] && q[0].prio > pi {
      PeerPositive(ts, i, |ts|);
      HigherTick(ts, s, pi, e, |ts|);
      e' := e;
    } else {
      forall j | 0 <= j < |ts| && ts[j].prio > pi ensures Rem(s'.queue, j) == 0 {
        NoneAbove(ts, q, pi, j);
        if q != [] {
          RemExecute(q, j);
        }
      }
      FreshSlack(ts, s', i);
      e' := s'.now + ts[i].deadline;
    }
  }

  lemma PeerPositive(ts: seq<Timing>, i: nat, n: nat)
    requires i < n <= |ts|
    ensures ts[i].wcet <= PeerWork(ts, ts[i].prio, n)
  {
  }

  // ---------------------------------------------------------------- a pending job

  /** Work of priority `pi` in the queue up to and including the job of task `i`. */
  ghost function Front(q: seq<Job>, pi: int, i: nat): nat {
    if q == [] then 0
    else if q[0].task == i then q[0].remaining
    else (if q[0].prio == pi then q[0].remaining else 0) + Front(q[1..], pi, i)
  }

  ghost predicate Queued(q: seq<Job>, i: nat) {
    exists k :: 0 <= k < |q| && q[k].task == i
  }

  /** The job of task `i` released at `r` finishes within its deadline: before some `e` there
      is room for all higher work, the peers ahead of it and the job itself. */
  ghost predicate OnTime(ts: seq<Timing>, s: State, i: nat, r: nat, e: nat)
    requires i < |ts| == |s.next|
  {
    && s.now <= e <= r + ts[i].deadline
    && Higher(ts, s, ts[i].prio, e, |ts|) + Front(s.queue, ts[i].prio, i) <= e - s.now
  }

  /** A later release of another task stays behind, or out of the way of, the job. */
  lemma {:induction false} FrontInsert(q: seq<Job>, j: Job, pi: int, i: nat)
    requires Queued(q, i) && Sorted(q, PrioKey) && j.task != i
    requires forall k :: 0 <= k < |q| && q[k].task == i ==> q[k].prio == pi
    ensures Front(Insert(q, j, PrioKey), pi, i) <= Front(q, pi, i)
  {
    InsertUnfold(q, j, PrioKey);
    var k :| 0 <= k < |q| && q[k].task == i;
    if PrioKey(j) < PrioKey(q[0]) {
      assert ([j] + q)[1..] == q;
      assert PrioKey(q[0]) <= PrioKey(q[k]);
    } else {
      assert ([q[0]] + Insert(q[1..], j, PrioKey))[1..] == Insert(q[1..], j, PrioKey);
      if q[0].task != i {
        assert q[1..][k - 1].task == i;
        FrontInsert(q[1..], j, pi, i);
      }
    }
  }

  /** A tick that finds no higher work serves the job or a peer ahead of it. */
  lemma FrontExecute(q: seq<Job>, pi: int, i: nat)
    requires Queued(q, i) && Sorted(q, PrioKey) && 0 < q[0].remaining
    requires forall k :: 0 <= k < |q| && q[k].task == i ==> q[k].prio == pi
    requires forall k :: 0 < k < |q| ==> q[0].task == i ==> q[k].task != i
    ensures q[0].prio > pi ==> Front(Execute(q), pi, i) == Front(q, pi, i)
    ensures q[0].prio <= pi && Queued(Execute(q), i) ==> Front(Execute(q), pi, i) == Front(q, pi, i) - 1
  {
    var k :| 0 <= k < |q| && q[k].task == i;
    assert PrioKey(q[0]) <= PrioKey(q[k]);
    if q[0].remaining > 1 {
      assert Execute(q)[1..] == q[1..];
    } else if q[0].task == i {
      assert !Queued(q[1..], i);
    }
  }

  /** At its release a job stands behind at most one job of each peer. */
  lemma {:induction false} FrontAtRelease(q: seq<Job>, j: Job, pi: int)
    requires j.prio == pi && Rem(q, j.task) == 0
    requires forall k :: 0 <= k < |q| ==> 0 < q[k].remaining
    ensures Front(Insert(q, j, PrioKey), pi, j.task) <= PrioWork(q, pi) + j.remaining
  {
    InsertUnfold(q, j, PrioKey);
    if q != [] && PrioKey(j) >= PrioKey(q[0]) {
      assert ([q[0]] + Insert(q[1..], j, PrioKey))[1..] == Insert(q[1..], j, PrioKey);
      FrontAtRelease(q[1..], j, pi);
    }
  }

  ghost function PrioWork(q: seq<Job>, pi: int): nat {
    if q == [] then 0 else (if q[0].prio == pi then q[0].remaining else 0) + PrioWork(q[1..], pi)
  }

  /** Pending work of the peers, counted by task; over the first `n` tasks. */
  ghost function PeerRem(ts: seq<Timing>, q: seq<Job>, pi: int, n: nat): nat
    requires n <= |ts|
  {
    if n == 0 then 0 else PeerRem(ts, q, pi, n - 1) + if ts[n - 1].prio == pi then Rem(q, n - 1) else 0
  }

  lemma PeerRemHead(ts: seq<Timing>, q: seq<Job>, pi: int, n: nat)
    requires q != [] && n <= |ts| && q[0].task < |ts| && q[0].prio == ts[q[0].task].prio
    ensures PeerRem(ts, q, pi, n) == PeerRem(ts, q[1..], pi, n) +
                                     if q[0].task < n && q[0].prio == pi then q[0].remaining else 0
  {
  }

  lemma {:induction false} PrioWorkByTask(ts: seq<Timing>, q: seq<Job>, pi: int)
    requires forall k :: 0 <= k < |q| ==> q[k].task < |ts| && q[k].prio == ts[q[k].task].prio
    ensures PrioWork(q, pi) == PeerRem(ts, q, pi, |ts|)
  {
    if q == [] {
      PeerRemEmpty(ts, pi, |ts|);
    } else {
      PrioWorkByTask(ts, q[1..], pi);
      PeerRemHead(ts, q, pi, |ts|);
    }
  }

  lemma PeerRemEmpty(ts: seq<Timing>, pi: int, n: nat)
    requires n <= |ts|
    ensures PeerRem(ts, [], pi, n) == 0
  {
  }

  lemma PeerRemBound(ts: seq<Timing>, q: seq<Job>, i: nat, n: nat)
    requires n <= |ts| && i < |ts| && Rem(q, i) == 0
    requires forall j :: 0 <= j < |ts| ==> Rem(q, j) <= ts[j].wcet
    ensures PeerRem(ts, q, ts[i].prio, n) + (if i < n then ts[i].wcet else 0) <= PeerWork(ts, ts[i].prio, n)
  {
  }

  lemma {:induction false} FrontPositive(q: seq<Job>, pi: int, i: nat)
    requires Queued(q, i) && forall k :: 0 <= k < |q| ==> 0 < q[k].remaining
    ensures 0 < Front(q, pi, i)
  {
    var k :| 0 <= k < |q| && q[k].task == i;
    if q[0].task != i {
      assert q[1..][k - 1].task == i;
      FrontPositive(q[1..], pi, i);
    }
  }

  ghost predicate OnePerTask(q: seq<Job>) {
    forall k, l :: 0 <= k < l < |q| ==> q[k].task != q[l].task
  }

  lemma {:induction false} RemZero(q: seq<Job>, k: nat)
    requires k < |q|
    ensures q[k].remaining <= Rem(q, q[k].task)
  {
    if k > 0 {
      RemZero(q[1..], k - 1);
    }
  }

  lemma StepOnePerTask(ts: seq<Timing>, s: State, ev: Event)
    requires WellFormed(ts, s) && OnePerTask(s.queue) && Legal(ts, s, ev)
    ensures OnePerTask(Step(ts, s, ev).queue)
  {
    if ev.Release? {
      var q, j := s.queue, JobOf(ts, s, ev);
      forall k | 0 <= k < |q| ensures q[k].task != j.task {
        RemZero(q, k);
      }
      var p := InsertPos(q, j, PrioKey);
      assert Insert(q, j, PrioKey) == q[..p] + [j] + q[p..];
    }
  }

  lemma OnTimeKept(ts: seq<Timing>, s: State, ev: Event, i: nat, r: nat, e: nat)
    requires WellFormed(ts, s) && OnePerTask(s.queue) && Legal(ts, s, ev) && i < |ts|
    requires Queued(s.queue, i) && Queued(Step(ts, s, ev).queue, i) && OnTime(ts, s, i, r, e)
    ensures OnTime(ts, Step(ts, s, ev), i, r, e)
  {
    var pi, q := ts[i].prio, s.queue;
    FrontPositive(q, pi, i);
    if ev.Release? {
      var k :| 0 <= k < |q| && q[k].task == i;
      RemZero(q, k);
      HigherRelease(ts, s, ev, pi, e, |ts|);
      FrontInsert(q, JobOf(ts, s, ev), pi, i);
    } else {
      HigherTick(ts, s, pi, e, |ts|);
      FrontExecute(q, pi, i);
    }
  }

  lemma OnTimeAtRelease(ts: seq<Timing>, s: State, ev: Event, e: nat)
    requires WellFormed(ts, s) && Legal(ts, s, ev) && ev.Release? && Slack(ts, s, ev.task, e)
    ensures OnTime(ts, Step(ts, s, ev), ev.task, s.now, e)
  {
    var i, j := ev.task, JobOf(ts, s, ev);
    HigherRelease(ts, s, ev, ts[i].prio, e, |ts|);
    FrontAtRelease(s.queue, j, ts[i].prio);
    PrioWorkByTask(ts, s.queue, ts[i].prio);
    PeerRemBound(ts, s.queue, i, |ts|);
  }

  // ---------------------------------------------------------------- soundness

  ghost predicate HasSlack(ts: seq<Timing>, s: State, i: nat)
    requires i < |ts| == |s.next|
  {
    exists e: nat :: Slack(ts, s, i, e)
  }

  ghost predicate WillFinish(ts: seq<Timing>, s: State, j: Job)
    requires j.task < |ts| == |s.next|
  {
    exists e: nat :: OnTime(ts, s, j.task, j.release, e)
  }

  ghost predicate Inv(ts: seq<Timing>, s: State) {
    && WellFormed(ts, s)
    && OnePerTask(s.queue)
    && (forall i :: 0 <= i < |ts| && 0 < ts[i].wcet ==> HasSlack(ts, s, i))
    && (forall j :: j in s.queue ==> WillFinish(ts, s, j))
  }

  lemma StepKeepsSlack(ts: seq<Timing>, s: State, ev: Event, i: nat)
    requires WellFormed(ts, s) && Legal(ts, s, ev)
    requires i < |ts| && 0 < ts[i].wcet && Fits(ts, i) && HasSlack(ts, s, i)
    ensures HasSlack(ts, Step(ts, s, ev), i)
  {
    var e: nat :| Slack(ts, s, i, e);
    var e' := SlackKept(ts, s, ev, i, e);
  }

  lemma StepKeepsJob(ts: seq<Timing>, s: State, ev: Event, j: Job)
    requires Inv(ts, s) && Legal(ts, s, ev) && j in Step(ts, s, ev).queue
    requires j.task < |ts|
    ensures WillFinish(ts, Step(ts, s, ev), j)
  {
    var s' := Step(ts, s, ev);
    if ev.Release? && j == JobOf(ts, s, ev) {
      assert HasSlack(ts, s, ev.task);
      var e: nat :| Slack(ts, s, ev.task, e);
      OnTimeAtRelease(ts, s, ev, e);
      assert OnTime(ts, s', j.task, j.release, e);
    } else {
      var was := Before(ts, s, ev, j);
      assert WillFinish(ts, s, was);
      var e: nat :| OnTime(ts, s, was.task, was.release, e);
      OnTimeKept(ts, s, ev, j.task, j.release, e);
    }
  }

  lemma Before(ts: seq<Timing>, s: State, ev: Event, j: Job) returns (was: Job)
    requires Legal(ts, s, ev) && j in Step(ts, s, ev).queue
    requires ev.Release? ==> j != JobOf(ts, s, ev)
    ensures was in s.queue && was.task == j.task && was.release == j.release
  {
    var q := s.queue;
    if ev.Release? {
      InsertBag(q, JobOf(ts, s, ev), PrioKey);
      assert j in multiset(q) + multiset{JobOf(ts, s, ev)} by {
        assert j in multiset(Insert(q, JobOf(ts, s, ev), PrioKey));
      }
      was := j;
    } else {
      was := if j in q then j else q[0];
    }
  }

  lemma StepInv(ts: seq<Timing>, s: State, ev: Event)
    requires Inv(ts, s) && Legal(ts, s, ev) && AllFit(ts)
    ensures Inv(ts, Step(ts, s, ev))
  {
    var s' := Step(ts, s, ev);
    StepWellFormed(ts, s, ev);
    StepOnePerTask(ts, s, ev);
    forall i | 0 <= i < |ts| && 0 < ts[i].wcet ensures HasSlack(ts, s', i) {
      StepKeepsSlack(ts, s, ev, i);
    }
    forall j | j in s'.queue ensures WillFinish(ts, s', j) {
      StepKeepsJob(ts, s, ev, j);
    }
  }

  /** Nothing is pending at the start. */
  lemma StartInv(ts: seq<Timing>)
    requires AllFit(ts)
    ensures Inv(ts, Start(ts))
  {
    forall i | 0 <= i < |ts| && 0 < ts[i].wcet ensures HasSlack(ts, Start(ts), i) {
      FreshSlack(ts, Start(ts), i);
    }
  }

  /** A job that will finish in time has not missed its deadline. */
  lemma InvMeets(ts: seq<Timing>, s: State)
    requires Inv(ts, s)
    ensures MeetsDeadlines(ts, s)
  {
    forall k | 0 <= k < |s.queue| ensures s.now < s.queue[k].release + ts[s.queue[k].task].deadline {
      var j := s.queue[k];
      assert WillFinish(ts, s, j);
      var e: nat :| OnTime(ts, s, j.task, j.release, e);
      FrontPositive(s.queue, ts[j.task].prio, j.task);
    }
  }
}

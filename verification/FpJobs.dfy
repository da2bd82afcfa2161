/** Fixed-priority threads seen by task: the pending jobs of each task, oldest first. A release appends one,
    and a tick serves the oldest job of a task of the highest priority that has any. */
module FpJobs {
  import opened SortedList
  import opened FpThreads
  import opened FpSchedule

  /** The pending jobs of every task, and the task that the next tick serves, if any. */
  datatype View = View(now: nat, next: seq<nat>, jobs: seq<seq<Job>>, served: nat)

  /** The next tick serves a task of the highest priority among those with pending work, and none only if
      there is no work. */
  ghost predicate Fair(ts: seq<Timing>, s: View) {
    && |s.next| == |s.jobs| == |ts|
    && (forall i, k :: 0 <= i < |ts| && 0 <= k < |s.jobs[i]| ==> 0 < s.jobs[i][k].remaining)
    && (s.served < |ts| ==> s.jobs[s.served] != [])
    && forall i :: 0 <= i < |ts| && (s.served < |ts| ==> ts[s.served].prio < ts[i].prio) ==> s.jobs[i] == []
  }

  /** View `s'` is what a release of task `i` makes of `s`. */
  ghost predicate AfterRelease(ts: seq<Timing>, s: View, s': View, i: nat, cost: nat) {
    && Fair(ts, s) && Fair(ts, s') && i < |ts| && 0 < cost <= ts[i].wcet && s.next[i] <= s.now
    && s'.now == s.now && s'.next == s.next[i := s.now + ts[i].period]
    && s'.jobs == s.jobs[i := s.jobs[i] + [Job(i, ts[i].prio, s.now, cost)]]
  }

  /** View `s'` is what a tick makes of `s`. */
  ghost predicate AfterTick(ts: seq<Timing>, s: View, s': View) {
    && Fair(ts, s) && Fair(ts, s') && s'.now == s.now + 1 && s'.next == s.next
    && s'.jobs == if s.served < |ts| then s.jobs[s.served := Execute(s.jobs[s.served])] else s.jobs
  }

  /** No pending job has reached its deadline. */
  ghost predicate InTime(ts: seq<Timing>, s: View)
    requires |s.jobs| == |ts|
  {
    forall i, k :: 0 <= i < |ts| && 0 <= k < |s.jobs[i]| ==> s.now < s.jobs[i][k].release + ts[i].deadline
  }

  // ---------------------------------------------------------------- the threads by task

  /** The job of a task in the queue, if there is one. */
  ghost function Current(q: seq<Job>, i: nat): seq<Job> {
    if q == [] then [] else if q[0].task == i then [q[0]] else Current(q[1..], i)
  }

  ghost function Jobs(s: FpThreads.State, i: nat): seq<Job>
    requires i < |s.late|
  {
    Current(s.cpu.queue, i) + s.late[i]
  }

  ghost function ViewOf(s: FpThreads.State): View {
    View(s.cpu.now, s.cpu.next, seq(|s.late|, i requires 0 <= i < |s.late| => Jobs(s, i)),
         if s.cpu.queue == [] then |s.late| else s.cpu.queue[0].task)
  }

  ghost predicate OfTask(ts: seq<Timing>, js: seq<Job>, i: nat)
    requires i < |ts|
  {
    forall k :: 0 <= k < |js| ==> js[k].task == i && js[k].prio == ts[i].prio && 0 < js[k].remaining
  }

  ghost predicate QueueOk(ts: seq<Timing>, q: seq<Job>) {
    && Sorted(q, PrioKey) && OnePerTask(q)
    && forall k :: 0 <= k < |q| ==> q[k].task < |ts| && q[k].prio == ts[q[k].task].prio && 0 < q[k].remaining
  }

  /** Only a task with a job in the queue is late for more. */
  ghost predicate Ordered(ts: seq<Timing>, s: FpThreads.State) {
    && |s.cpu.next| == |s.late| == |ts| && QueueOk(ts, s.cpu.queue)
    && forall i :: 0 <= i < |ts| ==> OfTask(ts, s.late[i], i) && (Current(s.cpu.queue, i) == [] ==> s.late[i] == [])
  }

  lemma {:induction false} CurrentNone(q: seq<Job>, i: nat)
    ensures Current(q, i) == [] <==> forall k :: 0 <= k < |q| ==> q[k].task != i
    ensures Current(q, i) != [] ==> Current(q, i)[0] in q && Current(q, i)[0].task == i && |Current(q, i)| == 1
  {
    if q != [] {
      CurrentNone(q[1..], i);
      assert forall k :: 1 <= k < |q| ==> q[1..][k - 1] == q[k];
    }
  }

  lemma {:induction false} RemCurrent(q: seq<Job>, i: nat)
    requires forall k :: 0 <= k < |q| ==> 0 < q[k].remaining
    ensures Rem(q, i) == 0 <==> Current(q, i) == []
  {
    if q != [] {
      RemCurrent(q[1..], i);
    }
  }

  lemma {:induction false} CurrentInsert(q: seq<Job>, j: Job, i: nat)
    requires Current(q, j.task) == []
    ensures Current(Insert(q, j, PrioKey), i) == if i == j.task then [j] else Current(q, i)
  {
    InsertUnfold(q, j, PrioKey);
    if q != [] && PrioKey(j) >= PrioKey(q[0]) {
      CurrentInsert(q[1..], j, i);
      assert ([q[0]] + Insert(q[1..], j, PrioKey))[1..] == Insert(q[1..], j, PrioKey);
    } else {
      assert ([j] + q)[1..] == q;
    }
  }

  lemma CurrentExecute(q: seq<Job>, i: nat)
    requires q != [] && OnePerTask(q)
    ensures Current(Execute(q), i) == if q[0].task == i then Execute([q[0]]) else Current(q, i)
  {
    if q[0].remaining > 1 {
      assert Execute(q)[1..] == q[1..];
    } else if q[0].task == i {
      CurrentNone(q[1..], i);
    }
  }

  lemma InsertOk(ts: seq<Timing>, q: seq<Job>, j: Job)
    requires QueueOk(ts, q) && Current(q, j.task) == []
    requires j.task < |ts| && j.prio == ts[j.task].prio && 0 < j.remaining
    ensures QueueOk(ts, Insert(q, j, PrioKey))
  {
    CurrentNone(q, j.task);
    InsertSorted(q, j, PrioKey);
    var p := InsertPos(q, j, PrioKey);
    assert Insert(q, j, PrioKey) == q[..p] + [j] + q[p..];
  }

  lemma TailOk(ts: seq<Timing>, q: seq<Job>)
    requires QueueOk(ts, q) && q != []
    ensures QueueOk(ts, q[1..])
  {
  }

  lemma ServeOk(ts: seq<Timing>, q: seq<Job>, j: Job)
    requires QueueOk(ts, q) && q != [] && j.task == q[0].task && j.prio == q[0].prio && 0 < j.remaining
    ensures QueueOk(ts, q[0 := j])
  {
    var r := q[0 := j];
    assert forall k :: 0 <= k < |q| ==> r[k].task == q[k].task && PrioKey(r[k]) == PrioKey(q[k]);
    assert forall k, l :: 0 <= k < l < |q| ==> r[k].task != r[l].task;
    assert forall k, l :: 0 <= k < l < |q| ==> PrioKey(r[k]) <= PrioKey(r[l]);
  }

  lemma ExecuteOk(ts: seq<Timing>, q: seq<Job>)
    requires QueueOk(ts, q)
    ensures QueueOk(ts, Execute(q))
  {
    if q != [] {
      TailOk(ts, q);
      if q[0].remaining > 1 {
        ServeOk(ts, q, q[0].(remaining := q[0].remaining - 1));
        assert Execute(q) == q[0 := q[0].(remaining := q[0].remaining - 1)];
      }
    }
  }

  // ---------------------------------------------------------------- a release

  ghost function Arriving(ts: seq<Timing>, s: FpThreads.State, i: nat, cost: nat): Job
    requires i < |ts|
  {
    Job(i, ts[i].prio, s.cpu.now, cost)
  }

  /** A release appends a job, and the next one of the task is a period away. */
  lemma ReleaseJobs(ts: seq<Timing>, s: FpThreads.State, i: nat, cost: nat)
    requires Ordered(ts, s) && FpThreads.Legal(ts, s, FpThreads.Release(i, cost))
    ensures
      var s' := FpThreads.Step(ts, s, FpThreads.Release(i, cost));
      && Ordered(ts, s') && s'.cpu.now == s.cpu.now && s'.cpu.next == s.cpu.next[i := s.cpu.now + ts[i].period]
      && forall k :: 0 <= k < |ts| ==>
                       Jobs(s', k) == if k == i then Jobs(s, k) + [Arriving(ts, s, i, cost)] else Jobs(s, k)
  {
    var j, q := Arriving(ts, s, i, cost), s.cpu.queue;
    var s' := FpThreads.Step(ts, s, FpThreads.Release(i, cost));
    RemCurrent(q, i);
    if Current(q, i) == [] {
      InsertOk(ts, q, j);
      forall k | 0 <= k < |ts| ensures Current(s'.cpu.queue, k) == if k == i then [j] else Current(q, k) {
        CurrentInsert(q, j, k);
      }
    }
  }

  // ---------------------------------------------------------------- a tick

  /** What a tick leaves of the jobs of a task. */
  ghost function Left(s: FpThreads.State, i: nat): seq<Job>
    requires i < |s.late|
  {
    if s.cpu.queue != [] && s.cpu.queue[0].task == i then Execute(Jobs(s, i)) else Jobs(s, i)
  }

  lemma PushFront(ts: seq<Timing>, q: seq<Job>, j: Job)
    requires QueueOk(ts, q) && Current(q, j.task) == [] && (q == [] || q[0].prio <= j.prio)
    requires j.task < |ts| && j.prio == ts[j.task].prio && 0 < j.remaining
    ensures QueueOk(ts, [j] + q) && forall i :: Current([j] + q, i) == if i == j.task then [j] else Current(q, i)
  {
    CurrentNone(q, j.task);
    assert ([j] + q)[1..] == q;
    var r := [j] + q;
    assert forall k :: 0 < k < |r| ==> r[k] == q[k - 1] && PrioKey(q[0]) <= PrioKey(q[k - 1]);
  }

  /** A tick serves the oldest job of the task at the head of the queue. */
  lemma TickJobs(ts: seq<Timing>, s: FpThreads.State, stays: bool)
    requires Ordered(ts, s)
    ensures
      var s' := TickOf(ts, s, stays);
      && Ordered(ts, s') && s'.cpu.now == s.cpu.now + 1 && s'.cpu.next == s.cpu.next
      && forall k :: 0 <= k < |ts| ==> Jobs(s', k) == Left(s, k)
  {
    var q := s.cpu.queue;
    ExecuteOk(ts, q);
    if q != [] {
      HeadJobs(s, q[0].task);
      forall k | 0 <= k < |ts|
        ensures Current(Execute(q), k) == if q[0].task == k then Execute([q[0]]) else Current(q, k)
      {
        CurrentExecute(q, k);
      }
      if GoesOn(s) {
        GoesOnJobs(ts, s, stays);
      }
    }
  }

  lemma HeadJobs(s: FpThreads.State, i: nat)
    requires i < |s.late| && s.cpu.queue != [] && s.cpu.queue[0].task == i
    ensures Jobs(s, i) == [s.cpu.queue[0]] + s.late[i]
    ensures Execute(Jobs(s, i)) == Execute([s.cpu.queue[0]]) + s.late[i]
  {
    assert ([s.cpu.queue[0]] + s.late[i])[1..] == s.late[i];
  }

  lemma GoesOnJobs(ts: seq<Timing>, s: FpThreads.State, stays: bool)
    requires Ordered(ts, s) && GoesOn(s) && QueueOk(ts, Execute(s.cpu.queue))
    requires forall k :: 0 <= k < |ts| ==>
                           Current(Execute(s.cpu.queue), k) ==
                           if s.cpu.queue[0].task == k then Execute([s.cpu.queue[0]]) else Current(s.cpu.queue, k)
    ensures
      var s', i := TickOf(ts, s, stays), s.cpu.queue[0].task;
      && Ordered(ts, s')
      && forall k :: 0 <= k < |ts| ==> Jobs(s', k) == if k == i then s.late[i] else Jobs(s, k)
  {
    var q, i := s.cpu.queue, s.cpu.queue[0].task;
    var j := s.late[i][0];
    assert OfTask(ts, s.late[i], i);
    assert Execute([q[0]]) == [];
    if stays {
      assert Execute(q) != [] ==> PrioKey(q[0]) <= PrioKey(q[1]);
      PushFront(ts, Execute(q), j);
    } else {
      InsertOk(ts, Execute(q), j);
    }
    forall k | 0 <= k < |ts|
      ensures Current(TickOf(ts, s, stays).cpu.queue, k) == if k == i then [j] else Current(q, k)
    {
      if !stays {
        CurrentInsert(Execute(q), j, k);
      }
    }
    assert [j] + s.late[i][1..] == s.late[i];
  }

  /** Nothing of higher priority than the head of the queue is pending, and nothing at all without one. */
  lemma NothingAbove(ts: seq<Timing>, s: FpThreads.State, i: nat)
    requires Ordered(ts, s) && i < |ts|
    requires s.cpu.queue == [] || s.cpu.queue[0].prio < ts[i].prio
    ensures Jobs(s, i) == []
  {
    var q := s.cpu.queue;
    CurrentNone(q, i);
    forall k | 0 <= k < |q| ensures q[k].task != i {
      assert PrioKey(q[0]) <= PrioKey(q[k]);
    }
  }

  lemma JobsOfTask(ts: seq<Timing>, s: FpThreads.State, i: nat)
    requires Ordered(ts, s) && i < |ts|
    ensures OfTask(ts, Jobs(s, i), i)
  {
    CurrentNone(s.cpu.queue, i);
  }

  /** The head of the queue is a pending job of highest priority. */
  lemma ViewIsFair(ts: seq<Timing>, s: FpThreads.State)
    requires Ordered(ts, s)
    ensures Fair(ts, ViewOf(s))
  {
    forall i | 0 <= i < |ts| ensures forall k :: 0 <= k < |Jobs(s, i)| ==> 0 < Jobs(s, i)[k].remaining {
      JobsOfTask(ts, s, i);
    }
    forall i | 0 <= i < |ts| && (s.cpu.queue == [] || s.cpu.queue[0].prio < ts[i].prio) ensures Jobs(s, i) == [] {
      NothingAbove(ts, s, i);
    }
  }

  /** What the threads do on a release, seen by task. */
  lemma ReleaseRefines(ts: seq<Timing>, s: FpThreads.State, i: nat, cost: nat)
    requires Ordered(ts, s) && FpThreads.Legal(ts, s, FpThreads.Release(i, cost))
    ensures
      var s' := FpThreads.Step(ts, s, FpThreads.Release(i, cost));
      Ordered(ts, s') && AfterRelease(ts, ViewOf(s), ViewOf(s'), i, cost)
  {
    ReleaseJobs(ts, s, i, cost);
    ViewIsFair(ts, s);
    ViewIsFair(ts, FpThreads.Step(ts, s, FpThreads.Release(i, cost)));
    ViewGains(ts, s, FpThreads.Step(ts, s, FpThreads.Release(i, cost)), i, Arriving(ts, s, i, cost));
  }

  lemma ViewGains(ts: seq<Timing>, s: FpThreads.State, s': FpThreads.State, i: nat, j: Job)
    requires i < |ts| == |s.late| == |s'.late|
    requires forall k :: 0 <= k < |ts| ==> Jobs(s', k) == if k == i then Jobs(s, k) + [j] else Jobs(s, k)
    ensures ViewOf(s').jobs == ViewOf(s).jobs[i := ViewOf(s).jobs[i] + [j]]
  {
  }

  /** And on a tick. */
  lemma TickRefines(ts: seq<Timing>, s: FpThreads.State, stays: bool)
    requires Ordered(ts, s)
    ensures Ordered(ts, TickOf(ts, s, stays)) && AfterTick(ts, ViewOf(s), ViewOf(TickOf(ts, s, stays)))
  {
    TickJobs(ts, s, stays);
    ViewIsFair(ts, s);
    ViewIsFair(ts, TickOf(ts, s, stays));
  }

  /** Every job of the state is a pending job of its task. */
  lemma MeetsByTask(ts: seq<Timing>, s: FpThreads.State)
    requires Ordered(ts, s)
    ensures FpThreads.MeetsDeadlines(ts, s) <==> InTime(ts, ViewOf(s))
  {
    forall i | 0 <= i < |ts| ensures forall k :: 0 <= k < |s.late[i]| ==> s.late[i][k] in Jobs(s, i) {
      assert forall k :: 0 <= k < |s.late[i]| ==> s.late[i][k] == Jobs(s, i)[k + |Current(s.cpu.queue, i)|];
    }
    QueuedJobs(ts, s);
    forall i | 0 <= i < |ts|
      ensures forall j :: j in Jobs(s, i) ==> j in s.late[i] || (j in s.cpu.queue && j.task == i)
    {
      CurrentNone(s.cpu.queue, i);
    }
    assert forall i :: 0 <= i < |ts| ==> ViewOf(s).jobs[i] == Jobs(s, i);
    assert InTime(ts, ViewOf(s)) <==>
           forall i, j :: 0 <= i < |ts| && j in Jobs(s, i) ==> s.cpu.now < j.release + ts[i].deadline;
  }

  lemma {:induction false} CurrentIs(q: seq<Job>, k: nat)
    requires OnePerTask(q) && k < |q|
    ensures Current(q, q[k].task) == [q[k]]
  {
    if k > 0 {
      CurrentIs(q[1..], k - 1);
    }
  }

  lemma QueuedJobs(ts: seq<Timing>, s: FpThreads.State)
    requires Ordered(ts, s)
    ensures forall k :: 0 <= k < |s.cpu.queue| ==> s.cpu.queue[k] in Jobs(s, s.cpu.queue[k].task)
  {
    forall k | 0 <= k < |s.cpu.queue| ensures s.cpu.queue[k] in Jobs(s, s.cpu.queue[k].task) {
      CurrentIs(s.cpu.queue, k);
    }
  }
}

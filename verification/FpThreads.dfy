/** Fixed-priority threads on one CPU. A task releases jobs at least a period apart, whether or not its
    thread is done with the job before; the thread takes them one after another. A job that is released
    while an earlier one is pending is late to start, and its deadline counts from the release all the same. */
module FpThreads {
  import opened SortedList
  import opened FpSchedule

  /** On completion the next job of a late thread takes over. The run queue of the kernel leaves a running
      thread where it is, in front of its priority; the active queue puts it behind the others. */
  datatype Event = Release(task: nat, cost: nat) | Tick(stays: bool)

  /** `late[i]` are the jobs of task i released behind the one in the queue. */
  datatype State = Threads(cpu: FpSchedule.State, late: seq<seq<Job>>)

  ghost predicate Legal(ts: seq<Timing>, s: State, e: Event) {
    e.Release? ==>
      && e.task < |ts| && |s.cpu.next| == |s.late| == |ts|
      && 0 < e.cost <= ts[e.task].wcet
      && s.cpu.next[e.task] <= s.cpu.now
  }

  ghost function Step(ts: seq<Timing>, s: State, e: Event): State
    requires Legal(ts, s, e)
  {
    if e.Tick? then TickOf(ts, s, e.stays)
    else if Rem(s.cpu.queue, e.task) == 0 then
      s.(cpu := FpSchedule.Step(ts, s.cpu, FpSchedule.Release(e.task, e.cost)))
    else
      var now := s.cpu.now;
      var j := Job(e.task, ts[e.task].prio, now, e.cost);
      Threads(s.cpu.(next := s.cpu.next[e.task := now + ts[e.task].period]), s.late[e.task := s.late[e.task] + [j]])
  }

  /** The job at the head is done with this microsecond, and its thread is late for the next one. */
  ghost predicate GoesOn(s: State) {
    && s.cpu.queue != [] && s.cpu.queue[0].remaining <= 1
    && s.cpu.queue[0].task < |s.late| && s.late[s.cpu.queue[0].task] != []
  }

  ghost function TickOf(ts: seq<Timing>, s: State, stays: bool): State {
    var cpu := FpSchedule.Step(ts, s.cpu, FpSchedule.Tick);
    if GoesOn(s) then
      var i := s.cpu.queue[0].task;
      var j := s.late[i][0];
      var queue := if stays then [j] + cpu.queue else Insert(cpu.queue, j, PrioKey);
      Threads(cpu.(queue := queue), s.late[i := s.late[i][1..]])
    else Threads(cpu, s.late)
  }

  ghost predicate LegalRun(ts: seq<Timing>, s: State, es: seq<Event>)
    decreases |es|
  {
    es == [] || (Legal(ts, s, es[0]) && LegalRun(ts, Step(ts, s, es[0]), es[1..]))
  }

  ghost function Run(ts: seq<Timing>, s: State, es: seq<Event>): State
    requires LegalRun(ts, s, es)
    decreases |es|
  {
    if es == [] then s else Run(ts, Step(ts, s, es[0]), es[1..])
  }

  ghost function Start(ts: seq<Timing>): State {
    Threads(FpSchedule.Start(ts), seq(|ts|, i => []))
  }

  /** No pending job, started or not, has reached its deadline. */
  ghost predicate MeetsDeadlines(ts: seq<Timing>, s: State) {
    && FpSchedule.MeetsDeadlines(ts, s.cpu)
    && |s.late| == |ts|
    && forall i, k :: 0 <= i < |ts| && 0 <= k < |s.late[i]| ==> s.cpu.now < s.late[i][k].release + ts[i].deadline
  }

  /** No run leaves a job unfinished at its deadline. */
  ghost predicate AlwaysMeetsDeadlines(ts: seq<Timing>) {
    forall es :: LegalRun(ts, Start(ts), es) ==> MeetsDeadlines(ts, Run(ts, Start(ts), es))
  }

  // ---------------------------------------------------------------- deadlines within the periods

  ghost predicate Constrained(ts: seq<Timing>) {
    forall i :: 0 <= i < |ts| && 0 < ts[i].wcet ==> ts[i].deadline <= ts[i].period
  }

  /** The task of the job is not due for another one within the period. */
  ghost predicate NotDue(ts: seq<Timing>, s: FpSchedule.State, j: Job) {
    j.task < |ts| == |s.next| && 0 < ts[j.task].wcet && j.release + ts[j.task].period <= s.next[j.task]
  }

  /** Nobody is late, and no task with a job in the queue is due for another one. */
  ghost predicate Punctual(ts: seq<Timing>, s: State) {
    && FpSchedule.Inv(ts, s.cpu) && |s.late| == |ts|
    && (forall i :: 0 <= i < |ts| ==> s.late[i] == [])
    && forall j :: j in s.cpu.queue ==> NotDue(ts, s.cpu, j)
  }

  lemma {:induction false} SomeJob(q: seq<Job>, i: nat)
    requires 0 < Rem(q, i)
    ensures exists k :: 0 <= k < |q| && q[k].task == i
  {
    if forall k :: 0 <= k < |q| ==> q[k].task != i {
      RemNone(q, i);
    }
  }

  /** A job on time is done before the next one of its task is released. */
  lemma NobodyLate(ts: seq<Timing>, s: State, e: Event)
    requires Constrained(ts) && Punctual(ts, s) && Legal(ts, s, e) && e.Release?
    ensures Rem(s.cpu.queue, e.task) == 0
  {
    if 0 < Rem(s.cpu.queue, e.task) {
      SomeJob(s.cpu.queue, e.task);
      var k :| 0 <= k < |s.cpu.queue| && s.cpu.queue[k].task == e.task;
      assert s.cpu.queue[k] in s.cpu.queue;
      InvMeets(ts, s.cpu);
    }
  }

  /** So every step is one of the schedule in which nobody is late. */
  lemma StepPunctual(ts: seq<Timing>, s: State, e: Event)
    requires AllFit(ts) && Constrained(ts) && Punctual(ts, s) && Legal(ts, s, e)
    ensures Punctual(ts, Step(ts, s, e))
  {
    if e.Release? {
      NobodyLate(ts, s, e);
      StepKeepsNext(ts, s.cpu, FpSchedule.Release(e.task, e.cost));
    } else {
      StepKeepsNext(ts, s.cpu, FpSchedule.Tick);
    }
  }

  lemma StepKeepsNext(ts: seq<Timing>, s: FpSchedule.State, e: FpSchedule.Event)
    requires AllFit(ts) && FpSchedule.Inv(ts, s) && FpSchedule.Legal(ts, s, e)
    requires forall j :: j in s.queue ==> NotDue(ts, s, j)
    ensures FpSchedule.Inv(ts, FpSchedule.Step(ts, s, e))
    ensures forall j :: j in FpSchedule.Step(ts, s, e).queue ==> NotDue(ts, FpSchedule.Step(ts, s, e), j)
  {
    StepInv(ts, s, e);
    var s' := FpSchedule.Step(ts, s, e);
    forall j | j in s'.queue ensures NotDue(ts, s', j) {
      if e.Tick? || j != JobOf(ts, s, e) {
        var was := Before(ts, s, e, j);
        assert NotDue(ts, s, was);
      }
    }
  }

  lemma {:induction false} RunPunctual(ts: seq<Timing>, s: State, es: seq<Event>)
    requires AllFit(ts) && Constrained(ts) && Punctual(ts, s) && LegalRun(ts, s, es)
    ensures Punctual(ts, Run(ts, s, es))
    decreases |es|
  {
    if es != [] {
      StepPunctual(ts, s, es[0]);
      RunPunctual(ts, Step(ts, s, es[0]), es[1..]);
    }
  }

  /** Response-time soundness: in every run every job finishes within its deadline, for deadlines that do
      not exceed the periods. */
  lemma FpMeetsDeadlines(ts: seq<Timing>)
    requires AllFit(ts) && Constrained(ts)
    ensures AlwaysMeetsDeadlines(ts)
  {
    forall es | LegalRun(ts, Start(ts), es) ensures MeetsDeadlines(ts, Run(ts, Start(ts), es)) {
      StartInv(ts);
      RunPunctual(ts, Start(ts), es);
      InvMeets(ts, Run(ts, Start(ts), es).cpu);
    }
  }
}

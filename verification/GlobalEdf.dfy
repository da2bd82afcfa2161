/** The global EDF plugin: a run list, a wait list and one busy flag per CPU. */
module GlobalEdf {
  import opened SortedList
  import opened Entries

  /** `busy` has one flag per CPU, `cpu` the CPU of every task. */
  datatype State = State(run: seq<Entry>, wait: seq<Entry>, busy: seq<bool>, cpu: seq<nat>)

  /** The first CPU that is not busy, or the number of CPUs. */
  function FirstFree(busy: seq<bool>): (c: nat)
    ensures c <= |busy| && (forall k :: 0 <= k < c ==> busy[k]) && (c < |busy| ==> !busy[c])
  {
    if busy == [] || !busy[0] then 0 else 1 + FirstFree(busy[1..])
  }

  /** Everything the operations may assume of the state's shape. */
  ghost predicate Shape(s: State) {
    && (forall t :: 0 <= t < |s.cpu| ==> s.cpu[t] < |s.busy|)
    && (forall i :: 0 <= i < |s.run| ==> s.run[i].tid < |s.cpu|)
    && (forall i :: 0 <= i < |s.wait| ==> s.wait[i].tid < |s.cpu|)
  }

  function Place(s: State, e: Entry, c: nat): State
    requires e.tid < |s.cpu| && c < |s.busy|
  {
    State(Insert(s.run, e, DeadlineOf), s.wait, s.busy[c := true], s.cpu[e.tid := c])
  }

  /** A job of task `t` with absolute deadline `d` starts. */
  function JobStart(s: State, t: nat, d: nat): State
    requires Shape(s) && t < |s.cpu|
  {
    var e, free := Entry(t, d), FirstFree(s.busy);
    if !s.busy[s.cpu[t]] then Place(s, e, s.cpu[t])
    else if free < |s.busy| then Place(s, e, free)
    else if s.run != [] && s.run[|s.run| - 1].deadline > d then
      var p := s.run[|s.run| - 1];
      Place(s.(run := s.run[..|s.run| - 1], wait := Insert(s.wait, p, DeadlineOf)), e, s.cpu[p.tid])
    else s.(wait := Insert(s.wait, e, DeadlineOf))
  }

  /** The job of task `t` leaves the list it is in. */
  function Removed(s: State, t: nat): (r: State)
    requires Shape(s)
    ensures Shape(r)
  {
    if Listed(s.wait, t) then s.(wait := RemoveAt(s.wait, Find(s.wait, t)))
    else if Listed(s.run, t) then s.(run := RemoveAt(s.run, Find(s.run, t)))
    else s
  }

  lemma RemovedMembers(s: State, t: nat)
    requires Shape(s)
    ensures forall e :: e in Removed(s, t).run ==> e in s.run
    ensures forall e :: e in Removed(s, t).wait ==> e in s.wait
  {
  }

  /** The first waiting job takes over the CPU of task `t`; with none the CPU falls idle. */
  function Handover(s: State, t: nat): State
    requires Shape(s) && t < |s.cpu|
  {
    if s.wait == [] then s.(busy := s.busy[s.cpu[t] := false])
    else
      var next := s.wait[0];
      s.(wait := s.wait[1..], run := Insert(s.run, next, DeadlineOf), cpu := s.cpu[next.tid := s.cpu[t]])
  }

  /** The current job of task `t` completes. */
  function JobComplete(s: State, t: nat): State
    requires Shape(s) && t < |s.cpu|
  {
    Handover(Removed(s, t), t)
  }

  // ---------------------------------------------------------------- the invariant

  /** The lists: sorted, no task twice, and everything running at least as early as everything waiting. */
  ghost predicate ListsOk(run: seq<Entry>, wait: seq<Entry>) {
    && Sorted(run, DeadlineOf) && Sorted(wait, DeadlineOf)
    && Distinct(run) && Distinct(wait)
    && (forall r, w :: r in run && w in wait ==> r.tid != w.tid)
    && (forall r, w :: r in run && w in wait ==> r.deadline <= w.deadline)
  }

  ghost predicate RunsOn(run: seq<Entry>, cpu: seq<nat>, c: nat) {
    exists e :: e in run && e.tid < |cpu| && cpu[e.tid] == c
  }

  /** The CPUs: running jobs sit on distinct CPUs, and exactly their CPUs are busy. */
  ghost predicate CpusOk(run: seq<Entry>, busy: seq<bool>, cpu: seq<nat>) {
    && (forall e :: e in run ==> e.tid < |cpu| && cpu[e.tid] < |busy|)
    && (forall e, f :: e in run && f in run && cpu[e.tid] == cpu[f.tid] ==> e == f)
    && (forall c: nat :: c < |busy| ==> (busy[c] <==> RunsOn(run, cpu, c)))
  }

  ghost predicate AllBusy(busy: seq<bool>) {
    forall c :: 0 <= c < |busy| ==> busy[c]
  }

  /** The earliest deadlines run, on distinct CPUs, and nothing waits beside an idle CPU. */
  ghost predicate Inv(s: State) {
    && Shape(s)
    && ListsOk(s.run, s.wait)
    && CpusOk(s.run, s.busy, s.cpu)
    && (s.wait != [] ==> AllBusy(s.busy))
  }

  // ---------------------------------------------------------------- CPUs

  /** An idle CPU takes a job. */
  lemma OccupyCpu(run: seq<Entry>, busy: seq<bool>, cpu: seq<nat>, e: Entry, c: nat)
    requires CpusOk(run, busy, cpu) && e.tid < |cpu| && c < |busy| && !busy[c]
    requires forall x :: x in run ==> x.tid != e.tid
    ensures CpusOk(Insert(run, e, DeadlineOf), busy[c := true], cpu[e.tid := c])
  {
    var run', busy', cpu' := Insert(run, e, DeadlineOf), busy[c := true], cpu[e.tid := c];
    forall x ensures x in run' <==> x == e || x in run {
      InsertMember(run, e, x);
    }
    forall x | x in run ensures cpu'[x.tid] == cpu[x.tid] != c {
      assert cpu[x.tid] == c ==> RunsOn(run, cpu, c);
    }
    forall k: nat | k < |busy| ensures busy'[k] <==> RunsOn(run', cpu', k) {
      if k == c {
        assert e in run' && cpu'[e.tid] == c;
      } else if busy[k] {
        var x :| x in run && x.tid < |cpu| && cpu[x.tid] == k;
        assert x in run' && cpu'[x.tid] == k;
      }
    }
  }

  /** A running job leaves its CPU. */
  lemma VacateCpu(run: seq<Entry>, busy: seq<bool>, cpu: seq<nat>, k: nat)
    requires CpusOk(run, busy, cpu) && Sorted(run, DeadlineOf) && Distinct(run) && k < |run|
    ensures CpusOk(RemoveAt(run, k), busy[cpu[run[k].tid] := false], cpu)
  {
    var e, c, run' := run[k], cpu[run[k].tid], RemoveAt(run, k);
    RemoveList(run, k);
    forall q: nat | q < |busy| ensures busy[c := false][q] <==> RunsOn(run', cpu, q) {
      if q != c && busy[q] {
        var x :| x in run && x.tid < |cpu| && cpu[x.tid] == q;
        assert x in run';
      }
    }
  }

  // ---------------------------------------------------------------- the operations keep the invariant

  /** Placing the earliest job left on an idle CPU. */
  lemma PlaceKeepsInv(s: State, e: Entry, c: nat)
    requires Shape(s) && ListsOk(s.run, s.wait) && CpusOk(s.run, s.busy, s.cpu)
    requires e.tid < |s.cpu| && c < |s.busy| && !s.busy[c]
    requires forall x :: x in s.run ==> x.tid != e.tid
    requires forall w :: w in s.wait ==> w.tid != e.tid && e.deadline <= w.deadline
    requires s.wait != [] ==> AllBusy(s.busy[c := true])
    ensures Inv(Place(s, e, c))
  {
    InsertList(s.run, e);
    OccupyCpu(s.run, s.busy, s.cpu, e, c);
    var s' := Place(s, e, c);
    forall i | 0 <= i < |s'.run| ensures s'.run[i].tid < |s'.cpu| {
      assert s'.run[i] in s'.run;
    }
  }

  /** Where all CPUs are busy, some job runs, and the last one has the latest deadline. */
  lemma AllBusyRuns(s: State)
    requires Inv(s) && 0 < |s.busy| && AllBusy(s.busy)
    ensures s.run != [] && forall r :: r in s.run ==> r.deadline <= s.run[|s.run| - 1].deadline
  {
    assert RunsOn(s.run, s.cpu, 0);
    forall r | r in s.run ensures DeadlineOf(r) <= DeadlineOf(s.run[|s.run| - 1]) {
      var i :| 0 <= i < |s.run| && s.run[i] == r;
    }
  }

  lemma WaitKeepsInv(s: State, e: Entry)
    requires Inv(s) && e.tid < |s.cpu| && AllBusy(s.busy)
    requires !Listed(s.run, e.tid) && !Listed(s.wait, e.tid)
    requires forall r :: r in s.run ==> r.deadline <= e.deadline
    ensures Inv(s.(wait := Insert(s.wait, e, DeadlineOf)))
  {
    NotListed(s.run, e.tid);
    NotListed(s.wait, e.tid);
    InsertList(s.wait, e);
    var wait' := Insert(s.wait, e, DeadlineOf);
    forall i | 0 <= i < |wait'| ensures wait'[i].tid < |s.cpu| {
      assert wait'[i] in wait';
    }
  }

  /** A newcomer earlier than the latest running job takes that job's CPU. */
  lemma PreemptKeepsInv(s: State, e: Entry)
    requires Inv(s) && e.tid < |s.cpu| && AllBusy(s.busy) && s.run != []
    requires !Listed(s.run, e.tid) && !Listed(s.wait, e.tid)
    requires s.run[|s.run| - 1].deadline > e.deadline
    ensures
      var p := s.run[|s.run| - 1];
      Inv(Place(s.(run := s.run[..|s.run| - 1], wait := Insert(s.wait, p, DeadlineOf)), e, s.cpu[p.tid]))
  {
    var n := |s.run| - 1;
    var p := s.run[n];
    assert p in s.run;
    NotListed(s.run, e.tid);
    NotListed(s.wait, e.tid);
    var s1 := Preempted(s, e.tid, e.deadline);
    assert s.run[..n] == RemoveAt(s.run, n);
    PlaceKeepsInv(s1, e, s.cpu[p.tid]);
    SamePlace(s.(run := s1.run, wait := s1.wait), e, s.cpu[p.tid]);
  }

  lemma SamePlace(s: State, e: Entry, c: nat)
    requires e.tid < |s.cpu| && c < |s.busy| && s.busy[c]
    ensures Place(s.(busy := s.busy[c := false]), e, c) == Place(s, e, c)
  {
    assert s.busy[c := false][c := true] == s.busy;
  }

  /** The state between the preemption of the last running job and the placing of `t`. */
  lemma Preempted(s: State, t: nat, d: nat) returns (s1: State)
    requires Inv(s) && s.run != [] && AllBusy(s.busy)
    requires forall r :: r in s.run || r in s.wait ==> r.tid != t
    requires s.run[|s.run| - 1].deadline > d
    ensures
      var n := |s.run| - 1;
      var p := s.run[n];
      && p.tid < |s.cpu| && s.cpu[p.tid] < |s.busy|
      && s1 == State(RemoveAt(s.run, n), Insert(s.wait, p, DeadlineOf), s.busy[s.cpu[p.tid] := false], s.cpu)
      && AllBusy(s1.busy[s.cpu[p.tid] := true])
    ensures Shape(s1) && ListsOk(s1.run, s1.wait) && CpusOk(s1.run, s1.busy, s1.cpu)
    ensures forall r :: r in s1.run ==> r.tid != t
    ensures forall w :: w in s1.wait ==> w.tid != t && d <= w.deadline
  {
    var n := |s.run| - 1;
    var p := s.run[n];
    assert p in s.run;
    s1 := State(RemoveAt(s.run, n), Insert(s.wait, p, DeadlineOf), s.busy[s.cpu[p.tid] := false], s.cpu);
    RemoveRunning(s, n);
    WaitList(s.run, s.wait, n);
    forall w | w in s1.wait ensures w.tid != t && d <= w.deadline && w.tid < |s.cpu| {
      InsertMember(s.wait, p, w);
    }
    forall i | 0 <= i < |s1.wait| ensures s1.wait[i].tid < |s.cpu| {
      assert s1.wait[i] in s1.wait;
    }
  }

  /** Without its `k`-th job the running side stays in order, and that job's CPU is idle. */
  lemma RemoveRunning(s: State, k: nat)
    requires Inv(s) && k < |s.run|
    ensures
      var s1 := State(RemoveAt(s.run, k), s.wait, s.busy[s.cpu[s.run[k].tid] := false], s.cpu);
      && Shape(s1) && ListsOk(s1.run, s1.wait) && CpusOk(s1.run, s1.busy, s1.cpu)
      && forall x :: x in s1.run ==> x in s.run && x.tid != s.run[k].tid
  {
    var run' := RemoveAt(s.run, k);
    RemoveList(s.run, k);
    VacateCpu(s.run, s.busy, s.cpu, k);
    forall i | 0 <= i < |run'| ensures run'[i].tid < |s.cpu| {
      assert run'[i] in run' && run'[i] in s.run;
    }
    forall x | x in run' ensures x.tid != s.run[k].tid {
      var i :| 0 <= i < |s.run| && s.run[i] == x;
    }
  }

  /** The last running job joins the waiting ones. */
  lemma WaitList(run: seq<Entry>, wait: seq<Entry>, n: nat)
    requires ListsOk(run, wait) && n == |run| - 1
    ensures ListsOk(RemoveAt(run, n), Insert(wait, run[n], DeadlineOf))
  {
    var p := run[n];
    assert p in run;
    InsertList(wait, p);
    RemoveList(run, n);
    forall r | r in RemoveAt(run, n) ensures r.deadline <= p.deadline && r.tid != p.tid {
      var i :| 0 <= i < n && run[i] == r;
      assert DeadlineOf(run[i]) <= DeadlineOf(run[n]);
    }
  }

  /** Starting a job keeps the m earliest deadlines on the CPUs. */
  lemma JobStartKeepsInv(s: State, t: nat, d: nat)
    requires Inv(s) && t < |s.cpu| && !Listed(s.run, t) && !Listed(s.wait, t)
    ensures Inv(JobStart(s, t, d))
  {
    var e, free := Entry(t, d), FirstFree(s.busy);
    NotListed(s.run, t);
    if !s.busy[s.cpu[t]] {
      PlaceKeepsInv(s, e, s.cpu[t]);
    } else if free < |s.busy| {
      PlaceKeepsInv(s, e, free);
    } else {
      AllBusyRuns(s);
      if s.run[|s.run| - 1].deadline > d {
        PreemptKeepsInv(s, e);
      } else {
        WaitKeepsInv(s, e);
      }
    }
  }

  /** Completion of a running job hands its CPU to the earliest waiting job. */
  lemma JobCompleteKeepsInv(s: State, t: nat)
    requires Inv(s) && t < |s.cpu| && Listed(s.run, t)
    ensures Inv(JobComplete(s, t))
  {
    var k, c := Find(s.run, t), s.cpu[t];
    RunningOnly(s, t);
    RemoveRunning(s, k);
    if s.wait != [] {
      var s1 := State(RemoveAt(s.run, k), s.wait[1..], s.busy[c := false], s.cpu);
      HeadList(s.wait);
      assert s.wait[0] in s.wait;
      assert s1.busy[c := true] == s.busy;
      PlaceKeepsInv(s1, s.wait[0], c);
    }
  }

  lemma RunningOnly(s: State, t: nat)
    requires Inv(s) && Listed(s.run, t)
    ensures !Listed(s.wait, t)
  {
    assert s.run[Find(s.run, t)] in s.run;
    forall i | 0 <= i < |s.wait| ensures s.wait[i].tid != t {
      assert s.wait[i] in s.wait;
    }
  }

  /** Clearing the flag of a CPU on which a job runs, or putting a second job on it, breaks the CPU side. */
  lemma BrokenCpus(run: seq<Entry>, busy: seq<bool>, cpu: seq<nat>, e: Entry, next: Entry, c: nat)
    requires e in run && e.tid < |cpu| && cpu[e.tid] == c < |busy|
    ensures !CpusOk(run, busy[c := false], cpu)
    ensures next.tid < |cpu| && next.tid != e.tid ==> !CpusOk(Insert(run, next, DeadlineOf), busy, cpu[next.tid := c])
  {
    assert RunsOn(run, cpu, c);
    InsertMember(run, next, e);
    InsertMember(run, next, next);
  }

  /** Completing a job that only waits always breaks the invariant: its CPU is another job's. */
  lemma WaitingCompletionBreaksInv(s: State, t: nat)
    requires Inv(s) && t < |s.cpu| && Listed(s.wait, t)
    ensures !Inv(JobComplete(s, t))
  {
    var c, r := s.cpu[t], Removed(s, t);
    assert s.wait[Find(s.wait, t)] in s.wait;
    assert s.busy[c] && RunsOn(s.run, s.cpu, c);
    var e :| e in s.run && e.tid < |s.cpu| && s.cpu[e.tid] == c;
    if r.wait == [] {
      BrokenCpus(s.run, s.busy, s.cpu, e, e, c);
    } else {
      var next := r.wait[0];
      RemovedMembers(s, t);
      assert next in r.wait && next in s.wait;
      BrokenCpus(s.run, s.busy, s.cpu, e, next, c);
    }
  }

  /** So a completion of a started job keeps the invariant exactly when the job was running. */
  lemma JobCompleteKeepsInvIff(s: State, t: nat)
    requires Inv(s) && t < |s.cpu| && (Listed(s.run, t) || Listed(s.wait, t))
    ensures Inv(JobComplete(s, t)) <==> Listed(s.run, t)
  {
    if Listed(s.run, t) {
      JobCompleteKeepsInv(s, t);
    } else {
      WaitingCompletionBreaksInv(s, t);
    }
  }

  // ---------------------------------------------------------------- over every run

  datatype Op = Start(tid: nat, deadline: nat) | Complete(tid: nat)

  /** A task starts a job while it has none, and completes the job it is running. */
  ghost predicate Enabled(s: State, op: Op) {
    && Shape(s) && op.tid < |s.cpu|
    && if op.Start? then !Listed(s.run, op.tid) && !Listed(s.wait, op.tid) else Listed(s.run, op.tid)
  }

  ghost function Apply(s: State, op: Op): State
    requires Enabled(s, op)
  {
    if op.Start? then JobStart(s, op.tid, op.deadline) else JobComplete(s, op.tid)
  }

  ghost predicate EnabledRun(s: State, ops: seq<Op>)
    decreases |ops|
  {
    ops == [] || (Enabled(s, ops[0]) && EnabledRun(Apply(s, ops[0]), ops[1..]))
  }

  ghost function Run(s: State, ops: seq<Op>): State
    requires EnabledRun(s, ops)
    decreases |ops|
  {
    if ops == [] then s else Run(Apply(s, ops[0]), ops[1..])
  }

  lemma {:induction false} RunKeepsInv(s: State, ops: seq<Op>)
    requires Inv(s) && EnabledRun(s, ops)
    ensures Inv(Run(s, ops))
    decreases |ops|
  {
    if ops != [] {
      if ops[0].Start? {
        JobStartKeepsInv(s, ops[0].tid, ops[0].deadline);
      } else {
        JobCompleteKeepsInv(s, ops[0].tid);
      }
      RunKeepsInv(Apply(s, ops[0]), ops[1..]);
    }
  }

  /** The CPUs of the running jobs. */
  ghost function RunCpus(run: seq<Entry>, cpu: seq<nat>): (cs: set<nat>)
    requires forall e :: e in run ==> e.tid < |cpu|
  {
    set e | e in run :: cpu[e.tid]
  }

  lemma {:induction false} CountRunning(run: seq<Entry>, busy: seq<bool>, cpu: seq<nat>)
    requires Distinct(run) && forall e :: e in run ==> e.tid < |cpu|
    requires forall e, f :: e in run && f in run && cpu[e.tid] == cpu[f.tid] ==> e == f
    ensures |RunCpus(run, cpu)| == |run|
  {
    if run != [] {
      var n := |run| - 1;
      var front, last := run[..n], run[n];
      assert run == front + [last];
      CountRunning(front, busy, cpu);
      LastNotBefore(run);
      RunCpusStep(front, last, cpu);
    }
  }

  lemma LastNotBefore(run: seq<Entry>)
    requires Distinct(run) && run != []
    ensures run[|run| - 1] !in run[..|run| - 1]
  {
    var front := run[..|run| - 1];
    forall i | 0 <= i < |front| ensures front[i] != run[|run| - 1] {
    }
  }

  lemma RunCpusStep(front: seq<Entry>, last: Entry, cpu: seq<nat>)
    requires last.tid < |cpu| && forall e :: e in front ==> e.tid < |cpu| && cpu[e.tid] != cpu[last.tid]
    ensures |RunCpus(front + [last], cpu)| == |RunCpus(front, cpu)| + 1
  {
    assert RunCpus(front + [last], cpu) == RunCpus(front, cpu) + {cpu[last.tid]};
  }

  lemma {:induction false} CountCpus(m: nat, cs: set<nat>)
    requires forall c: nat :: c in cs <==> c < m
    ensures |cs| == m
  {
    if m > 0 {
      CountCpus(m - 1, cs - {m - 1});
    } else {
      assert cs == {};
    }
  }

  /** In every reachable state with something waiting, exactly one job per CPU runs. */
  lemma WaitingMeansFull(s: State)
    requires Inv(s) && s.wait != []
    ensures |s.run| == |s.busy|
  {
    CountRunning(s.run, s.busy, s.cpu);
    forall c: nat ensures c in RunCpus(s.run, s.cpu) <==> c < |s.busy| {
      if c < |s.busy| {
        assert s.busy[c] && RunsOn(s.run, s.cpu, c);
      }
    }
    CountCpus(|s.busy|, RunCpus(s.run, s.cpu));
  }

  // ---------------------------------------------------------------- the started jobs

  /** The jobs started and not yet completed, by task, after `ops`. */
  ghost function Pending(jobs: map<nat, nat>, ops: seq<Op>): map<nat, nat>
    decreases |ops|
  {
    if ops == [] then jobs
    else
      match ops[0]
      case Start(t, d) => Pending(jobs[t := d], ops[1..])
      case Complete(t) => Pending(jobs - {t}, ops[1..])
  }

  ghost predicate Holds(s: State, e: Entry) { e in s.run || e in s.wait }

  /** The two lists hold exactly these jobs. */
  ghost predicate HoldsJobs(s: State, jobs: map<nat, nat>) {
    forall e :: Holds(s, e) <==> e.tid in jobs && jobs[e.tid] == e.deadline
  }

  /** A start adds that job to one of the lists and loses none. */
  lemma StartHolds(s: State, t: nat, d: nat, e: Entry)
    requires Shape(s) && t < |s.cpu|
    ensures Holds(JobStart(s, t, d), e) <==> e == Entry(t, d) || Holds(s, e)
  {
    InsertMember(s.run, Entry(t, d), e);
    InsertMember(s.wait, Entry(t, d), e);
    if s.run != [] {
      PreemptHolds(s.run, s.wait, Entry(t, d), e);
    }
  }

  /** A preemption moves the last running job over and loses none. */
  lemma PreemptHolds(run: seq<Entry>, wait: seq<Entry>, new_: Entry, e: Entry)
    requires run != []
    ensures
      var n := |run| - 1;
      e in Insert(run[..n], new_, DeadlineOf) || e in Insert(wait, run[n], DeadlineOf) <==>
                                                      e == new_ || e in run || e in wait
  {
    var n := |run| - 1;
    assert run == run[..n] + [run[n]];
    InsertMember(wait, run[n], e);
    InsertMember(run[..n], new_, e);
  }

  /** A completion of a running job removes that job and no other. */
  lemma CompleteHolds(s: State, t: nat, e: Entry)
    requires Inv(s) && t < |s.cpu| && Listed(s.run, t)
    ensures Holds(JobComplete(s, t), e) <==> Holds(s, e) && e.tid != t
  {
    var r := Removed(s, t);
    RunningOnly(s, t);
    RemoveList(s.run, Find(s.run, t));
    OneJob(s, t, e);
    if r.wait != [] {
      assert r.wait == [r.wait[0]] + r.wait[1..];
      InsertMember(r.run, r.wait[0], e);
    }
  }

  /** A running task has one job. */
  lemma OneJob(s: State, t: nat, e: Entry)
    requires Inv(s) && Listed(s.run, t)
    ensures Holds(s, e) && e.tid == t ==> e == s.run[Find(s.run, t)]
  {
    RunningOnly(s, t);
    NotListed(s.wait, t);
    if e in s.run {
      var i :| 0 <= i < |s.run| && s.run[i] == e;
    }
  }

  lemma StartJobs(s: State, jobs: map<nat, nat>, t: nat, d: nat)
    requires Inv(s) && HoldsJobs(s, jobs) && t < |s.cpu| && !Listed(s.run, t) && !Listed(s.wait, t)
    ensures HoldsJobs(JobStart(s, t, d), jobs[t := d])
  {
    NotListed(s.run, t);
    NotListed(s.wait, t);
    forall e ensures Holds(JobStart(s, t, d), e) <==> e.tid in jobs[t := d] && jobs[t := d][e.tid] == e.deadline {
      StartHolds(s, t, d, e);
    }
  }

  lemma CompleteJobs(s: State, jobs: map<nat, nat>, t: nat)
    requires Inv(s) && HoldsJobs(s, jobs) && t < |s.cpu| && Listed(s.run, t)
    ensures HoldsJobs(JobComplete(s, t), jobs - {t})
  {
    forall e ensures Holds(JobComplete(s, t), e) <==> e.tid in jobs - {t} && (jobs - {t})[e.tid] == e.deadline {
      CompleteHolds(s, t, e);
    }
  }

  lemma {:induction false} RunHolds(s: State, jobs: map<nat, nat>, ops: seq<Op>)
    requires Inv(s) && EnabledRun(s, ops) && HoldsJobs(s, jobs)
    ensures HoldsJobs(Run(s, ops), Pending(jobs, ops))
    decreases |ops|
  {
    if ops != [] {
      var t := ops[0].tid;
      if ops[0].Start? {
        JobStartKeepsInv(s, t, ops[0].deadline);
        StartJobs(s, jobs, t, ops[0].deadline);
        RunHolds(JobStart(s, t, ops[0].deadline), jobs[t := ops[0].deadline], ops[1..]);
      } else {
        JobCompleteKeepsInv(s, t);
        CompleteJobs(s, jobs, t);
        RunHolds(JobComplete(s, t), jobs - {t}, ops[1..]);
      }
    }
  }

  /** As many jobs are on the lists as are pending. */
  lemma CountPending(s: State, jobs: map<nat, nat>)
    requires Inv(s) && HoldsJobs(s, jobs)
    ensures |s.run| + |s.wait| == |jobs|
  {
    CountTids(s.run);
    CountTids(s.wait);
    assert Tids(s.run) !! Tids(s.wait);
    assert jobs.Keys == Tids(s.run) + Tids(s.wait) by {
      forall t ensures t in jobs.Keys <==> t in Tids(s.run) + Tids(s.wait) {
        if t in jobs.Keys {
          assert Holds(s, Entry(t, jobs[t]));
        }
        if t in Tids(s.run) + Tids(s.wait) {
          var e :| (e in s.run || e in s.wait) && e.tid == t;
          assert Holds(s, e);
        }
      }
    }
    assert |jobs| == |jobs.Keys|;
  }

  /** Global EDF: over any run of starts and completions from an idle system the two lists hold exactly
      the jobs started and not yet completed, and the jobs on the CPUs are the earliest of these: as many
      as there are CPUs, or all of them if they are fewer. */
  lemma EarliestDeadlinesRun(cpu: seq<nat>, m: nat, ops: seq<Op>)
    requires forall t :: 0 <= t < |cpu| ==> cpu[t] < m
    requires EnabledRun(State([], [], seq(m, i => false), cpu), ops)
    ensures
      var s := Run(State([], [], seq(m, i => false), cpu), ops);
      var jobs := Pending(map[], ops);
      && Inv(s) && HoldsJobs(s, jobs)
      && |s.run| == (if |jobs| < m then |jobs| else m)
      && forall r, w :: r in s.run && w in s.wait ==> r.deadline <= w.deadline
  {
    var idle := State([], [], seq(m, i => false), cpu);
    assert Inv(idle);
    RunKeepsInv(idle, ops);
    RunHolds(idle, map[], ops);
    RunKeepsCpus(idle, ops);
    var s := Run(idle, ops);
    CountPending(s, Pending(map[], ops));
    AtMostOnePerCpu(s);
    if s.wait != [] {
      WaitingMeansFull(s);
    }
  }

  lemma {:induction false} RunKeepsCpus(s: State, ops: seq<Op>)
    requires EnabledRun(s, ops)
    ensures |Run(s, ops).busy| == |s.busy|
    decreases |ops|
  {
    if ops != [] {
      RunKeepsCpus(Apply(s, ops[0]), ops[1..]);
    }
  }

  /** No more jobs run than there are CPUs. */
  lemma AtMostOnePerCpu(s: State)
    requires Inv(s)
    ensures |s.run| <= |s.busy|
  {
    CountRunning(s.run, s.busy, s.cpu);
    FewCpus(|s.busy|, RunCpus(s.run, s.cpu));
  }

  lemma {:induction false} FewCpus(m: nat, cs: set<nat>)
    requires forall c :: c in cs ==> c < m
    ensures |cs| <= m
  {
    if m > 0 {
      FewCpus(m - 1, cs - {m - 1});
    } else {
      assert cs == {};
    }
  }
}

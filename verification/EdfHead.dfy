/** The sleep and wake protocol of the EDF class on one CPU: of all queued tasks only the one at
    the head of the active queue may run. */
module EdfHead {
  import opened SortedList
  import opened Entries

  /** The two lists the class uses, the threads that are not sleeping, and the tasks whose
      priority field is that of the background list. */
  datatype State = State(edf: seq<Entry>, back: seq<Entry>, awake: set<nat>, inBack: set<nat>)
  {
    /** The active queue from the highest priority down. */
    function Flat(): seq<Entry> { edf + back }

    predicate Active(t: nat) { Listed(Flat(), t) }

    predicate Empty() { edf == [] && back == [] }

    /** The head of the active queue. */
    function Highest(): nat
      requires !Empty()
    {
      if edf != [] then edf[0].tid else back[0].tid
    }

    /** The task the query for the next one answers for the head task `t` of the EDF list. A scan
        that is `misled` starts at the EDF list again. */
    function Next(misled: bool): set<nat>
      requires edf != []
    {
      if |edf| > 1 then {edf[1].tid}
      else if misled then {edf[0].tid}
      else if back != [] then {back[0].tid}
      else {}
    }

    /** The queued tasks. */
    ghost function Queued(): set<nat> {
      Tids(edf) + Tids(back)
    }

    function Enqueue(e: Entry, background: bool): State {
      if background
      then this.(back := Insert(back, e, DeadlineOf), inBack := inBack + {e.tid})
      else this.(edf := Insert(edf, e, DeadlineOf), inBack := inBack - {e.tid})
    }

    function Dequeue(t: nat): State
      requires if t in inBack then Listed(back, t) else Listed(edf, t)
    {
      if t in inBack
      then this.(back := RemoveAt(back, Find(back, t)))
      else this.(edf := RemoveAt(edf, Find(edf, t)))
    }

    function EntryOf(t: nat): Entry
      requires if t in inBack then Listed(back, t) else Listed(edf, t)
    {
      if t in inBack then back[Find(back, t)] else edf[Find(edf, t)]
    }

    function Wake(ts: set<nat>): State { this.(awake := awake + ts) }

    function Sleep(ts: set<nat>): State { this.(awake := awake - ts) }
  }

  datatype Op =
    | JobStart(e: Entry)
    | JobComplete(t: nat)
    | Expire(t: nat)
    | Replenish(t: nat)

  /** What the callers see to: a task starts a job only when it has none in the queue, and it is
      the caller's own thread that runs; it completes a job that is queued. */
  ghost predicate Enabled(s: State, op: Op) {
    match op
    case JobStart(e) => !s.Active(e.tid)
    case JobComplete(t) => s.Active(t)
    case Expire(t) => true
    case Replenish(t) => true
  }

  ghost predicate Fields(s: State) {
    Tids(s.edf) !! s.inBack && Tids(s.back) <= s.inBack
  }

  /** `edf_job_start` of the caller's thread: one of the task and the former head goes to sleep. */
  function JobStarted(s: State, e: Entry, misled: bool): State {
    Yield(s.Wake({e.tid}).Enqueue(e, false), e.tid, misled)
  }

  function Yield(q: State, t: nat, misled: bool): State
    requires q.edf != []
  {
    if q.Highest() == t then q.Sleep(q.Next(misled)) else q.Sleep({t})
  }

  /** `edf_job_complete`. */
  function JobCompleted(s: State, t: nat): State
    requires if t in s.inBack then Listed(s.back, t) else Listed(s.edf, t)
  {
    WakeHead(s.Dequeue(t), t)
  }

  function WakeHead(d: State, t: nat): State {
    var q := d.(inBack := d.inBack - {t});
    if q.Empty() then q else q.Wake({q.Highest()})
  }

  /** `edf_reserve_expire` of a task with a job in the queue. */
  function Expired(s: State, t: nat): State
    requires if t in s.inBack then Listed(s.back, t) else Listed(s.edf, t)
  {
    Demote(s.Dequeue(t).Enqueue(s.EntryOf(t), true), t)
  }

  function Demote(q: State, t: nat): State
    requires !q.Empty()
  {
    if q.Highest() == t then q else q.Wake({q.Highest()}).Sleep({t})
  }

  /** `edf_reserve_replenish` of a task in the background list. */
  function Replenished(s: State, t: nat, misled: bool): State
    requires t in s.inBack && Listed(s.back, t)
  {
    Promote(s.Dequeue(t).Enqueue(s.EntryOf(t), false), t, misled)
  }

  function Promote(q: State, t: nat, misled: bool): State
    requires q.edf != []
  {
    if q.Highest() == t && t !in q.awake then q.Sleep(q.Next(misled)).Wake({t}) else q
  }

  /** One critical section of the class. */
  ghost function Step(s: State, op: Op, misled: bool): State
    requires Fields(s) && Enabled(s, op)
  {
    match op
    case JobStart(e) => JobStarted(s, e, misled)
    case JobComplete(t) => QueuedWhere(s, t); JobCompleted(s, t)
    case Expire(t) => if s.Active(t) then QueuedWhere(s, t); Expired(s, t) else s
    case Replenish(t) =>
      if t in s.inBack && s.Active(t) then QueuedWhere(s, t); Replenished(s, t, misled) else s
  }

  lemma ListedTids(es: seq<Entry>, t: nat)
    ensures Listed(es, t) <==> t in Tids(es)
  {
    if Listed(es, t) {
      assert es[Find(es, t)] in es;
    }
  }

  lemma ActiveIff(s: State, t: nat)
    ensures s.Active(t) <==> t in s.Queued()
  {
    ListedTids(s.Flat(), t);
    assert forall e :: e in s.Flat() <==> e in s.edf || e in s.back;
  }

  /** The priority field tells which list holds the task. */
  lemma QueuedWhere(s: State, t: nat)
    requires Fields(s) && s.Active(t)
    ensures if t in s.inBack then Listed(s.back, t) else Listed(s.edf, t)
  {
    ActiveIff(s, t);
    ListedTids(s.edf, t);
    ListedTids(s.back, t);
  }

  // ---------------------------------------------------------------- the invariant

  ghost predicate Ordered(es: seq<Entry>) {
    Sorted(es, DeadlineOf) && Distinct(es)
  }

  /** Of all queued tasks, exactly the head is awake. */
  ghost predicate OnlyHeadAwake(s: State) {
    !s.Empty() ==> s.Queued() * s.awake == {s.Highest()}
  }

  ghost predicate Placed(s: State) {
    Ordered(s.edf) && Ordered(s.back) && Fields(s)
  }

  ghost predicate Inv(s: State) {
    Placed(s) && OnlyHeadAwake(s)
  }

  lemma InsertTids(es: seq<Entry>, e: Entry)
    requires Ordered(es) && e.tid !in Tids(es)
    ensures
      var r := Insert(es, e, DeadlineOf);
      && Ordered(r) && Tids(r) == Tids(es) + {e.tid}
      && (r[0] == e || (es != [] && r[0] == es[0]))
      && (r[0] == e && es != [] ==> r[1] == es[0])
  {
    InsertList(es, e);
    var r := Insert(es, e, DeadlineOf);
    assert e in r;
  }

  lemma RemoveTids(es: seq<Entry>, t: nat)
    requires Ordered(es) && Listed(es, t)
    ensures
      var r := RemoveAt(es, Find(es, t));
      && Ordered(r) && Tids(r) == Tids(es) - {t}
      && (es[0].tid == t || (r != [] && r[0] == es[0]))
  {
    var i := Find(es, t);
    RemoveList(es, i);
    var r := RemoveAt(es, i);
    forall x | x in es && x.tid == t ensures x == es[i] {
      var j :| 0 <= j < |es| && es[j] == x;
    }
  }

  /** What an insertion into either list does: the head is the new task or the former one. */
  ghost predicate IsEnqueued(s: State, q: State, t: nat) {
    && t !in s.Queued() && q.Queued() == s.Queued() + {t} && !q.Empty() && q.awake == s.awake
    && (q.Highest() == t || (!s.Empty() && q.Highest() == s.Highest()))
  }

  lemma Enqueued(s: State, e: Entry, background: bool)
    requires Placed(s) && e.tid !in s.Queued()
    ensures
      var q := s.Enqueue(e, background);
      && Placed(q) && IsEnqueued(s, q, e.tid)
      && (!background && q.Highest() == e.tid && s.edf != [] ==> |q.edf| > 1 && q.edf[1].tid == s.Highest())
      && (!background && s.edf == [] ==> q.edf == [e] && q.back == s.back)
  {
    InsertTids(if background then s.back else s.edf, e);
  }

  /** What a removal does: the head stays unless it is the one that goes. */
  ghost predicate IsDequeued(s: State, q: State, t: nat) {
    && t in s.Queued() && q.Queued() == s.Queued() - {t} && !s.Empty() && q.awake == s.awake
    && (s.Highest() == t || (!q.Empty() && q.Highest() == s.Highest()))
  }

  lemma Dequeued(s: State, t: nat)
    requires Placed(s)
    requires if t in s.inBack then Listed(s.back, t) else Listed(s.edf, t)
    ensures Placed(s.Dequeue(t)) && IsDequeued(s, s.Dequeue(t), t)
  {
    ListedTids(s.edf, t);
    ListedTids(s.back, t);
    RemoveTids(if t in s.inBack then s.back else s.edf, t);
  }

  lemma HeadQueued(s: State)
    ensures s.Empty() <==> s.Queued() == {}
    ensures !s.Empty() ==> s.Highest() in s.Queued()
    ensures s.edf != [] ==> s.Next(true) <= s.Queued()
  {
    assert s.edf != [] ==> s.edf[0] in s.edf;
    assert |s.edf| > 1 ==> s.edf[1] in s.edf;
    assert s.back != [] ==> s.back[0] in s.back;
    if s.Queued() == {} {
      assert forall e :: e in s.edf ==> e.tid in s.Queued();
      assert forall e :: e in s.back ==> e.tid in s.Queued();
    }
  }

  // ---------------------------------------------------------------- the four operations

  lemma YieldHead(s: State, q: State, t: nat, misled: bool)
    requires OnlyHeadAwake(s) && IsEnqueued(s.Wake({t}), q, t) && q.edf != []
    requires q.Highest() == t && s.edf != [] ==> |q.edf| > 1 && q.edf[1].tid == s.Highest()
    requires s.edf == [] ==> |q.edf| == 1 && q.edf[0].tid == t && q.back == s.back
    ensures OnlyHeadAwake(Yield(q, t, misled)) <==> !(misled && s.edf == [])
  {
    HeadQueued(s);
    var r := Yield(q, t, misled);
    assert r.Queued() == q.Queued() && r.Highest() == q.Highest();
    assert q.awake == s.awake + {t};
    assert s.Wake({t}).Queued() == s.Queued();
  }

  /** Starting a job keeps the invariant, except where the scan behind the EDF list is misled and
      the list was empty: then the task puts itself to sleep. */
  lemma JobStartKeepsInvIff(s: State, e: Entry, misled: bool)
    requires Inv(s) && !s.Active(e.tid)
    ensures Inv(JobStarted(s, e, misled)) <==> !(misled && s.edf == [])
    ensures JobStarted(s, e, misled).Queued() == s.Queued() + {e.tid}
  {
    var w := s.Wake({e.tid});
    ActiveIff(s, e.tid);
    Enqueued(w, e, false);
    YieldHead(s, w.Enqueue(e, false), e.tid, misled);
  }

  lemma WakeHeadHead(s: State, d: State, t: nat)
    requires OnlyHeadAwake(s) && IsDequeued(s, d, t)
    ensures OnlyHeadAwake(WakeHead(d, t)) && WakeHead(d, t).Queued() == s.Queued() - {t}
  {
    HeadQueued(d);
    var r := WakeHead(d, t);
    assert r.Queued() == d.Queued();
  }

  /** Completing a job keeps the invariant. */
  lemma JobCompleteKeepsInv(s: State, t: nat)
    requires Inv(s) && if t in s.inBack then Listed(s.back, t) else Listed(s.edf, t)
    ensures Inv(JobCompleted(s, t)) && JobCompleted(s, t).Queued() == s.Queued() - {t}
  {
    Dequeued(s, t);
    WakeHeadHead(s, s.Dequeue(t), t);
  }

  lemma DemoteHead(s: State, d: State, q: State, t: nat)
    requires OnlyHeadAwake(s) && IsDequeued(s, d, t) && IsEnqueued(d, q, t)
    requires q.Highest() == t ==> s.Highest() == t
    ensures OnlyHeadAwake(Demote(q, t)) && Demote(q, t).Queued() == s.Queued()
  {
    HeadQueued(q);
    var r := Demote(q, t);
    assert r.Queued() == q.Queued() && r.Highest() == q.Highest();
  }

  /** A task that was not the head does not become it by going to the background list. */
  lemma NotAhead(s: State, t: nat)
    requires Placed(s) && if t in s.inBack then Listed(s.back, t) else Listed(s.edf, t)
    requires !s.Empty() && s.Highest() != t
    ensures s.Dequeue(t).Enqueue(s.EntryOf(t), true).Highest() == s.Highest()
  {
    var d, e := s.Dequeue(t), s.EntryOf(t);
    if s.edf == [] {
      var i := Find(s.back, t);
      assert DeadlineOf(s.back[0]) <= DeadlineOf(s.back[i]);
      assert d.back[0] == s.back[0] && InsertPos(d.back, e, DeadlineOf) > 0;
    }
  }

  /** Moving a task whose reserve is used up to the background list keeps the invariant. */
  lemma ExpireKeepsInv(s: State, t: nat)
    requires Inv(s) && if t in s.inBack then Listed(s.back, t) else Listed(s.edf, t)
    ensures Inv(Expired(s, t)) && Expired(s, t).Queued() == s.Queued()
  {
    var d, e := s.Dequeue(t), s.EntryOf(t);
    Dequeued(s, t);
    Enqueued(d, e, true);
    if s.Highest() != t {
      NotAhead(s, t);
    }
    DemoteHead(s, d, d.Enqueue(e, true), t);
  }

  lemma PromoteHead(s: State, d: State, q: State, t: nat, misled: bool)
    requires OnlyHeadAwake(s) && IsDequeued(s, d, t) && IsEnqueued(d, q, t) && q.edf != [] && d.edf == s.edf
    requires q.Highest() == t && d.edf != [] ==> |q.edf| > 1 && q.edf[1].tid == d.Highest()
    requires d.edf == [] ==> |q.edf| == 1 && q.edf[0].tid == t && q.back == d.back
    ensures OnlyHeadAwake(Promote(q, t, misled)) <==> !(misled && s.edf == [] && s.Highest() != t)
    ensures Promote(q, t, misled).Queued() == s.Queued()
  {
    HeadQueued(s);
    HeadQueued(d);
    var r := Promote(q, t, misled);
    var h := s.Highest();
    assert h in s.Queued() * s.awake;
    if h == t {
      assert r == q;
      assert s.edf == [] && q.Highest() == t;
    } else {
      assert t !in s.awake by { assert t !in s.Queued() * s.awake; }
      assert h == d.Highest();
      if q.Highest() == t {
        if misled && s.edf == [] {
          assert h in r.Queued() * r.awake;
        } else {
          assert q.Next(misled) == {h};
          assert r.awake == s.awake - {h} + {t};
        }
      }
    }
    assert r.Queued() == q.Queued() && r.Highest() == q.Highest();
  }

  /** Moving a task back to the EDF list keeps the invariant, except where the scan behind that list
      is misled, the list was empty and another task was the head: that task stays awake. */
  lemma ReplenishKeepsInvIff(s: State, t: nat, misled: bool)
    requires Inv(s) && t in s.inBack && Listed(s.back, t)
    ensures Inv(Replenished(s, t, misled)) <==> !(misled && s.edf == [] && s.Highest() != t)
    ensures Replenished(s, t, misled).Queued() == s.Queued()
  {
    var d, e := s.Dequeue(t), s.EntryOf(t);
    Dequeued(s, t);
    Enqueued(d, e, false);
    PromoteHead(s, d, d.Enqueue(e, false), t, misled);
  }

  // ---------------------------------------------------------------- whole runs

  /** Carrying out `ops` from `s`, each one allowed where it happens, ends in `r`. */
  ghost predicate Reaches(s: State, ops: seq<Op>, r: State, misled: bool)
    decreases |ops|
  {
    if ops == [] then r == s
    else Fields(s) && Enabled(s, ops[0]) && Reaches(Step(s, ops[0], misled), ops[1..], r, misled)
  }

  /** The tasks in the queue after `ops`: those that started a job and have not completed it. */
  ghost function Jobs(queued: set<nat>, ops: seq<Op>): set<nat>
    decreases |ops|
  {
    if ops == [] then queued else Jobs(JobsAfter(queued, ops[0]), ops[1..])
  }

  ghost function JobsAfter(queued: set<nat>, op: Op): set<nat> {
    match op
    case JobStart(e) => queued + {e.tid}
    case JobComplete(t) => queued - {t}
    case Expire(_) => queued
    case Replenish(_) => queued
  }

  lemma StepKeepsInv(s: State, op: Op)
    requires Inv(s) && Enabled(s, op)
    ensures Inv(Step(s, op, false)) && Step(s, op, false).Queued() == JobsAfter(s.Queued(), op)
  {
    match op
    case JobStart(e) => JobStartKeepsInvIff(s, e, false);
    case JobComplete(t) =>
      QueuedWhere(s, t);
      JobCompleteKeepsInv(s, t);
    case Expire(t) =>
      if s.Active(t) {
        QueuedWhere(s, t);
        ExpireKeepsInv(s, t);
      }
    case Replenish(t) =>
      if t in s.inBack && s.Active(t) {
        QueuedWhere(s, t);
        ReplenishKeepsInvIff(s, t, false);
      }
  }

  /** Over every run the queue holds exactly the tasks that started a job and have not completed it, and
      only the head may run. */
  lemma {:induction false} RunKeepsInv(s: State, ops: seq<Op>, r: State)
    requires Inv(s) && Reaches(s, ops, r, false)
    ensures Inv(r) && r.Queued() == Jobs(s.Queued(), ops)
    decreases |ops|
  {
    if ops != [] {
      StepKeepsInv(s, ops[0]);
      RunKeepsInv(Step(s, ops[0], false), ops[1..], r);
    }
  }

  lemma AwakeIsEarliest(s: State, e: Entry)
    requires Inv(s) && e.tid in s.awake && (e in s.edf || e in s.back)
    ensures e in s.edf ==> forall x :: x in s.edf ==> e.deadline <= x.deadline
    ensures e in s.back ==> s.edf == [] && forall x :: x in s.back ==> e.deadline <= x.deadline
  {
    assert e.tid in s.Queued() * s.awake && e.tid == s.Highest();
    EarliestHead(s.edf, e);
    EarliestHead(s.back, e);
    assert e in s.back ==> e.tid in Tids(s.back);
    assert s.edf != [] ==> s.edf[0] in s.edf && s.Highest() in Tids(s.edf);
  }

  lemma EarliestHead(es: seq<Entry>, e: Entry)
    requires Ordered(es)
    ensures e in es && es[0].tid == e.tid ==> forall x :: x in es ==> e.deadline <= x.deadline
  {
    if e in es && es[0].tid == e.tid {
      var i :| 0 <= i < |es| && es[i] == e;
      assert i == 0;
      forall x | x in es ensures e.deadline <= x.deadline {
        var j :| 0 <= j < |es| && es[j] == x;
        assert j > 0 ==> DeadlineOf(es[0]) <= DeadlineOf(es[j]);
      }
    }
  }

  /** Where the scan is misled, the first job that is started on an idle CPU goes to sleep, and no
      queued task is left to run. */
  lemma MisledFirstJobSleeps(s: State, e: Entry)
    requires s.Empty()
    ensures
      var r := Step(s, JobStart(e), true);
      r.Queued() == {e.tid} && r.Queued() * r.awake == {}
  {
    var q := s.Wake({e.tid}).Enqueue(e, false);
    assert q.edf == [e];
    assert JobStarted(s, e, true) == q.Sleep({e.tid});
  }
}

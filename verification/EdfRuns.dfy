/** Which list of the EDF class a job is in after any run, with which deadline, and which threads an operation
    leaves alone. */
module EdfRuns {
  import opened SortedList
  import opened Entries
  import opened EdfHead

  /** The entries of both lists. */
  ghost function Members(s: State): set<Entry> {
    set e | e in s.Flat()
  }

  /** The entries after an operation: a job keeps the entry it started with until it completes. */
  ghost function EntriesAfter(es: set<Entry>, op: Op): set<Entry> {
    match op
    case JobStart(e) => es + {e}
    case JobComplete(t) => set e | e in es && e.tid != t
    case Expire(_) => es
    case Replenish(_) => es
  }

  /** The jobs whose reserve is used up: it was since they started, and has not been replenished since. */
  ghost function SpentAfter(queued: set<nat>, spent: set<nat>, op: Op): set<nat> {
    match op
    case JobStart(e) => spent - {e.tid}
    case JobComplete(t) => spent - {t}
    case Expire(t) => if t in queued then spent + {t} else spent
    case Replenish(t) => spent - {t}
  }

  /** The entries after `ops`. */
  ghost function Started(es: set<Entry>, ops: seq<Op>): set<Entry>
    decreases |ops|
  {
    if ops == [] then es else Started(EntriesAfter(es, ops[0]), ops[1..])
  }

  ghost function Spent(queued: set<nat>, spent: set<nat>, ops: seq<Op>): set<nat>
    decreases |ops|
  {
    if ops == [] then spent
    else Spent(JobsAfter(queued, ops[0]), SpentAfter(queued, spent, ops[0]), ops[1..])
  }

  ghost function InList(es: seq<Entry>): set<Entry> { set e | e in es }

  lemma MembersApart(s: State)
    ensures Members(s) == InList(s.edf) + InList(s.back)
  {
  }

  lemma InsertedEntries(es: seq<Entry>, e: Entry)
    ensures InList(Insert(es, e, DeadlineOf)) == InList(es) + {e}
    ensures Tids(Insert(es, e, DeadlineOf)) == Tids(es) + {e.tid}
  {
    forall x ensures x in Insert(es, e, DeadlineOf) <==> x == e || x in es {
      InsertMember(es, e, x);
    }
  }

  lemma RemovedEntries(es: seq<Entry>, t: nat)
    requires Ordered(es) && Listed(es, t)
    ensures
      var i := Find(es, t);
      && InList(RemoveAt(es, i)) == (set e | e in es && e.tid != t)
      && InList(es) == InList(RemoveAt(es, i)) + {es[i]}
      && Tids(RemoveAt(es, i)) == Tids(es) - {t}
  {
    RemoveTids(es, t);
    var i := Find(es, t);
    RemoveList(es, i);
    forall x | x in es && x.tid == t ensures x == es[i] {
      var j :| 0 <= j < |es| && es[j] == x;
    }
  }

  lemma NoEntry(es: seq<Entry>, t: nat)
    requires t !in Tids(es)
    ensures InList(es) == (set e | e in es && e.tid != t)
  {
  }

  /** What a task takes with it when it leaves its list. */
  lemma DequeuedEntries(s: State, t: nat)
    requires Inv(s) && if t in s.inBack then Listed(s.back, t) else Listed(s.edf, t)
    ensures Members(s.Dequeue(t)) == EntriesAfter(Members(s), JobComplete(t))
    ensures Members(s) == Members(s.Dequeue(t)) + {s.EntryOf(t)} && s.EntryOf(t).tid == t
    ensures Tids(s.Dequeue(t).back) == Tids(s.back) - {t} && Tids(s.Dequeue(t).edf) == Tids(s.edf) - {t}
  {
    ListedTids(s.edf, t);
    ListedTids(s.back, t);
    MembersApart(s);
    MembersApart(s.Dequeue(t));
    if t in s.inBack {
      RemovedEntries(s.back, t);
      NoEntry(s.edf, t);
    } else {
      RemovedEntries(s.edf, t);
      NoEntry(s.back, t);
    }
  }

  lemma EnqueuedEntries(s: State, e: Entry, background: bool)
    ensures Members(s.Enqueue(e, background)) == Members(s) + {e}
    ensures Tids(s.Enqueue(e, background).back) == Tids(s.back) + if background then {e.tid} else {}
  {
    MembersApart(s);
    MembersApart(s.Enqueue(e, background));
    InsertedEntries(if background then s.back else s.edf, e);
  }

  /** The lists after an operation: entries keep their deadlines, the background list holds the jobs whose
      reserve is used up, and the priority fields say so. */
  ghost predicate ListsAfter(s: State, op: Op, r: State) {
    && Members(r) == EntriesAfter(Members(s), op)
    && Tids(r.back) == SpentAfter(s.Queued(), Tids(s.back), op)
    && (s.inBack == Tids(s.back) ==> r.inBack == Tids(r.back))
  }

  lemma MovedEntries(s: State, t: nat, background: bool)
    requires Inv(s) && if t in s.inBack then Listed(s.back, t) else Listed(s.edf, t)
    ensures
      var r := s.Dequeue(t).Enqueue(s.EntryOf(t), background);
      && Members(r) == Members(s)
      && Tids(r.back) == (if background then Tids(s.back) + {t} else Tids(s.back) - {t})
      && r.inBack == if background then s.inBack + {t} else s.inBack - {t}
  {
    DequeuedEntries(s, t);
    EnqueuedEntries(s.Dequeue(t), s.EntryOf(t), background);
  }

  lemma StartKeepsLists(s: State, e: Entry)
    requires Inv(s) && !s.Active(e.tid)
    ensures ListsAfter(s, JobStart(e), JobStarted(s, e, false))
  {
    var w := s.Wake({e.tid});
    ActiveIff(s, e.tid);
    EnqueuedEntries(w, e, false);
    assert Members(w) == Members(s);
    assert Members(JobStarted(s, e, false)) == Members(w.Enqueue(e, false));
  }

  lemma CompleteKeepsLists(s: State, t: nat)
    requires Inv(s) && if t in s.inBack then Listed(s.back, t) else Listed(s.edf, t)
    ensures ListsAfter(s, JobComplete(t), JobCompleted(s, t))
  {
    DequeuedEntries(s, t);
    assert Members(JobCompleted(s, t)) == Members(s.Dequeue(t));
  }

  lemma ExpireKeepsLists(s: State, t: nat)
    requires Inv(s) && if t in s.inBack then Listed(s.back, t) else Listed(s.edf, t)
    requires t in s.Queued()
    ensures ListsAfter(s, Op.Expire(t), Expired(s, t))
  {
    MovedEntries(s, t, true);
    assert Members(Expired(s, t)) == Members(s.Dequeue(t).Enqueue(s.EntryOf(t), true));
  }

  lemma ReplenishKeepsLists(s: State, t: nat)
    requires Inv(s) && t in s.inBack && Listed(s.back, t)
    ensures ListsAfter(s, Op.Replenish(t), Replenished(s, t, false))
  {
    MovedEntries(s, t, false);
    assert Members(Replenished(s, t, false)) == Members(s.Dequeue(t).Enqueue(s.EntryOf(t), false));
  }

  lemma StepKeepsLists(s: State, op: Op)
    requires Inv(s) && Enabled(s, op)
    ensures ListsAfter(s, op, Step(s, op, false))
  {
    match op
    case JobStart(e) => StartKeepsLists(s, e);
    case JobComplete(t) =>
      QueuedWhere(s, t);
      CompleteKeepsLists(s, t);
    case Expire(t) =>
      ActiveIff(s, t);
      if s.Active(t) {
        QueuedWhere(s, t);
        ExpireKeepsLists(s, t);
      }
    case Replenish(t) =>
      ActiveIff(s, t);
      if t in s.inBack && s.Active(t) {
        QueuedWhere(s, t);
        ReplenishKeepsLists(s, t);
      }
  }

  /** Only threads of tasks in the queue are woken or put to sleep. */
  ghost predicate OnlyQueuedTouched(q: State, r: State) {
    forall x :: x !in q.Queued() ==> (x in r.awake <==> x in q.awake)
  }

  lemma Touches(q: State, t: nat)
    requires t in q.Queued()
    ensures q.edf != [] ==> OnlyQueuedTouched(q, Yield(q, t, false)) && OnlyQueuedTouched(q, Promote(q, t, false))
    ensures !q.Empty() ==> OnlyQueuedTouched(q, Demote(q, t))
  {
    HeadQueued(q);
    assert |q.edf| > 1 ==> q.edf[1] in q.edf;
    assert q.back != [] ==> q.back[0] in q.back;
  }

  lemma StartTouches(s: State, e: Entry, x: nat)
    requires Inv(s) && !s.Active(e.tid) && x !in s.Queued() && x != e.tid
    ensures x in JobStarted(s, e, false).awake <==> x in s.awake
  {
    ActiveIff(s, e.tid);
    Enqueued(s.Wake({e.tid}), e, false);
    Touches(s.Wake({e.tid}).Enqueue(e, false), e.tid);
  }

  lemma CompleteTouches(s: State, t: nat, x: nat)
    requires Inv(s) && (if t in s.inBack then Listed(s.back, t) else Listed(s.edf, t))
    requires x !in s.Queued() || x == t
    ensures x in JobCompleted(s, t).awake <==> x in s.awake
  {
    Dequeued(s, t);
    HeadQueued(s.Dequeue(t));
  }

  lemma MoveTouches(s: State, t: nat, x: nat)
    requires Inv(s) && (if t in s.inBack then Listed(s.back, t) else Listed(s.edf, t)) && x !in s.Queued()
    ensures x in Expired(s, t).awake <==> x in s.awake
    ensures t in s.inBack ==> (x in Replenished(s, t, false).awake <==> x in s.awake)
  {
    Dequeued(s, t);
    Enqueued(s.Dequeue(t), s.EntryOf(t), true);
    Touches(s.Dequeue(t).Enqueue(s.EntryOf(t), true), t);
    if t in s.inBack {
      Enqueued(s.Dequeue(t), s.EntryOf(t), false);
      Touches(s.Dequeue(t).Enqueue(s.EntryOf(t), false), t);
    }
  }

  /** Threads without a job are neither woken nor put to sleep; the thread that completes its job is left as
      it is. */
  lemma StepLeavesOthers(s: State, op: Op, x: nat)
    requires Inv(s) && Enabled(s, op) && (x !in s.Queued() || op == JobComplete(x))
    requires op.JobStart? ==> x != op.e.tid
    ensures x in Step(s, op, false).awake <==> x in s.awake
  {
    match op
    case JobStart(e) => StartTouches(s, e, x);
    case JobComplete(t) =>
      QueuedWhere(s, t);
      CompleteTouches(s, t, x);
    case Expire(t) =>
      if s.Active(t) {
        QueuedWhere(s, t);
        MoveTouches(s, t, x);
      }
    case Replenish(t) =>
      if t in s.inBack && s.Active(t) {
        QueuedWhere(s, t);
        MoveTouches(s, t, x);
      }
  }

  /** Over every run the background list holds exactly the jobs whose reserve was used up since they started
      and not replenished since, and the EDF list the others. Every job keeps the deadline it started with,
      and the priority field is that of its list. */
  lemma {:induction false} RunSplitsLists(s: State, ops: seq<Op>, r: State)
    requires Inv(s) && s.inBack == Tids(s.back) && Reaches(s, ops, r, false)
    ensures Members(r) == Started(Members(s), ops)
    ensures Tids(r.back) == Spent(s.Queued(), Tids(s.back), ops) == r.inBack
    ensures Tids(r.edf) == Jobs(s.Queued(), ops) - Spent(s.Queued(), Tids(s.back), ops)
    decreases |ops|
  {
    if ops != [] {
      var m := Step(s, ops[0], false);
      StepKeepsInv(s, ops[0]);
      StepKeepsLists(s, ops[0]);
      RunSplitsLists(m, ops[1..], r);
    } else {
      assert s.Queued() == Tids(s.edf) + Tids(s.back) && Tids(s.edf) !! Tids(s.back);
    }
  }
}

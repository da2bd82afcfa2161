/** What the priorities of the queued tasks say about the sequence of a CPU: from the highest priority down,
    and first in, first out among tasks of one priority. */
module ActiveFifo {
  import opened SortedList
  import opened Entries
  import opened PrioFifo

  /** The sequence, and the priority each task was queued with. */
  datatype Queue = Queue(order: seq<Entry>, prios: map<nat, int>)

  /** Exactly the queued tasks have a priority, and no task stands behind one of lower priority. */
  ghost predicate Descending(s: Queue) {
    && Distinct(s.order) && Tids(s.order) == s.prios.Keys
    && (forall i :: 0 <= i < |s.order| ==> s.order[i].tid in s.prios)
    && forall i, j :: 0 <= i < j < |s.order| ==> s.prios[s.order[i].tid] >= s.prios[s.order[j].tid]
  }

  lemma HeadIsHighest(s: Queue)
    requires Descending(s)
    ensures s.order == [] ==> s.prios == map[]
    ensures s.order != [] ==> forall t :: t in s.prios ==> s.prios[t] <= s.prios[s.order[0].tid]
  {
    forall t | t in s.prios ensures s.order != [] && s.prios[t] <= s.prios[s.order[0].tid] {
      assert t in Tids(s.order);
      var e :| e in s.order && e.tid == t;
      var i :| 0 <= i < |s.order| && s.order[i] == e;
    }
    assert s.order == [] ==> s.prios.Keys == {};
  }

  /** Behind the first `o` tasks priorities fall below this one. */
  ghost predicate Divides(s: Queue, o: nat, prio: int) {
    forall i :: 0 <= i < |s.order| ==>
                  s.order[i].tid in s.prios && (i < o <==> prio <= s.prios[s.order[i].tid])
  }

  /** The task is queued behind all of at least its priority. */
  ghost predicate EnqueuedLast(s: Queue, s': Queue, e: Entry, prio: int) {
    && s'.prios == s.prios[e.tid := prio]
    && exists o: nat :: PutAt(s.order, s'.order, e, o) && Divides(s, o, prio)
  }

  /** Higher priorities stand before place `o` and lower ones behind it; of equal ones those before it have
      no later deadline, and the next one a later one. */
  ghost predicate DividesByDeadline(s: Queue, o: nat, prio: int, deadline: nat) {
    forall i :: 0 <= i < |s.order| ==>
                  && s.order[i].tid in s.prios
                  && (prio < s.prios[s.order[i].tid] ==> i < o)
                  && (s.prios[s.order[i].tid] < prio ==> o <= i)
                  && (prio == s.prios[s.order[i].tid] && i < o ==> s.order[i].deadline <= deadline)
                  && (prio == s.prios[s.order[i].tid] && i == o ==> deadline < s.order[i].deadline)
  }

  ghost predicate EnqueuedByDeadline(s: Queue, s': Queue, e: Entry, prio: int) {
    && s'.prios == s.prios[e.tid := prio]
    && exists o: nat :: PutAt(s.order, s'.order, e, o) && DividesByDeadline(s, o, prio, e.deadline)
  }

  /** The task leaves and the others keep their order. */
  ghost predicate Left(s: Queue, s': Queue, t: nat) {
    s'.prios == s.prios - {t} && exists o: nat :: TakenAt(s.order, s'.order, o) && s.order[o].tid == t
  }

  // ---------------------------------------------------------------- runs of the fixed-priority class

  ghost function Ids(es: seq<Entry>): (ids: seq<nat>)
    ensures |ids| == |es| && forall i :: 0 <= i < |es| ==> ids[i] == es[i].tid
  {
    seq(|es|, i requires 0 <= i < |es| => es[i].tid)
  }

  ghost function ById(s: Queue): View { View(Ids(s.order), s.prios) }

  /** What the fixed-priority class does is a step of a queue by priority. */
  lemma EnqueuedIsStep(s: Queue, s': Queue, e: Entry, prio: int)
    requires e.tid !in s.prios && EnqueuedLast(s, s', e, prio)
    ensures Step(ById(s), Enqueue(e.tid, prio), ById(s'))
  {
    var o: nat :| PutAt(s.order, s'.order, e, o) && Divides(s, o, prio);
    assert PutAt(Ids(s.order), Ids(s'.order), e.tid, o);
    assert PrioFifo.Divides(ById(s), o, prio);
  }

  lemma LeftIsStep(s: Queue, s': Queue, t: nat)
    requires t in s.prios && Left(s, s', t)
    ensures Step(ById(s), Dequeue(t), ById(s'))
  {
    var o: nat :| TakenAt(s.order, s'.order, o) && s.order[o].tid == t;
    assert TakenAt(Ids(s.order), Ids(s'.order), o);
  }
}

/** Queues that insert behind everything of at least the priority: after any run of insertions and removals
    they go from the highest priority down, and first in, first out among equal priorities. */
module PrioFifo {
  import opened SortedList

  /** The sequence of ids, and the priority each was queued with. */
  datatype View = View(order: seq<nat>, prios: map<nat, int>)

  ghost predicate PutAt<T>(was: seq<T>, now: seq<T>, x: T, o: nat) {
    o <= |was| && now == was[..o] + [x] + was[o..]
  }

  ghost predicate TakenAt<T>(was: seq<T>, now: seq<T>, o: nat) {
    o < |was| && now == RemoveAt(was, o)
  }

  /** Behind the first `o` places priorities fall below this one. */
  ghost predicate Divides(s: View, o: nat, prio: int) {
    forall i :: 0 <= i < |s.order| ==> s.order[i] in s.prios && (i < o <==> prio <= s.prios[s.order[i]])
  }

  datatype Op = Enqueue(id: nat, prio: int) | Dequeue(id: nat)

  /** One goes behind all of at least its priority, or one leaves and the others keep their order. */
  ghost predicate Step(s: View, op: Op, s': View) {
    match op
    case Enqueue(x, prio) =>
      && x !in s.prios && s'.prios == s.prios[x := prio]
      && exists o: nat :: PutAt(s.order, s'.order, x, o) && Divides(s, o, prio)
    case Dequeue(x) =>
      && x in s.prios && s'.prios == s.prios - {x}
      && exists o: nat :: TakenAt(s.order, s'.order, o) && s.order[o] == x
  }

  /** Carrying out `ops` on an empty queue can end in `r`. */
  ghost predicate Reaches(ops: seq<Op>, r: View)
    decreases ops, 1
  {
    if ops == [] then r == View([], map[])
    else exists m :: Via(ops, m, r)
  }

  ghost predicate Via(ops: seq<Op>, m: View, r: View)
    requires ops != []
    decreases ops, 0
  {
    Reaches(ops[..|ops| - 1], m) && Step(m, ops[|ops| - 1], r)
  }

  /** The operation that queued the id, or -1 if it is not queued after `ops`. */
  ghost function QueuedBy(ops: seq<Op>, x: nat): (i: int)
    ensures i == -1 || (0 <= i < |ops| && ops[i].Enqueue? && ops[i].id == x)
  {
    if ops == [] then -1
    else
      var n := |ops| - 1;
      if ops[n].id != x then QueuedBy(ops[..n], x)
      else if ops[n].Enqueue? then n
      else -1
  }

  /** Higher priority first; of equal ones the one that was queued earlier. */
  ghost predicate Precedes(ops: seq<Op>, x: nat, y: nat) {
    var i, j := QueuedBy(ops, x), QueuedBy(ops, y);
    i != -1 && j != -1 && (ops[i].prio > ops[j].prio || (ops[i].prio == ops[j].prio && i < j))
  }

  /** The queue holds exactly what was queued and not taken out, with the priority it was queued with, in
      order of precedence. */
  ghost predicate Holds(ops: seq<Op>, r: View) {
    && HoldsWhat(ops, r)
    && forall i, j :: 0 <= i < j < |r.order| ==> Precedes(ops, r.order[i], r.order[j])
  }

  ghost predicate HoldsWhat(ops: seq<Op>, r: View) {
    && (forall x :: x in r.prios <==> QueuedBy(ops, x) != -1)
    && (forall x :: x in r.prios ==> r.prios[x] == ops[QueuedBy(ops, x)].prio)
    && (forall x :: x in r.order <==> x in r.prios)
  }

  lemma QueuedByNow(ops: seq<Op>, op: Op, x: nat)
    ensures QueuedBy(ops + [op], x) ==
            if op.id != x then QueuedBy(ops, x) else if op.Enqueue? then |ops| else -1
  {
    assert (ops + [op])[..|ops|] == ops;
  }

  lemma FromBefore(was: seq<nat>, x: nat, o: nat, i: nat)
    requires o <= |was| && i <= |was| && i != o
    ensures (was[..o] + [x] + was[o..])[i] == was[if i < o then i else i - 1]
  {
  }

  lemma EnqueuePrecedes(ops: seq<Op>, m: View, x: nat, prio: int, o: nat, i: nat, j: nat)
    requires Holds(ops, m) && x !in m.prios && o <= |m.order| && Divides(m, o, prio)
    requires i < j <= |m.order|
    ensures
      var order := m.order[..o] + [x] + m.order[o..];
      Precedes(ops + [Enqueue(x, prio)], order[i], order[j])
  {
    var order := m.order[..o] + [x] + m.order[o..];
    QueuedByNow(ops, Enqueue(x, prio), order[i]);
    QueuedByNow(ops, Enqueue(x, prio), order[j]);
    if i == o {
      FromBefore(m.order, x, o, j);
    } else if j == o {
      FromBefore(m.order, x, o, i);
    } else {
      FromBefore(m.order, x, o, i);
      FromBefore(m.order, x, o, j);
      assert Precedes(ops, order[i], order[j]);
    }
  }

  lemma EnqueueHolds(ops: seq<Op>, m: View, x: nat, prio: int, r: View)
    requires Holds(ops, m) && Step(m, Enqueue(x, prio), r)
    ensures Holds(ops + [Enqueue(x, prio)], r)
  {
    var o: nat :| PutAt(m.order, r.order, x, o) && Divides(m, o, prio);
    forall y: nat ensures QueuedBy(ops + [Enqueue(x, prio)], y) == if x == y then |ops| else QueuedBy(ops, y) {
      QueuedByNow(ops, Enqueue(x, prio), y);
    }
    assert m.order == m.order[..o] + m.order[o..];
    forall i, j | 0 <= i < j < |r.order| ensures Precedes(ops + [Enqueue(x, prio)], r.order[i], r.order[j]) {
      EnqueuePrecedes(ops, m, x, prio, o, i, j);
    }
  }

  /** Nobody precedes itself. */
  lemma HoldsOnce(ops: seq<Op>, r: View)
    requires Holds(ops, r)
    ensures NoDup(r.order)
  {
  }

  lemma DequeuePrecedes(ops: seq<Op>, m: View, o: nat, i: nat, j: nat)
    requires Holds(ops, m) && o < |m.order| && i < j < |m.order| - 1
    ensures
      var order := RemoveAt(m.order, o);
      Precedes(ops + [Dequeue(m.order[o])], order[i], order[j])
  {
    HoldsOnce(ops, m);
    var order, x := RemoveAt(m.order, o), m.order[o];
    var i', j' := if i < o then i else i + 1, if j < o then j else j + 1;
    assert order[i] == m.order[i'] && order[j] == m.order[j'];
    QueuedByNow(ops, Dequeue(x), order[i]);
    QueuedByNow(ops, Dequeue(x), order[j]);
    assert Precedes(ops, m.order[i'], m.order[j']);
  }

  lemma DroppedMembers(was: seq<nat>, o: nat)
    requires o < |was| && NoDup(was)
    ensures forall x :: x in RemoveAt(was, o) <==> x in was && x != was[o]
  {
    var now := RemoveAt(was, o);
    forall i | 0 <= i < |was| && i != o ensures now[if i < o then i else i - 1] == was[i] {
    }
  }

  lemma DequeueHoldsWhat(ops: seq<Op>, m: View, x: nat, r: View, o: nat)
    requires HoldsWhat(ops, m) && NoDup(m.order) && Step(m, Dequeue(x), r)
    requires TakenAt(m.order, r.order, o) && m.order[o] == x
    ensures HoldsWhat(ops + [Dequeue(x)], r)
  {
    forall y: nat ensures QueuedBy(ops + [Dequeue(x)], y) == if x == y then -1 else QueuedBy(ops, y) {
      QueuedByNow(ops, Dequeue(x), y);
    }
    DroppedMembers(m.order, o);
  }

  lemma DequeueHolds(ops: seq<Op>, m: View, x: nat, r: View)
    requires Holds(ops, m) && Step(m, Dequeue(x), r)
    ensures Holds(ops + [Dequeue(x)], r)
  {
    var o: nat :| TakenAt(m.order, r.order, o) && m.order[o] == x;
    HoldsOnce(ops, m);
    DequeueHoldsWhat(ops, m, x, r, o);
    forall i, j | 0 <= i < j < |r.order| ensures Precedes(ops + [Dequeue(x)], r.order[i], r.order[j]) {
      DequeuePrecedes(ops, m, o, i, j);
    }
  }

  /** Over every run the queue holds exactly what was queued and not taken out, from the highest priority
      down, and first in, first out among equal priorities. */
  lemma {:induction false} RunHolds(ops: seq<Op>, r: View)
    requires Reaches(ops, r)
    ensures Holds(ops, r)
  {
    if ops != [] {
      var n := |ops| - 1;
      var m :| Via(ops, m, r);
      RunHolds(ops[..n], m);
      assert ops == ops[..n] + [ops[n]];
      match ops[n]
      case Enqueue(x, prio) => EnqueueHolds(ops[..n], m, x, prio, r);
      case Dequeue(x) => DequeueHolds(ops[..n], m, x, r);
    }
  }
}

/** The order in which contexts wait for a virtual GPU device. */
module WaitOrder {
  import opened SortedList
  import opened PrioFifo

  /** A scheduling entity: a context with a priority, larger first. */
  datatype Entity = Entity(ctx: nat, prio: int)

  function PrioKey(e: Entity): int { -e.prio }

  /** Nobody before place `i` has a lower priority, and the one at it has. */
  ghost predicate Behind(items: seq<Entity>, i: nat, prio: int) {
    && (forall j :: 0 <= j < |items| && j < i ==> prio <= items[j].prio)
    && (i < |items| ==> items[i].prio < prio)
  }

  /** The new entity goes before the first one of lower priority, else to the end. */
  ghost predicate Enqueued(was: seq<Entity>, now: seq<Entity>, e: Entity) {
    exists i: nat :: PutAt(was, now, e, i) && Behind(was, i, e.prio)
  }

  lemma InsertEnqueues(items: seq<Entity>, e: Entity)
    ensures Enqueued(items, Insert(items, e, PrioKey), e)
  {
    var i := InsertPos(items, e, PrioKey);
    forall j | 0 <= j < i ensures e.prio <= items[j].prio {
      assert PrioKey(items[j]) <= PrioKey(e);
    }
    assert PutAt(items, Insert(items, e, PrioKey), e, i);
  }

  // ---------------------------------------------------------------- runs

  /** A context that does not wait starts to, or one that waits is taken out. */
  ghost predicate WaitStep(was: seq<Entity>, op: Op, now: seq<Entity>) {
    match op
    case Enqueue(c, prio) => c !in Contexts(was) && Enqueued(was, now, Entity(c, prio))
    case Dequeue(c) => exists k: nat :: TakenAt(was, now, k) && was[k].ctx == c
  }

  /** Carrying out `ops` on an empty list can end in `items`. */
  ghost predicate Waits(ops: seq<Op>, items: seq<Entity>)
    decreases ops, 1
  {
    if ops == [] then items == [] else exists m :: Via(ops, m, items)
  }

  ghost predicate Via(ops: seq<Op>, m: seq<Entity>, items: seq<Entity>)
    requires ops != []
    decreases ops, 0
  {
    Waits(ops[..|ops| - 1], m) && WaitStep(m, ops[|ops| - 1], items)
  }

  ghost function Contexts(items: seq<Entity>): (cs: seq<nat>)
    ensures |cs| == |items| && forall i :: 0 <= i < |items| ==> cs[i] == items[i].ctx
  {
    seq(|items|, i requires 0 <= i < |items| => items[i].ctx)
  }

  /** The list as a queue by priority. */
  ghost predicate Shows(items: seq<Entity>, v: View) {
    && v.order == Contexts(items) && NoDup(v.order)
    && (forall x :: x in v.prios <==> x in v.order)
    && (forall i :: 0 <= i < |items| ==> items[i].ctx in v.prios && v.prios[items[i].ctx] == items[i].prio)
    && forall i, j :: 0 <= i < j < |items| ==> items[i].prio >= items[j].prio
  }

  /** In a list of falling priorities the place is the same for all. */
  lemma BehindDivides(items: seq<Entity>, v: View, i: nat, prio: int)
    requires Shows(items, v) && Behind(items, i, prio) && i <= |items|
    ensures Divides(v, i, prio)
  {
  }

  lemma PutFalls(items: seq<Entity>, v: View, e: Entity, i: nat)
    requires Shows(items, v) && i <= |items| && Behind(items, i, e.prio)
    ensures
      var now := items[..i] + [e] + items[i..];
      forall j, k :: 0 <= j < k < |now| ==> now[j].prio >= now[k].prio
  {
    var now := items[..i] + [e] + items[i..];
    forall j, k | 0 <= j < k < |now| ensures now[j].prio >= now[k].prio {
      var j', k' := if j < i then j else j - 1, if k < i then k else k - 1;
      assert j != i ==> now[j] == items[j'];
      assert k != i ==> now[k] == items[k'];
    }
  }

  lemma PutOnce(cs: seq<nat>, c: nat, i: nat)
    requires NoDup(cs) && i <= |cs| && c !in cs
    ensures NoDup(cs[..i] + [c] + cs[i..])
    ensures forall x :: x in cs[..i] + [c] + cs[i..] <==> x == c || x in cs
  {
    assert cs == cs[..i] + cs[i..];
  }

  lemma PutPrios(items: seq<Entity>, v: View, e: Entity, i: nat)
    requires Shows(items, v) && i <= |items| && e.ctx !in Contexts(items)
    ensures
      var now, prios := items[..i] + [e] + items[i..], v.prios[e.ctx := e.prio];
      && Contexts(now) == Contexts(items)[..i] + [e.ctx] + Contexts(items)[i..]
      && forall j :: 0 <= j < |now| ==> now[j].ctx in prios && prios[now[j].ctx] == now[j].prio
  {
    var now, prios := items[..i] + [e] + items[i..], v.prios[e.ctx := e.prio];
    assert Contexts(now) == Contexts(items)[..i] + [e.ctx] + Contexts(items)[i..];
    forall j | 0 <= j < |now| ensures now[j].ctx in prios && prios[now[j].ctx] == now[j].prio {
      if j != i {
        var j' := if j < i then j else j - 1;
        assert now[j] == items[j'] && Contexts(items)[j'] == now[j].ctx;
      }
    }
  }

  lemma EnqueueIsStep(items: seq<Entity>, v: View, e: Entity, i: nat)
    requires Shows(items, v) && i <= |items| && Behind(items, i, e.prio) && e.ctx !in Contexts(items)
    ensures
      var now := Contexts(items)[..i] + [e.ctx] + Contexts(items)[i..];
      Step(v, Enqueue(e.ctx, e.prio), View(now, v.prios[e.ctx := e.prio]))
  {
    assert PutAt(Contexts(items), Contexts(items)[..i] + [e.ctx] + Contexts(items)[i..], e.ctx, i);
    BehindDivides(items, v, i, e.prio);
  }

  lemma EnqueueShows(items: seq<Entity>, v: View, e: Entity, i: nat)
    requires Shows(items, v) && i <= |items| && Behind(items, i, e.prio) && e.ctx !in Contexts(items)
    ensures
      var now := items[..i] + [e] + items[i..];
      var v' := View(Contexts(now), v.prios[e.ctx := e.prio]);
      Shows(now, v') && Step(v, Enqueue(e.ctx, e.prio), v')
  {
    PutPrios(items, v, e, i);
    EnqueueIsStep(items, v, e, i);
    PutFalls(items, v, e, i);
    PutOnce(Contexts(items), e.ctx, i);
  }

  lemma TakenPrios(items: seq<Entity>, k: nat)
    requires k < |items|
    ensures Contexts(RemoveAt(items, k)) == RemoveAt(Contexts(items), k)
    ensures forall i :: 0 <= i < |items| - 1 ==> RemoveAt(items, k)[i] == items[if i < k then i else i + 1]
  {
  }

  lemma DequeueShows(items: seq<Entity>, v: View, k: nat)
    requires Shows(items, v) && k < |items|
    ensures
      var now, c := RemoveAt(items, k), items[k].ctx;
      var v' := View(Contexts(now), v.prios - {c});
      Shows(now, v') && Step(v, Dequeue(c), v')
  {
    TakenPrios(items, k);
    assert TakenAt(Contexts(items), RemoveAt(Contexts(items), k), k);
    DroppedMembers(Contexts(items), k);
    var now := RemoveAt(items, k);
    forall i | 0 <= i < |now| ensures now[i].ctx in v.prios - {items[k].ctx} {
      assert now[i].ctx in RemoveAt(Contexts(items), k);
    }
  }

  lemma {:induction false} WaitsReaches(ops: seq<Op>, items: seq<Entity>) returns (v: View)
    requires Waits(ops, items)
    ensures Reaches(ops, v) && Shows(items, v)
  {
    if ops == [] {
      v := View([], map[]);
    } else {
      var n := |ops| - 1;
      var m :| Via(ops, m, items);
      var w := WaitsReaches(ops[..n], m);
      match ops[n] {
        case Enqueue(c, prio) =>
          var i: nat :| PutAt(m, items, Entity(c, prio), i) && Behind(m, i, prio);
          EnqueueShows(m, w, Entity(c, prio), i);
          v := View(Contexts(items), w.prios[c := prio]);
        case Dequeue(c) =>
          var k: nat :| TakenAt(m, items, k) && m[k].ctx == c;
          DequeueShows(m, w, k);
          v := View(Contexts(items), w.prios - {c});
      }
      assert PrioFifo.Via(ops, w, v);
    }
  }

  /** Over every run exactly the contexts that were enqueued and not dequeued wait, each with the priority it
      was enqueued with, from the highest priority down and in order of arrival among equals. */
  lemma WaitListOrder(ops: seq<Op>, items: seq<Entity>)
    requires Waits(ops, items)
    ensures forall c :: QueuedBy(ops, c) != -1 <==> c in Contexts(items)
    ensures forall i :: 0 <= i < |items| ==>
                          QueuedBy(ops, items[i].ctx) != -1 && items[i].prio == ops[QueuedBy(ops, items[i].ctx)].prio
    ensures forall i, j :: 0 <= i < j < |items| ==> Precedes(ops, items[i].ctx, items[j].ctx)
  {
    var v := WaitsReaches(ops, items);
    RunHolds(ops, v);
  }
}

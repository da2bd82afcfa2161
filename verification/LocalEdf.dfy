/** The EDF class of a CPU working on its active queue. */
module LocalEdf {
  import opened SortedList
  import opened Entries
  import opened Options
  import opened ActiveOrder
  import opened ActiveQueue
  import opened EdfHead

  const PRIO_BACKGROUND: nat := 2
  const PRIO_EDF: nat := 3

  /** With only the two lists of the class in use, the queue is one after the other. */
  lemma TwoLists(qs: Queues, k: nat)
    requires k + 1 < |qs| && forall i :: 0 <= i < |qs| && i != k && i != k + 1 ==> qs[i] == []
    ensures Flat(qs) == qs[k] + qs[k + 1]
    ensures forall i :: 0 <= i <= k ==> Offset(qs, i) == 0
  {
    FlatSplit(qs, k);
    FlatEmpty(qs[..k]);
    FlatEmpty(qs[k + 2..]);
    assert qs[k + 1..][0] == qs[k + 1] && qs[k + 1..][1..] == qs[k + 2..];
    forall i | 0 <= i <= k ensures Offset(qs, i) == 0 {
      FlatEmpty(qs[..i]);
    }
  }

  class Cpu {
    const active: PrioArray
    /** Threads whose state is not sleeping, and tasks whose priority field is the background one. */
    var awake: set<nat>
    var inBack: set<nat>

    /** Only the two lists of the class are in use. */
    ghost predicate Valid()
      reads this, active, active.bitmap, active.queue
    {
      && active.Valid() && (active.W == 32 || active.W == 64)
      && forall k :: 0 <= k < PRIO_MAX && k != PrioIndex(PRIO_EDF) && k != PrioIndex(PRIO_BACKGROUND) ==>
                       active.queue[..][k] == []
    }

    ghost function View(): State
      requires active.Shape()
      reads this, active.queue
    {
      State(active.queue[PrioIndex(PRIO_EDF)], active.queue[PrioIndex(PRIO_BACKGROUND)], awake, inBack)
    }

    /** The index behind the EDF list starts a word of 32 bits, and is misread where shifts wrap. */
    ghost predicate Misled() {
      active.W == 32 && active.wraps
    }

    lemma MisledIff()
      requires Valid()
      ensures active.Misled(PrioIndex(PRIO_EDF)) <==> Misled()
    {
    }

    constructor (W: nat, wraps: bool)
      requires W == 32 || W == 64
      ensures Valid() && Inv(View()) && View().Empty() && fresh(active) && fresh(active.bitmap) && fresh(active.queue)
      ensures active.W == W && active.wraps == wraps
    {
      active := new PrioArray(W, wraps);
      awake, inBack := {}, {};
      new;
      forall k | 0 <= k < PRIO_MAX ensures active.queue[..][k] == [] {
        FlatSplit(active.queue[..], k);
      }
    }

    lemma FlatIsView()
      requires Valid()
      ensures Flat(active.Lists()) == View().Flat()
      ensures forall i :: 0 <= i <= PrioIndex(PRIO_EDF) ==> Offset(active.Lists(), i) == 0
    {
      TwoLists(active.queue[..], PrioIndex(PRIO_EDF));
    }

    /** Insert into one of the two lists and set the priority field (`edf_enqueue_task`). */
    method Enqueue(e: Entry, background: bool)
      requires Valid() && !View().Active(e.tid)
      modifies this, active, active.bitmap, active.queue
      ensures Valid() && View() == old(View()).Enqueue(e, background)
    {
      FlatIsView();
      active.EnqueueEdf(e, if background then PRIO_BACKGROUND else PRIO_EDF);
      inBack := if background then inBack + {e.tid} else inBack - {e.tid};
    }

    /** Unlink from the list the priority field names (`edf_dequeue_task`). */
    method Dequeue(t: nat)
      requires Valid() && if t in inBack then Listed(View().back, t) else Listed(View().edf, t)
      modifies active, active.bitmap, active.queue
      ensures Valid() && View() == old(View()).Dequeue(t) && !View().Active(t)
    {
      active.Dequeue(t, if t in inBack then PRIO_BACKGROUND else PRIO_EDF);
      FlatIsView();
    }

    /** The head of the queue. */
    method Highest() returns (r: Option<nat>)
      requires Valid()
      ensures r == if View().Empty() then None else Some(View().Highest())
    {
      FlatIsView();
      var e := active.Highest();
      r := if e.None? then None else Some(e.value.tid);
    }

    /** The task behind the head of the EDF list, as the scan answers it. */
    method NextOf(t: nat) returns (r: set<nat>)
      requires Valid() && View().edf != [] && View().Highest() == t
      ensures r == View().Next(Misled())
    {
      FlatIsView();
      MisledIff();
      var e := active.Next(t, PRIO_EDF);
      r := if e.None? then {} else {e.value.tid};
    }

    method JobStart(e: Entry)
      requires Valid() && Fields(View()) && !View().Active(e.tid)
      modifies this, active, active.bitmap, active.queue
      ensures Valid() && Fields(old(View())) && !old(View()).Active(e.tid)
      ensures View() == Step(old(View()), Op.JobStart(e), Misled())
    {
      awake := awake + {e.tid};
      Enqueue(e, false);
      Started(e.tid);
    }

    method Started(t: nat)
      requires Valid() && View().edf != []
      modifies this`awake
      ensures Valid() && View() == Yield(old(View()), t, Misled())
    {
      var hp := Highest();
      if hp == Some(t) {
        var curr := NextOf(t);
        awake := awake - curr;
      } else {
        awake := awake - {t};
      }
    }

    method JobComplete(t: nat)
      requires Valid() && Fields(View()) && View().Active(t)
      modifies this, active, active.bitmap, active.queue
      ensures Valid() && Fields(old(View())) && old(View()).Active(t)
      ensures View() == Step(old(View()), Op.JobComplete(t), Misled())
    {
      QueuedWhere(View(), t);
      Dequeue(t);
      inBack := inBack - {t};
      var next := Highest();
      if next.Some? {
        awake := awake + {next.value};
      }
    }

    /** Move a queued task to one of the lists by its deadline. */
    method Requeue(t: nat, background: bool)
      requires Valid() && if t in inBack then Listed(View().back, t) else Listed(View().edf, t)
      modifies this, active, active.bitmap, active.queue
      ensures Valid() && View() == old(View()).Dequeue(t).Enqueue(old(View()).EntryOf(t), background)
      ensures !View().Empty() && (!background ==> View().edf != [])
    {
      var e := EntryOf(t);
      Dequeue(t);
      Enqueue(e, background);
    }

    method ExpireQueued(t: nat)
      requires Valid() && if t in inBack then Listed(View().back, t) else Listed(View().edf, t)
      modifies this, active, active.bitmap, active.queue
      ensures Valid() && View() == Expired(old(View()), t)
    {
      Requeue(t, true);
      MovedBack(t);
    }

    method Expire(t: nat)
      requires Valid() && Fields(View())
      modifies this, active, active.bitmap, active.queue
      ensures Valid() && Fields(old(View())) && View() == Step(old(View()), Op.Expire(t), Misled())
    {
      var queued := IsActive(t);
      if queued {
        QueuedWhere(View(), t);
        ExpireQueued(t);
      }
    }

    method MovedBack(t: nat)
      requires Valid() && !View().Empty()
      modifies this`awake
      ensures Valid() && View() == Demote(old(View()), t)
    {
      var next := Highest();
      if next != Some(t) {
        awake := awake + {next.value};
        awake := awake - {t};
      }
    }

    method Replenish(t: nat)
      requires Valid() && Fields(View())
      modifies this, active, active.bitmap, active.queue
      ensures Valid() && Fields(old(View())) && View() == Step(old(View()), Op.Replenish(t), Misled())
    {
      var queued := IsActive(t);
      if t in inBack && queued {
        QueuedWhere(View(), t);
        Requeue(t, false);
        MovedUp(t);
      }
    }

    method MovedUp(t: nat)
      requires Valid() && View().edf != []
      modifies this`awake
      ensures Valid() && View() == Promote(old(View()), t, Misled())
    {
      var hp := Highest();
      if hp == Some(t) && t !in awake {
        var p := NextOf(t);
        awake := awake - p;
        awake := awake + {t};
      }
    }

    /** Whether the task is linked into the queue (`task_is_active`). */
    method IsActive(t: nat) returns (b: bool)
      requires Valid() && Fields(View())
      ensures b == View().Active(t)
    {
      ActiveIff(View(), t);
      ListedTids(View().edf, t);
      ListedTids(View().back, t);
      b := Listed(active.queue[PrioIndex(PRIO_EDF)], t) || Listed(active.queue[PrioIndex(PRIO_BACKGROUND)], t);
    }

    method EntryOf(t: nat) returns (e: Entry)
      requires Valid() && if t in inBack then Listed(View().back, t) else Listed(View().edf, t)
      ensures e == View().EntryOf(t) && e.tid == t
    {
      var k := PrioIndex(if t in inBack then PRIO_BACKGROUND else PRIO_EDF);
      e := active.queue[k][Find(active.queue[k], t)];
    }
  }
}

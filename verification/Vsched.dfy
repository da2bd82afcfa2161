/** Virtual GPU devices that take turns on a physical one, and the contexts that wait for them. */
module Vsched {
  import opened SortedList
  import opened Options
  import opened GdevList
  import opened WaitOrder

  /** The first entity of lower priority, or the head of the list. */
  method FindPlace(list: List<Entity>, e: Entity) returns (p: Node<Entity>)
    requires list.Valid()
    ensures
      var i := 1 + InsertPos(list.Items(), e, PrioKey);
      i <= |list.ns| && p == Round(list.ns)[i] && (p.container.Some? <==> i < |list.ns|)
  {
    ghost var ns, items := list.ns, list.Items();
    p := list.head.next;
    ghost var i := 1;
    assert Round(ns)[0].next == Round(ns)[1] && items[0..] == items;
    while p.container.Some? && e.prio <= p.container.value.prio
      invariant 1 <= i <= |ns| && p == Round(ns)[i]
      invariant InsertPos(items, e, PrioKey) == i - 1 + InsertPos(items[i - 1..], e, PrioKey)
      decreases |ns| - i
    {
      ContentsAt(ns[1..], i - 1);
      assert items[i - 1..][1..] == items[i..];
      assert Round(ns)[i].next == Round(ns)[i + 1];
      p, i := p.next, i + 1;
    }
    if p.container.Some? {
      ContentsAt(ns[1..], i - 1);
    }
  }

  /** `__gdev_enqueue_compute`: insert before the first entity of lower priority, else at the end. */
  method EnqueueCompute(list: List<Entity>, se: Node<Entity>)
    requires list.Valid() && Ring([se]) && se.container.Some? && se !in list.ns
    modifies list, list.ns, se
    ensures list.Valid() && se in list.ns
    ensures list.Items() == Insert(old(list.Items()), se.container.value, PrioKey)
    ensures Enqueued(old(list.Items()), list.Items(), se.container.value)
  {
    InsertEnqueues(list.Items(), se.container.value);
    ghost var i := 1 + InsertPos(list.Items(), se.container.value, PrioKey);
    var p := FindPlace(list, se.container.value);
    ghost var ring, at := [se], 0;
    if p.container.Some? {
      list.AddBefore(se, p, i);
      ring, at := list.ns, i;
    }
    var b := Empty(se, ring, at);
    if b {
      list.AddTail(se);
    }
  }

  /** `__gdev_dequeue_compute`. */
  method DequeueCompute(list: List<Entity>, se: Node<Entity>, ghost k: nat)
    requires list.Valid() && k < |list.Items()| && list.ns[k + 1] == se
    modifies list, list.ns
    ensures list.Valid() && Ring([se]) && list.Items() == RemoveAt(old(list.Items()), k)
  {
    list.Remove(se, k + 1);
  }

  // ---------------------------------------------------------------- the next device

  /** A device that completes goes to the end. */
  function Rotated(order: seq<nat>, k: nat): seq<nat>
    requires k < |order|
  {
    RemoveAt(order, k) + [order[k]]
  }

  /** The first device with contexts waiting. */
  function FirstBusy(order: seq<nat>, busy: set<nat>): (r: Option<nat>)
    ensures r.None? <==> forall d :: d in order ==> d !in busy
  {
    if order == [] then None
    else if order[0] in busy then Some(order[0])
    else FirstBusy(order[1..], busy)
  }

  /** The wait list of every virtual device, by device. */
  ghost predicate Waiting(lists: seq<List<Entity>>, devices: seq<nat>)
    reads *
  {
    && (forall d :: 0 <= d < |lists| ==> lists[d].Valid())
    && forall i :: 0 <= i < |devices| ==> devices[i] < |lists|
  }

  /** The devices with contexts waiting. */
  ghost function Busy(lists: seq<List<Entity>>): set<nat>
    reads lists
  {
    set d | 0 <= d < |lists| && |lists[d].ns| > 1
  }

  /** The physical device: its list of virtual ones, and the one in possession. */
  class Phys {
    const devices: List<nat>
    var current: Option<nat>

    constructor (devices: List<nat>)
      ensures this.devices == devices && current == None
    {
      this.devices, current := devices, None;
    }

    /** `gdev_vsched_fifo_schedule_compute`: whether the caller's context may go on; it waits while
        another device is in possession. */
    method ScheduleCompute(gdev: nat) returns (go: bool)
      modifies this
      ensures go <==> old(current) == None || old(current) == Some(gdev)
      ensures current == if go then Some(gdev) else old(current)
    {
      if current.Some? && current != Some(gdev) {
        return false;
      }
      current := Some(gdev);
      go := true;
    }

    /** `gdev_vsched_fifo_select_next_compute`. */
    method SelectNextCompute(gdev: Node<nat>, ghost k: nat, lists: seq<List<Entity>>) returns (next: Option<nat>)
      requires devices.Valid() && k < |devices.Items()| && devices.ns[k + 1] == gdev
      requires Waiting(lists, devices.Items())
      modifies this, devices, devices.ns
      ensures devices.Valid() && devices.Items() == Rotated(old(devices.Items()), k)
      ensures next == FirstBusy(devices.Items(), Busy(lists)) && current == next
      ensures Busy(lists) == old(Busy(lists)) && Waiting(lists, devices.Items())
    {
      MoveToTail(gdev, k, lists);
      next := FindBusy(lists);
      current := next;
    }

    /** The device that has completed goes to the end of the list. */
    method MoveToTail(gdev: Node<nat>, ghost k: nat, ghost lists: seq<List<Entity>>)
      requires devices.Valid() && k < |devices.Items()| && devices.ns[k + 1] == gdev
      requires Waiting(lists, devices.Items())
      modifies devices, devices.ns
      ensures devices.Valid() && devices.Items() == Rotated(old(devices.Items()), k)
      ensures Busy(lists) == old(Busy(lists)) && Waiting(lists, devices.Items())
    {
      RotatedSame(devices.Items(), k);
      forall i | 0 <= i < |devices.Items()| ensures Rotated(devices.Items(), k)[i] < |lists| {
        assert Rotated(devices.Items(), k)[i] in devices.Items();
      }
      ContentsAt(devices.ns[1..], k);
      devices.Remove(gdev, k + 1);
      devices.AddTail(gdev);
    }

    /** The search of the list for a device whose wait list is not empty. */
    method FindBusy(lists: seq<List<Entity>>) returns (next: Option<nat>)
      requires devices.Valid() && Waiting(lists, devices.Items())
      ensures next == FirstBusy(devices.Items(), Busy(lists))
    {
      ghost var ns, items, busy := devices.ns, devices.Items(), Busy(lists);
      var p := devices.head.next;
      ghost var i := 1;
      assert Round(ns)[0].next == Round(ns)[1] && items[0..] == items;
      while p.container.Some?
        invariant 1 <= i <= |ns| && p == Round(ns)[i]
        invariant FirstBusy(items, busy) == FirstBusy(items[i - 1..], busy)
        decreases |ns| - i
      {
        ContentsAt(ns[1..], i - 1);
        var d := p.container.value;
        assert d == items[i - 1];
        var empty := Empty(lists[d].head, lists[d].ns, 0);
        if !empty {
          return p.container;
        }
        assert items[i - 1..][1..] == items[i..];
        assert Round(ns)[i].next == Round(ns)[i + 1];
        p, i := p.next, i + 1;
      }
      next := None;
    }
  }

  // ---------------------------------------------------------------- bounded bypass

  /** Where a device stands in the list: the number of devices ahead of it. */
  function Ahead(order: seq<nat>, d: nat): (k: nat)
    requires d in order
    ensures k < |order| && order[k] == d && forall i :: 0 <= i < k ==> order[i] != d
  {
    if order[0] == d then 0 else 1 + Ahead(order[1..], d)
  }

  /** From the completion of device `c` on, some selection answers `d`: every completion is that of the
      device selected last, and `busys` are the devices with contexts waiting at each selection. */
  ghost predicate Selected(order: seq<nat>, c: nat, busys: seq<set<nat>>, d: nat)
    requires c in order
    decreases |busys|
  {
    if busys == [] then false
    else
      var now := Rotated(order, Ahead(order, c));
      var next := FirstBusy(now, busys[0]);
      FirstBusyIn(now, busys[0]);
      next.Some? && (next.value == d || Selected(now, next.value, busys[1..], d))
  }

  lemma {:induction false} FirstBusyIn(order: seq<nat>, busy: set<nat>)
    ensures var next := FirstBusy(order, busy); next.Some? ==> next.value in order && next.value in busy
  {
    if order != [] {
      FirstBusyIn(order[1..], busy);
    }
  }

  /** A busy device is the first one or has the first one ahead of it. */
  lemma {:induction false} FirstBusyAhead(order: seq<nat>, busy: set<nat>, d: nat)
    requires d in order && d in busy
    ensures FirstBusy(order, busy).Some? && FirstBusy(order, busy).value in order
    ensures
      var next := FirstBusy(order, busy).value;
      next != d ==> Ahead(order, next) < Ahead(order, d)
  {
    FirstBusyIn(order, busy);
    if order[0] !in busy {
      assert order == [order[0]] + order[1..];
      FirstBusyAhead(order[1..], busy, d);
    }
  }

  ghost predicate Once(order: seq<nat>) {
    forall i, j :: 0 <= i < j < |order| ==> order[i] != order[j]
  }

  lemma AheadIs(order: seq<nat>, k: nat)
    requires Once(order) && k < |order|
    ensures Ahead(order, order[k]) == k
  {
  }

  /** A device that goes to the end lets those behind it move up by one. */
  lemma RotatedAhead(order: seq<nat>, c: nat, d: nat)
    requires Once(order) && c in order && d in order
    ensures
      var k := Ahead(order, c);
      var now := Rotated(order, k);
      && Once(now) && |now| == |order| && c in now && d in now
      && (d != c ==> Ahead(now, d) == if k < Ahead(order, d) then Ahead(order, d) - 1 else Ahead(order, d))
  {
    var k := Ahead(order, c);
    var now := Rotated(order, k);
    forall i | 0 <= i < |now| ensures now[i] == order[if i < k then i else if i < |order| - 1 then i + 1 else k] {
    }
    var p := Ahead(order, d);
    var q := if p < k then p else if p > k then p - 1 else |order| - 1;
    assert now[q] == d;
    AheadIs(now, q);
  }

  /** One selection while `d` has contexts waiting: it answers `d` or a device ahead of it. */
  lemma Turn(order: seq<nat>, c: nat, busy: set<nat>, d: nat)
    requires Once(order) && c in order && d in order && d in busy
    ensures
      var now := Rotated(order, Ahead(order, c));
      var next := FirstBusy(now, busy);
      && Once(now) && |now| == |order| && d in now && next.Some? && next.value in now
      && (next.value != d ==> Ahead(now, next.value) < Ahead(now, d))
      && (d != c && Ahead(order, c) < Ahead(order, d) ==> Ahead(now, d) == Ahead(order, d) - 1)
  {
    var now := Rotated(order, Ahead(order, c));
    RotatedAhead(order, c, d);
    FirstBusyAhead(now, busy, d);
  }

  /** A device that keeps contexts waiting is selected once all devices ahead of it had their turn. */
  lemma {:induction false} SelectedBehind(order: seq<nat>, c: nat, busys: seq<set<nat>>, d: nat)
    requires Once(order) && c in order && d in order && c != d && Ahead(order, c) < Ahead(order, d)
    requires Ahead(order, d) <= |busys| && forall i :: 0 <= i < |busys| ==> d in busys[i]
    ensures Selected(order, c, busys, d)
    decreases |busys|
  {
    Turn(order, c, busys[0], d);
    var now := Rotated(order, Ahead(order, c));
    var next := FirstBusy(now, busys[0]).value;
    if next != d {
      SelectedBehind(now, next, busys[1..], d);
    }
  }

  /** Bounded bypass: a device whose list is never empty is selected within as many selections as there
      are devices, whatever device completes first and whatever the others do. */
  lemma SelectedWithinDevices(order: seq<nat>, c: nat, busys: seq<set<nat>>, d: nat)
    requires Once(order) && c in order && d in order
    requires |order| <= |busys| && forall i :: 0 <= i < |busys| ==> d in busys[i]
    ensures Selected(order, c, busys, d)
  {
    Turn(order, c, busys[0], d);
    var now := Rotated(order, Ahead(order, c));
    var next := FirstBusy(now, busys[0]).value;
    if next != d {
      SelectedBehind(now, next, busys[1..], d);
    }
  }

  /** The bound is exact: where every device is always busy, the one that has just completed waits for
      all the others. */
  lemma {:induction false} BypassedByAll(order: seq<nat>, c: nat, busys: seq<set<nat>>, d: nat)
    requires Once(order) && c in order && d in order
    requires if c == d then |busys| < |order| else Ahead(order, c) == 0 && |busys| < Ahead(order, d)
    requires forall i :: 0 <= i < |busys| ==> forall x :: x in order ==> x in busys[i]
    ensures !Selected(order, c, busys, d)
    decreases |busys|
  {
    if busys != [] {
      var now := Rotated(order, Ahead(order, c));
      RotatedAhead(order, c, d);
      FirstBusyIn(now, busys[0]);
      RotatedSame(order, Ahead(order, c));
      assert now[0] in busys[0];
      var next := now[0];
      assert FirstBusy(now, busys[0]) == Some(next);
      if c == d {
        assert now[|now| - 1] == d;
        AheadIs(now, |now| - 1);
      }
      BypassedByAll(now, next, busys[1..], d);
    }
  }

  lemma RotatedSame(order: seq<nat>, k: nat)
    requires k < |order|
    ensures forall x :: x in Rotated(order, k) <==> x in order
  {
    var now := Rotated(order, k);
    assert order == order[..k] + [order[k]] + order[k + 1..];
  }
}

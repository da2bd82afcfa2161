/** The handle allocator: a linked chain of the handles in use, in ascending order. */
module Handles {
  import opened SortedList

  const MAX_HANDLE: nat := 0x4000_0000

  datatype Result<T> = Ok(value: T) | Abort(message: string)

  // ---------------------------------------------------------------- chains as values

  /** Handles in use: positive and strictly ascending. */
  ghost predicate Ascending(hs: seq<nat>) {
    && (forall i :: 0 <= i < |hs| ==> 0 < hs[i])
    && forall i, j :: 0 <= i < j < |hs| ==> hs[i] < hs[j]
  }

  /** How many handles of the chain run without a gap from `h`. */
  function Run(hs: seq<nat>, h: nat): (k: nat)
    ensures k <= |hs| && (forall i :: 0 <= i < k ==> hs[i] == h + i) && (k < |hs| ==> hs[k] != h + k)
  {
    if hs != [] && hs[0] == h then 1 + Run(hs[1..], h + 1) else 0
  }

  function Inserted(hs: seq<nat>, k: nat, h: nat): seq<nat>
    requires k <= |hs|
  {
    hs[..k] + [h] + hs[k..]
  }

  /** The chain after an allocation. */
  function Alloced(hs: seq<nat>): seq<nat> { Inserted(hs, Run(hs, 1), Run(hs, 1) + 1) }

  /** The chain after the release of `h`: the first node with that handle is gone. */
  function Freed(hs: seq<nat>, h: nat): (r: seq<nat>)
    ensures h !in hs ==> r == hs
  {
    if hs == [] then []
    else if hs[0] == h then hs[1..]
    else [hs[0]] + Freed(hs[1..], h)
  }

  /** Where the handle stands in the chain, or its length. */
  function Pos(hs: seq<nat>, h: nat): (k: nat)
    ensures k <= |hs| && (k < |hs| <==> h in hs) && (k < |hs| ==> hs[k] == h)
  {
    if hs == [] || hs[0] == h then 0 else 1 + Pos(hs[1..], h)
  }

  lemma {:induction false} FreedAt(hs: seq<nat>, h: nat)
    requires h in hs
    ensures Freed(hs, h) == hs[..Pos(hs, h)] + hs[Pos(hs, h) + 1..]
  {
    if hs[0] != h {
      FreedAt(hs[1..], h);
      var k := Pos(hs[1..], h);
      assert hs[..k + 1] == [hs[0]] + hs[1..][..k];
    }
  }

  /** The run ends where the chain skips a number. */
  lemma Gap(hs: seq<nat>)
    requires Ascending(hs)
    ensures forall i :: 0 <= i < |hs| ==> if i < Run(hs, 1) then hs[i] <= Run(hs, 1) else Run(hs, 1) + 1 < hs[i]
    ensures forall g: nat :: 0 < g <= Run(hs, 1) ==> g in hs
  {
    var k := Run(hs, 1);
    if k < |hs| {
      AscendingAtLeast(hs, k);
    }
    forall g: nat | 0 < g <= k ensures g in hs {
      assert hs[g - 1] == g;
    }
  }

  lemma InsertedAscending(hs: seq<nat>, k: nat, h: nat)
    requires Ascending(hs) && k <= |hs| && 0 < h
    requires forall i :: 0 <= i < |hs| ==> if i < k then hs[i] < h else h < hs[i]
    ensures Ascending(Inserted(hs, k, h)) && forall g :: g in Inserted(hs, k, h) <==> g == h || g in hs
  {
    var r := Inserted(hs, k, h);
    assert hs == hs[..k] + hs[k..];
    forall i, j | 0 <= i < j < |r| ensures r[i] < r[j] {
      assert i != k ==> r[i] == hs[if i < k then i else i - 1];
      assert j != k ==> r[j] == hs[if j < k then j else j - 1];
    }
  }

  /** An allocation takes the least positive handle that is not in use and keeps the order. */
  lemma AllocTakesLeast(hs: seq<nat>)
    requires Ascending(hs)
    ensures
      var h := Run(hs, 1) + 1;
      && h !in hs && (forall g: nat :: 0 < g < h ==> g in hs) && h <= |hs| + 1
      && Ascending(Alloced(hs)) && forall g :: g in Alloced(hs) <==> g == h || g in hs
  {
    Gap(hs);
    InsertedAscending(hs, Run(hs, 1), Run(hs, 1) + 1);
  }

  lemma {:induction false} AscendingAtLeast(hs: seq<nat>, k: nat)
    requires Ascending(hs) && k < |hs|
    ensures k < hs[k]
  {
    if k > 0 {
      AscendingAtLeast(hs, k - 1);
    }
  }

  /** A release gives back that handle only. */
  lemma {:induction false} FreeRemovesOne(hs: seq<nat>, h: nat)
    requires Ascending(hs)
    ensures Ascending(Freed(hs, h)) && forall g :: g in Freed(hs, h) <==> g in hs && g != h
  {
    if hs != [] {
      assert hs == [hs[0]] + hs[1..];
      if hs[0] != h {
        FreeRemovesOne(hs[1..], h);
        AscendingCons(hs[0], Freed(hs[1..], h));
      }
    }
  }

  lemma AscendingCons(x: nat, hs: seq<nat>)
    requires Ascending(hs) && 0 < x && forall g :: g in hs ==> x < g
    ensures Ascending([x] + hs)
  {
    forall i | 0 <= i < |hs| ensures x < hs[i] {
      assert hs[i] in hs;
    }
  }

  /** Ascending chains with the same handles are the same. */
  lemma {:induction false} SameHandles(a: seq<nat>, b: seq<nat>)
    requires Ascending(a) && Ascending(b) && forall g :: g in a <==> g in b
    ensures a == b
  {
    assert a != [] ==> a[0] in a;
    assert b != [] ==> b[0] in b;
    if a != [] && b != [] {
      assert a[0] in b && b[0] in a;
      assert a == [a[0]] + a[1..] && b == [b[0]] + b[1..];
      forall g ensures g in a[1..] <==> g in b[1..] {
        assert g in a[1..] <==> g in a && g != a[0];
        assert g in b[1..] <==> g in b && g != b[0];
      }
      SameHandles(a[1..], b[1..]);
    }
  }

  /** Releasing the handle just allocated restores the chain. */
  lemma FreeUndoesAlloc(hs: seq<nat>)
    requires Ascending(hs)
    ensures Freed(Alloced(hs), Run(hs, 1) + 1) == hs
  {
    AllocTakesLeast(hs);
    FreeRemovesOne(Alloced(hs), Run(hs, 1) + 1);
    SameHandles(Freed(Alloced(hs), Run(hs, 1) + 1), hs);
  }

  /** Releasing the least handle in use and allocating restores the chain; a handle above a gap does
      not come back. */
  lemma AllocUndoesFreeIff(hs: seq<nat>, h: nat)
    requires Ascending(hs) && h in hs
    ensures Alloced(Freed(hs, h)) == hs <==> h <= Run(hs, 1)
  {
    FreeRemovesOne(hs, h);
    AllocTakesLeast(hs);
    AllocTakesLeast(Freed(hs, h));
    if h <= Run(hs, 1) {
      SameHandles(Alloced(Freed(hs, h)), hs);
    }
  }

  // ---------------------------------------------------------------- the linked chain

  class Handle {
    const handle: nat
    var next: Handle?

    constructor (handle: nat, next: Handle?)
      ensures this.handle == handle && this.next == next
    {
      this.handle, this.next := handle, next;
    }
  }

  /** The nodes of the chain and the null that ends it. */
  ghost function Ended(ns: seq<Handle>): seq<Handle?> {
    var cs: seq<Handle?> := ns;
    cs + [null]
  }

  /** Each node is linked to what follows it. */
  ghost predicate Linked(cs: seq<Handle?>)
    reads cs
  {
    forall i :: 0 <= i < |cs| - 1 ==> cs[i] != null && cs[i].next == cs[i + 1]
  }

  lemma DistinctInserted(ns: seq<Handle>, k: nat, n: Handle)
    requires NoDup(ns) && n !in ns && k <= |ns|
    ensures NoDup(ns[..k] + [n] + ns[k..])
  {
    var r := ns[..k] + [n] + ns[k..];
    forall i, j | 0 <= i < j < |r| ensures r[i] != r[j] {
      assert i != k ==> r[i] == ns[if i < k then i else i - 1];
      assert j != k ==> r[j] == ns[if j < k then j else j - 1];
    }
  }

  lemma DistinctRemoved(ns: seq<Handle>, k: nat)
    requires NoDup(ns) && k < |ns|
    ensures NoDup(ns[..k] + ns[k + 1..])
  {
    var r := ns[..k] + ns[k + 1..];
    forall i | 0 <= i < |r| ensures r[i] == ns[if i < k then i else i + 1] {
    }
  }

  /** A node stands nowhere else in its chain. */
  lemma Nowhere(ns: seq<Handle>, k: nat)
    requires NoDup(ns) && k < |ns|
    ensures ns[k] !in Ended(ns)[..k] && ns[k] !in Ended(ns)[k + 1..]
  {
    forall i | 0 <= i < |Ended(ns)| && i != k ensures Ended(ns)[i] != ns[k] {
    }
  }

  lemma SplicedHandles(ns: seq<Handle>, k: nat, n: Handle)
    requires k <= |ns|
    ensures HandlesOf(ns[..k] + [n] + ns[k..]) == Inserted(HandlesOf(ns), k, n.handle)
  {
    HandlesSplit(ns, k);
    HandlesConcat(ns[..k], [n]);
    HandlesConcat(ns[..k] + [n], ns[k..]);
    assert HandlesOf([n]) == [n.handle];
  }

  lemma SplicedChain(ns: seq<Handle>, k: nat, n: Handle)
    requires k <= |ns|
    ensures Ended(ns[..k] + [n] + ns[k..]) == Ended(ns)[..k] + ([n] + Ended(ns)[k..])
  {
  }

  lemma UnlinkedHandles(ns: seq<Handle>, k: nat)
    requires k < |ns|
    ensures HandlesOf(ns[..k] + ns[k + 1..]) == HandlesOf(ns)[..k] + HandlesOf(ns)[k + 1..]
  {
    HandlesSplit(ns, k);
    HandlesSplit(ns, k + 1);
    HandlesConcat(ns[..k], ns[k + 1..]);
  }

  lemma UnlinkedChain(ns: seq<Handle>, k: nat)
    requires k < |ns|
    ensures Ended(ns[..k] + ns[k + 1..]) == Ended(ns)[..k] + Ended(ns)[k + 1..]
  {
  }

  lemma Parts(cs: seq<Handle?>, k: nat)
    requires Linked(cs) && k <= |cs|
    ensures Linked(cs[..k]) && Linked(cs[k..])
  {
  }

  /** Links the node `from`, the last one of `a`, to `to`, where `b` starts. */
  method Relink(from: Handle, to: Handle?, ghost a: seq<Handle?>, ghost b: seq<Handle?>)
    requires a != [] && b != [] && a[|a| - 1] == from && b[0] == to && Linked(a) && Linked(b)
    requires from !in a[..|a| - 1] && from !in b
    modifies from
    ensures from.next == to && Linked(a + b)
  {
    from.next := to;
    assert Linked(a) by {
      forall i | 0 <= i < |a| - 1 ensures a[i] != null && a[i].next == a[i + 1] {
        assert a[i] in a[..|a| - 1];
      }
    }
    assert Linked(b);
  }

  ghost function HandlesOf(ns: seq<Handle>): (hs: seq<nat>)
    ensures |hs| == |ns|
  {
    if ns == [] then [] else [ns[0].handle] + HandlesOf(ns[1..])
  }

  lemma {:induction false} HandleAt(ns: seq<Handle>, k: nat)
    requires k < |ns|
    ensures HandlesOf(ns)[k] == ns[k].handle
  {
    if k > 0 {
      HandleAt(ns[1..], k - 1);
    }
  }

  lemma {:induction false} HandlesConcat(a: seq<Handle>, b: seq<Handle>)
    ensures HandlesOf(a + b) == HandlesOf(a) + HandlesOf(b)
  {
    if a == [] {
      assert a + b == b;
    } else {
      assert (a + b)[1..] == a[1..] + b;
      HandlesConcat(a[1..], b);
    }
  }

  /** The handles before and from node `k` on. */
  lemma HandlesSplit(ns: seq<Handle>, k: nat)
    requires k <= |ns|
    ensures HandlesOf(ns)[..k] == HandlesOf(ns[..k]) && HandlesOf(ns)[k..] == HandlesOf(ns[k..])
  {
    assert ns == ns[..k] + ns[k..];
    HandlesConcat(ns[..k], ns[k..]);
  }

  class Context {
    var hchain: Handle?
    ghost var ns: seq<Handle>

    ghost function Chain(): seq<nat>
      reads this
    {
      HandlesOf(ns)
    }

    /** The chain is linked from its start to null. */
    ghost predicate Chained()
      reads this, ns
    {
      NoDup(ns) && Linked(Ended(ns)) && hchain == Ended(ns)[0]
    }

    ghost predicate Valid()
      reads this, ns
    {
      Chained() && Ascending(Chain())
    }

    constructor ()
      ensures Valid() && Chain() == []
    {
      hchain, ns := null, [];
    }

    /** The node before position `k`. */
    ghost function Before(k: nat): Handle?
      requires k <= |ns|
      reads this
    {
      if k == 0 then null else ns[k - 1]
    }

    /** The walk to the first number that the chain skips. */
    method FindGap() returns (before: Handle?, p: Handle?, expected: nat)
      requires Valid()
      ensures
        var k := Run(Chain(), 1);
        expected == k + 1 && p == Ended(ns)[k] && before == Before(k)
    {
      ghost var hs := Chain();
      before, p, expected := null, hchain, 1;
      ghost var k := 0;
      assert hs[0..] == hs;
      while p != null && p.handle == expected
        invariant 0 <= k <= |ns| && p == Ended(ns)[k] && expected == k + 1 && before == Before(k)
        invariant Run(hs, 1) == k + Run(hs[k..], k + 1)
        decreases |ns| - k
      {
        HandleAt(ns, k);
        assert hs[k..][1..] == hs[k + 1..];
        before, p, expected, k := p, p.next, expected + 1, k + 1;
      }
      if k < |ns| {
        HandleAt(ns, k);
      }
    }

    /** `nvrm_handle_alloc`: take the first number that the chain skips. */
    method Alloc() returns (r: Result<nat>)
      requires Valid()
      modifies this, ns
      ensures Valid()
      ensures
        var h := Run(old(Chain()), 1) + 1;
        if h > 0x4000_0000 then r.Abort? && Chain() == old(Chain())
        else r == Ok(h) && Chain() == Alloced(old(Chain()))
      ensures r.Ok? ==>
                && 0 < r.value && r.value !in old(Chain()) && (forall g: nat :: 0 < g < r.value ==> g in old(Chain()))
                && forall g :: g in Chain() <==> g == r.value || g in old(Chain())
    {
      var before, p, expected := FindGap();
      AllocTakesLeast(Chain());
      if expected > MAX_HANDLE {
        return Abort("Out of handles!");
      }
      var n := new Handle(expected, p);
      Splice(before, n, Run(Chain(), 1));
      r := Ok(expected);
    }

    /** Link a new node behind `before`, or at the start of the chain. */
    method Splice(before: Handle?, n: Handle, ghost k: nat)
      requires Chained() && k <= |ns| && n !in ns && n.next == Ended(ns)[k] && before == Before(k)
      modifies this, ns
      ensures Chained() && Chain() == Inserted(old(Chain()), k, n.handle)
    {
      ghost var cs := Ended(ns);
      SplicedHandles(ns, k, n);
      SplicedChain(ns, k, n);
      DistinctInserted(ns, k, n);
      Parts(cs, k);
      assert Linked([n] + cs[k..]);
      ghost var now := ns[..k] + [n] + ns[k..];
      if before == null {
        hchain := n;
      } else {
        Nowhere(ns, k - 1);
        Relink(before, n, cs[..k], [n] + cs[k..]);
      }
      ns := now;
    }

    /** The walk to the first node with the handle. */
    method Find(h: nat) returns (before: Handle?, p: Handle?)
      requires Valid()
      ensures
        var k := Pos(Chain(), h);
        p == Ended(ns)[k] && before == Before(k)
    {
      ghost var hs := Chain();
      before, p := null, hchain;
      ghost var k := 0;
      assert hs[0..] == hs;
      while p != null && p.handle != h
        invariant 0 <= k <= |ns| && p == Ended(ns)[k] && before == Before(k)
        invariant Pos(hs, h) == k + Pos(hs[k..], h)
        decreases |ns| - k
      {
        HandleAt(ns, k);
        assert hs[k..][1..] == hs[k + 1..];
        before, p, k := p, p.next, k + 1;
      }
      if k < |ns| {
        HandleAt(ns, k);
      }
    }

    /** `nvrm_handle_free`: unlink the node with the handle. */
    method Free(h: nat) returns (r: Result<()>)
      requires Valid()
      modifies this, ns
      ensures Valid()
      ensures r.Ok? <==> h in old(Chain())
      ensures Chain() == Freed(old(Chain()), h)
      ensures forall g :: g in Chain() <==> g in old(Chain()) && g != h
    {
      FreeRemovesOne(Chain(), h);
      var before, p := Find(h);
      if p == null {
        return Abort("Tried to free nonexistent handle");
      }
      FreedAt(Chain(), h);
      Unlink(before, p, Pos(Chain(), h));
      r := Ok(());
    }

    method Unlink(before: Handle?, p: Handle, ghost k: nat)
      requires Chained() && k < |ns| && p == ns[k] && before == Before(k)
      modifies this, ns
      ensures Chained() && Chain() == old(Chain())[..k] + old(Chain())[k + 1..]
    {
      ghost var cs := Ended(ns);
      UnlinkedHandles(ns, k);
      UnlinkedChain(ns, k);
      DistinctRemoved(ns, k);
      Parts(cs, k);
      Parts(cs, k + 1);
      ghost var now := ns[..k] + ns[k + 1..];
      assert cs[k] == p && cs[k].next == cs[k + 1];
      if before == null {
        hchain := p.next;
      } else {
        Nowhere(ns, k - 1);
        Relink(before, p.next, cs[..k], cs[k + 1..]);
      }
      ns := now;
    }
  }
}

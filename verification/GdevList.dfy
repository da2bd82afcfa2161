/** The circular doubly linked list of the GPU scheduler. A list is a ring of entries that starts at a
    head entry, the only one without a container. */
module GdevList {
  import opened SortedList
  import opened Options

  class Node<T> {
    var next: Node<T>
    var prev: Node<T>
    const container: Option<T>

    /** `gdev_list_init`: an entry linked to itself. */
    constructor (container: Option<T>)
      ensures this.container == container && Ring([this])
    {
      this.container := container;
      next, prev := this, this;
    }
  }

  /** Each entry is linked to the one behind it, in both directions. */
  ghost predicate Linked<T>(cs: seq<Node<T>>)
    reads cs
  {
    forall i :: 0 <= i < |cs| - 1 ==> cs[i].next == cs[i + 1] && cs[i + 1].prev == cs[i]
  }

  /** The entries `ns` are linked in this order and back to the first one. */
  ghost predicate Ring<T>(ns: seq<Node<T>>)
    reads ns
  {
    ns != [] && NoDup(ns) && Linked(ns + [ns[0]])
  }

  function InsertedAt<T>(s: seq<T>, k: nat, x: T): (r: seq<T>)
    requires k <= |s|
    ensures |r| == |s| + 1 && r[k] == x
  {
    s[..k] + [x] + s[k..]
  }

  lemma AtEnd<T>(s: seq<T>, x: T)
    ensures InsertedAt(s, |s|, x) == s + [x]
  {
  }

  lemma DistinctInserted<T>(ns: seq<Node<T>>, k: nat, e: Node<T>)
    requires NoDup(ns) && e !in ns && k <= |ns|
    ensures NoDup(InsertedAt(ns, k, e))
  {
    var r := InsertedAt(ns, k, e);
    forall i, j | 0 <= i < j < |r| ensures r[i] != r[j] {
      assert i != k ==> r[i] == ns[if i < k then i else i - 1];
      assert j != k ==> r[j] == ns[if j < k then j else j - 1];
    }
  }

  /** An entry linked between two chains joins them. */
  lemma Joined<T>(a: seq<Node<T>>, e: Node<T>, b: seq<Node<T>>)
    requires a != [] && b != [] && Linked(a) && Linked(b)
    requires a[|a| - 1].next == e && e.prev == a[|a| - 1] && e.next == b[0] && b[0].prev == e
    ensures Linked(a + [e] + b)
  {
  }

  lemma Parts<T>(cs: seq<Node<T>>, k: nat)
    requires Linked(cs) && k <= |cs|
    ensures Linked(cs[..k]) && Linked(cs[k..])
  {
  }

  /** Links `entry` between the neighbours `pos` and `next`. */
  method Link<T>(entry: Node<T>, pos: Node<T>, next: Node<T>, ghost a: seq<Node<T>>, ghost b: seq<Node<T>>)
    requires a != [] && b != [] && Linked(a) && Linked(b) && NoDup(a) && NoDup(b)
    requires entry !in a && entry !in b && a[|a| - 1] == pos && b[0] == next
    requires forall i, j :: 0 <= i < |a| && 0 <= j < |b| && a[i] == b[j] ==> i == 0 && j == |b| - 1
    modifies entry, pos, next
    ensures Linked(a + [entry] + b)
  {
    entry.next := next;
    next.prev := entry;
    entry.prev := pos;
    pos.next := entry;
    assert Linked(a) by {
      forall i | 0 <= i < |a| - 1 ensures a[i].next == a[i + 1] && a[i + 1].prev == a[i] {
        assert a[i] != pos && a[i] != entry && a[i + 1] != entry;
      }
    }
    assert Linked(b) by {
      forall i | 0 <= i < |b| - 1 ensures b[i].next == b[i + 1] && b[i + 1].prev == b[i] {
        assert b[i + 1] != next;
      }
    }
    Joined(a, entry, b);
  }

  /** The way round from the head back to it. */
  ghost function Round<T>(ns: seq<Node<T>>): seq<Node<T>>
    requires ns != []
  {
    ns + [ns[0]]
  }

  lemma SplitRing<T>(ns: seq<Node<T>>, k: nat)
    requires Ring(ns) && 0 < k <= |ns|
    ensures Linked(Round(ns)[..k]) && Linked(Round(ns)[k..]) && NoDup(Round(ns)[..k]) && NoDup(Round(ns)[k..])
    ensures Round(ns)[k - 1] == ns[k - 1] && ns[k - 1].next == Round(ns)[k] && Round(ns)[k].prev == ns[k - 1]
  {
    var cs := Round(ns);
    Parts(cs, k);
    assert cs[k - 1].next == cs[k - 1 + 1];
  }

  lemma InsertedRound<T>(ns: seq<Node<T>>, k: nat, e: Node<T>)
    requires ns != [] && 0 < k <= |ns|
    ensures Round(InsertedAt(ns, k, e)) == Round(ns)[..k] + [e] + Round(ns)[k..]
  {
    assert InsertedAt(ns, k, e)[0] == ns[0];
  }

  /** `gdev_list_add_next`: link the entry behind `pos`. */
  method AddNext<T>(entry: Node<T>, pos: Node<T>, ghost ns: seq<Node<T>>, ghost k: nat)
    requires Ring(ns) && k < |ns| && ns[k] == pos && entry !in ns
    modifies entry, ns
    ensures Ring(InsertedAt(ns, k + 1, entry))
  {
    SplitRing(ns, k + 1);
    DistinctInserted(ns, k + 1, entry);
    InsertedRound(ns, k + 1, entry);
    Link(entry, pos, pos.next, Round(ns)[..k + 1], Round(ns)[k + 1..]);
  }

  /** `gdev_list_add_prev`: link the entry before `pos`; before the head is the end of the list. */
  method AddPrev<T>(entry: Node<T>, pos: Node<T>, ghost ns: seq<Node<T>>, ghost k: nat)
    requires Ring(ns) && 0 < k <= |ns| && Round(ns)[k] == pos && entry !in ns
    modifies entry, ns
    ensures Ring(InsertedAt(ns, k, entry))
  {
    SplitRing(ns, k);
    DistinctInserted(ns, k, entry);
    InsertedRound(ns, k, entry);
    Link(entry, pos.prev, pos, Round(ns)[..k], Round(ns)[k..]);
  }

  lemma DistinctRemoved<T>(ns: seq<Node<T>>, k: nat)
    requires NoDup(ns) && k < |ns|
    ensures NoDup(RemoveAt(ns, k)) && ns[k] !in RemoveAt(ns, k)
  {
    var r := RemoveAt(ns, k);
    forall i | 0 <= i < |r| ensures r[i] == ns[if i < k then i else i + 1] {
    }
  }

  /** Two chains whose ends are linked to each other. */
  lemma Closed<T>(a: seq<Node<T>>, b: seq<Node<T>>)
    requires a != [] && b != [] && Linked(a) && Linked(b) && a[|a| - 1].next == b[0] && b[0].prev == a[|a| - 1]
    ensures Linked(a + b)
  {
  }

  /** Takes out what stands between two neighbours. */
  method Bypass<T>(entry: Node<T>, prev: Node<T>, next: Node<T>, ghost a: seq<Node<T>>, ghost b: seq<Node<T>>)
    requires a != [] && b != [] && Linked(a) && Linked(b) && NoDup(a) && NoDup(b)
    requires entry !in a && entry !in b && a[|a| - 1] == prev && b[0] == next
    requires forall i, j :: 0 <= i < |a| && 0 <= j < |b| && a[i] == b[j] ==> i == 0 && j == |b| - 1
    modifies entry, prev, next
    ensures Linked(a + b) && Ring([entry])
  {
    prev.next := next;
    next.prev := prev;
    entry.next, entry.prev := entry, entry;
    assert Linked(a) by {
      forall i | 0 <= i < |a| - 1 ensures a[i].next == a[i + 1] && a[i + 1].prev == a[i] {
        assert a[i] != prev && a[i] != entry && a[i + 1] != entry;
      }
    }
    assert Linked(b) by {
      forall i | 0 <= i < |b| - 1 ensures b[i].next == b[i + 1] && b[i + 1].prev == b[i] {
        assert b[i + 1] != next;
      }
    }
    Closed(a, b);
  }

  /** `gdev_list_del`: unlink the entry and link it to itself. */
  method Del<T>(entry: Node<T>, ghost ns: seq<Node<T>>, ghost k: nat)
    requires Ring(ns) && 0 < k < |ns| && ns[k] == entry
    modifies ns
    ensures Ring(RemoveAt(ns, k)) && Ring([entry])
  {
    ghost var cs := Round(ns);
    SplitRing(ns, k);
    SplitRing(ns, k + 1);
    DistinctRemoved(ns, k);
    ghost var a, b := cs[..k], cs[k + 1..];
    assert RemoveAt(ns, k)[0] == ns[0];
    assert Round(RemoveAt(ns, k)) == a + b;
    assert entry.prev == a[|a| - 1] && entry.next == b[0];
    Bypass(entry, entry.prev, entry.next, a, b);
  }

  /** `gdev_list_empty`: true just for an entry linked to itself. */
  method Empty<T>(entry: Node<T>, ghost ns: seq<Node<T>>, ghost k: nat) returns (b: bool)
    requires Ring(ns) && k < |ns| && ns[k] == entry
    ensures b <==> |ns| == 1
  {
    assert Round(ns)[k].next == Round(ns)[k + 1];
    b := entry.next == entry.prev && entry.next == entry;
  }

  ghost predicate Full<T>(ns: seq<Node<T>>) {
    forall j :: 0 <= j < |ns| ==> ns[j].container.Some?
  }

  /** What the entries behind the head contain. */
  ghost function Contents<T>(ns: seq<Node<T>>): (s: seq<T>)
    requires Full(ns)
    ensures |s| == |ns|
  {
    if ns == [] then [] else Contents(ns[..|ns| - 1]) + [ns[|ns| - 1].container.value]
  }

  lemma {:induction false} ContentsAt<T>(ns: seq<Node<T>>, i: nat)
    requires i < |ns| && Full(ns)
    ensures Contents(ns)[i] == ns[i].container.value
  {
    if i < |ns| - 1 {
      ContentsAt(ns[..|ns| - 1], i);
    }
  }

  lemma {:induction false} ContentsConcat<T>(a: seq<Node<T>>, b: seq<Node<T>>)
    requires Full(a) && Full(b)
    ensures Contents(a + b) == Contents(a) + Contents(b)
    decreases |b|
  {
    if b == [] {
      assert a + b == a;
    } else {
      var n := |b| - 1;
      assert (a + b)[..|a + b| - 1] == a + b[..n];
      ContentsConcat(a, b[..n]);
    }
  }

  lemma ContentsSplit<T>(ns: seq<Node<T>>, k: nat)
    requires k <= |ns| && Full(ns)
    ensures Contents(ns)[..k] == Contents(ns[..k]) && Contents(ns)[k..] == Contents(ns[k..])
  {
    assert ns == ns[..k] + ns[k..];
    ContentsConcat(ns[..k], ns[k..]);
  }

  lemma FullParts<T>(ns: seq<Node<T>>, k: nat)
    requires k < |ns| && Full(ns)
    ensures Full(ns[..k]) && Full(ns[k..]) && Full(ns[k + 1..]) && Full(ns[..k + 1]) && Full(ns[..k] + ns[k + 1..])
  {
  }

  lemma ContentsWithout<T>(ns: seq<Node<T>>, k: nat)
    requires k < |ns| && Full(ns)
    ensures Full(RemoveAt(ns, k))
    ensures Contents(RemoveAt(ns, k)) == RemoveAt(Contents(ns), k)
  {
    FullParts(ns, k);
    ContentsSplit(ns, k);
    ContentsSplit(ns, k + 1);
    ContentsConcat(ns[..k], ns[k + 1..]);
  }

  lemma FullWith<T>(ns: seq<Node<T>>, k: nat, e: Node<T>)
    requires k <= |ns| && e.container.Some? && Full(ns)
    ensures Full(ns[..k]) && Full(ns[k..]) && Full([e]) && Full(ns[..k] + [e]) && Full(ns[..k] + [e] + ns[k..])
    ensures Contents([e]) == [e.container.value]
  {
    assert [e][..0] == [];
  }

  lemma ContentsWith<T>(ns: seq<Node<T>>, k: nat, e: Node<T>)
    requires k <= |ns| && e.container.Some? && Full(ns)
    ensures Full(InsertedAt(ns, k, e))
    ensures Contents(InsertedAt(ns, k, e)) == InsertedAt(Contents(ns), k, e.container.value)
  {
    FullWith(ns, k, e);
    ContentsSplit(ns, k);
    ContentsConcat(ns[..k], [e]);
    ContentsConcat(ns[..k] + [e], ns[k..]);
  }

  /** A list with its head entry. */
  class List<T> {
    const head: Node<T>
    ghost var ns: seq<Node<T>>

    ghost predicate Valid()
      reads this, ns
    {
      && Ring(ns) && ns[0] == head && head.container.None?
      && forall i :: 1 <= i < |ns| ==> ns[i].container.Some?
    }

    ghost function Items(): seq<T>
      requires Valid()
      reads this, ns
    {
      Contents(ns[1..])
    }

    constructor ()
      ensures Valid() && Items() == [] && fresh(ns)
    {
      var h := new Node<T>(None);
      head, ns := h, [h];
    }

    /** Add an entry at position `k` of the ring, in front of the entry that is there. */
    method AddBefore(entry: Node<T>, pos: Node<T>, ghost k: nat)
      requires Valid() && 0 < k <= |ns| && Round(ns)[k] == pos && entry !in ns && entry.container.Some?
      modifies this, ns, entry
      ensures Valid() && ns == InsertedAt(old(ns), k, entry)
      ensures Items() == InsertedAt(old(Items()), k - 1, entry.container.value)
    {
      AddPrev(entry, pos, ns, k);
      ContentsWith(ns[1..], k - 1, entry);
      assert InsertedAt(ns, k, entry)[1..] == InsertedAt(ns[1..], k - 1, entry);
      ns := InsertedAt(ns, k, entry);
    }

    /** Add an entry at the end (`gdev_list_add_tail`). */
    method AddTail(entry: Node<T>)
      requires Valid() && entry !in ns && entry.container.Some?
      modifies this, ns, entry
      ensures Valid() && ns == old(ns) + [entry] && Items() == old(Items()) + [entry.container.value]
    {
      AtEnd(ns, entry);
      AtEnd(Items(), entry.container.value);
      AddBefore(entry, head, |ns|);
    }

    method Remove(entry: Node<T>, ghost k: nat)
      requires Valid() && 0 < k < |ns| && ns[k] == entry
      modifies this, ns
      ensures Valid() && Ring([entry]) && ns == RemoveAt(old(ns), k) && entry !in ns
      ensures Items() == RemoveAt(old(Items()), k - 1)
    {
      Del(entry, ns, k);
      DistinctRemoved(ns, k);
      ContentsWithout(ns[1..], k - 1);
      assert RemoveAt(ns, k)[1..] == RemoveAt(ns[1..], k - 1);
      ns := RemoveAt(ns, k);
    }

    /** `gdev_list_head` and `gdev_list_container`: the first container, if there is one. */
    method First() returns (x: Option<T>)
      requires Valid()
      ensures x == if Items() == [] then None else Some(Items()[0])
    {
      var b := Empty(head, ns, 0);
      assert Round(ns)[0].next == Round(ns)[1];
      if b {
        return None;
      }
      ContentsAt(ns[1..], 0);
      x := head.next.container;
    }
  }
}

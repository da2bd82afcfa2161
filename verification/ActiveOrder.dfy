/** The priority-indexed queues of a CPU, read as one sequence from the highest priority down. */
module ActiveOrder {
  import opened SortedList
  import opened Entries
  import opened Options
  import ActiveFifo
  import PrioFifo

  type Queues = seq<seq<Entry>>

  ghost function Flat(qs: Queues): seq<Entry> {
    if qs == [] then [] else qs[0] + Flat(qs[1..])
  }

  /** Where queue `k` begins in the sequence. */
  ghost function Offset(qs: Queues, k: nat): nat
    requires k <= |qs|
  {
    |Flat(qs[..k])|
  }

  lemma FlatConcat(a: Queues, b: Queues)
    ensures Flat(a + b) == Flat(a) + Flat(b)
  {
    if a == [] {
      assert a + b == b;
    } else {
      assert (a + b)[1..] == a[1..] + b;
      FlatConcat(a[1..], b);
    }
  }

  lemma FlatSplit(qs: Queues, k: nat)
    requires k < |qs|
    ensures Flat(qs) == Flat(qs[..k]) + qs[k] + Flat(qs[k + 1..])
  {
    FlatConcat(qs[..k], qs[k..]);
    assert qs[..k] + qs[k..] == qs && qs[k..][1..] == qs[k + 1..];
  }

  lemma FlatEmpty(qs: Queues)
    requires forall i :: 0 <= i < |qs| ==> qs[i] == []
    ensures Flat(qs) == []
  {
  }

  /** Replacing one queue replaces its stretch of the sequence. */
  lemma FlatUpdate(qs: Queues, k: nat, q: seq<Entry>)
    requires k < |qs|
    ensures Flat(qs[k := q]) == Flat(qs[..k]) + q + Flat(qs[k + 1..])
  {
    FlatSplit(qs[k := q], k);
    assert qs[k := q][..k] == qs[..k] && qs[k := q][k + 1..] == qs[k + 1..];
  }

  /** The entry at position `p` of queue `k`. */
  lemma FlatAt(qs: Queues, k: nat, p: nat)
    requires k < |qs| && p < |qs[k]|
    ensures Offset(qs, k) + p < |Flat(qs)| && Flat(qs)[Offset(qs, k) + p] == qs[k][p]
  {
    FlatSplit(qs, k);
  }

  /** Where queues `k` to `j` are empty, they take no place. */
  lemma SkipEmpty(qs: Queues, k: nat, j: nat)
    requires k <= j <= |qs| && forall i :: k <= i < j ==> qs[i] == []
    ensures Offset(qs, j) == Offset(qs, k)
  {
    assert qs[..j] == qs[..k] + qs[k..j];
    FlatConcat(qs[..k], qs[k..j]);
    FlatEmpty(qs[k..j]);
  }

  lemma NextOffset(qs: Queues, k: nat)
    requires k < |qs|
    ensures Offset(qs, k + 1) == Offset(qs, k) + |qs[k]|
  {
    FlatSplit(qs[..k + 1], k);
    assert qs[..k + 1][..k] == qs[..k] && qs[..k + 1][k + 1..] == [];
  }

  lemma OffsetMono(qs: Queues, j: nat, k: nat)
    requires j <= k <= |qs|
    ensures Offset(qs, j) <= Offset(qs, k)
  {
    assert qs[..k] == qs[..j] + qs[j..k];
    FlatConcat(qs[..j], qs[j..k]);
  }

  lemma LastOffset(qs: Queues)
    ensures Offset(qs, |qs|) == |Flat(qs)|
  {
    assert qs[..|qs|] == qs;
  }

  // ---------------------------------------------------------------- the sequence at one place

  /** The entry at position `i` of a sequence, if there is one. */
  ghost function At(s: seq<Entry>, i: int): Option<Entry> {
    if 0 <= i < |s| then Some(s[i]) else None
  }

  /** What the scans of the bitmap must find: the first queue from `k` on that is not empty. */
  ghost predicate FirstNonempty(qs: Queues, k: nat, r: int) {
    && (forall i :: k <= i < |qs| && (r == -1 || i < r) ==> qs[i] == [])
    && (r == -1 || (k <= r < |qs| && qs[r] != []))
  }

  /** The last queue up to `k` that is not empty. */
  ghost predicate LastNonempty(qs: Queues, k: int, r: int) {
    && (forall i :: 0 <= i < |qs| && r < i <= k ==> qs[i] == [])
    && (r == -1 || (0 <= r <= k && r < |qs| && qs[r] != []))
  }

  /** The first entry of the first nonempty queue from `k` on stands at the offset of `k`. */
  lemma HeadFrom(qs: Queues, k: nat, r: int)
    requires k <= |qs| && FirstNonempty(qs, k, r)
    ensures At(Flat(qs), Offset(qs, k)) == if r == -1 then None else Some(qs[r][0])
  {
    if r == -1 {
      SkipEmpty(qs, k, |qs|);
      LastOffset(qs);
    } else {
      SkipEmpty(qs, k, r);
      FlatAt(qs, r, 0);
    }
  }

  /** The last entry of the last nonempty queue up to `k` stands just before the offset of `k + 1`. */
  lemma LastUpTo(qs: Queues, k: int, r: int)
    requires -1 <= k < |qs| && LastNonempty(qs, k, r)
    ensures At(Flat(qs), Offset(qs, k + 1) - 1) == if r == -1 then None else Some(qs[r][|qs[r]| - 1])
  {
    if r == -1 {
      SkipEmpty(qs, 0, k + 1);
      assert Offset(qs, 0) == 0;
    } else {
      SkipEmpty(qs, r + 1, k + 1);
      NextOffset(qs, r);
      FlatAt(qs, r, |qs[r]| - 1);
    }
  }

  // ---------------------------------------------------------------- queue operations

  ghost predicate Queued(qs: Queues, t: nat) {
    Listed(Flat(qs), t)
  }

  lemma DistinctInserted(s: seq<Entry>, o: nat, e: Entry)
    requires o <= |s| && Distinct(s) && !Listed(s, e.tid)
    ensures Distinct(s[..o] + [e] + s[o..])
  {
    var r := s[..o] + [e] + s[o..];
    forall i, j | 0 <= i < j < |r| ensures r[i].tid != r[j].tid {
      assert i != o ==> r[i] == s[if i < o then i else i - 1];
      assert j != o ==> r[j] == s[if j < o then j else j - 1];
    }
  }

  lemma DistinctRemoved(s: seq<Entry>, o: nat)
    requires o < |s| && Distinct(s)
    ensures Distinct(RemoveAt(s, o)) && !Listed(RemoveAt(s, o), s[o].tid)
  {
    var r := RemoveAt(s, o);
    forall i | 0 <= i < |r| ensures r[i] == s[if i < o then i else i + 1] {
    }
  }

  /** Splicing into the middle part of a sequence is splicing into the whole. */
  lemma SplicedPart(a: seq<Entry>, q: seq<Entry>, b: seq<Entry>, p: nat, e: Entry)
    requires p <= |q|
    ensures
      var s, o := a + q + b, |a| + p;
      a + (q[..p] + [e] + q[p..]) + b == s[..o] + [e] + s[o..]
  {
    var s, o := a + q + b, |a| + p;
    assert s[..o] == a + q[..p] && s[o..] == q[p..] + b;
  }

  lemma RemovedPart(a: seq<Entry>, q: seq<Entry>, b: seq<Entry>, p: nat)
    requires p < |q|
    ensures
      var s, o := a + q + b, |a| + p;
      s[o] == q[p] && a + RemoveAt(q, p) + b == RemoveAt(s, o)
  {
  }

  /** A task queued nowhere can be queued anywhere: the others keep their order around it. */
  lemma InsertAtKeepsDistinct(qs: Queues, k: nat, p: nat, e: Entry)
    requires k < |qs| && p <= |qs[k]| && Distinct(Flat(qs)) && !Queued(qs, e.tid)
    ensures
      var q := qs[k][..p] + [e] + qs[k][p..];
      var o := Offset(qs, k) + p;
      && o <= |Flat(qs)|
      && Flat(qs[k := q]) == Flat(qs)[..o] + [e] + Flat(qs)[o..]
      && Distinct(Flat(qs[k := q]))
  {
    var a, b := Flat(qs[..k]), Flat(qs[k + 1..]);
    FlatSplit(qs, k);
    FlatUpdate(qs, k, qs[k][..p] + [e] + qs[k][p..]);
    SplicedPart(a, qs[k], b, p, e);
    DistinctInserted(Flat(qs), |a| + p, e);
  }

  /** Removing an entry leaves the others in order. */
  lemma RemoveAtKeepsDistinct(qs: Queues, k: nat, p: nat)
    requires k < |qs| && p < |qs[k]| && Distinct(Flat(qs))
    ensures
      var o := Offset(qs, k) + p;
      && o < |Flat(qs)| && Flat(qs)[o] == qs[k][p]
      && Flat(qs[k := RemoveAt(qs[k], p)]) == RemoveAt(Flat(qs), o)
      && Distinct(Flat(qs[k := RemoveAt(qs[k], p)]))
      && !Queued(qs[k := RemoveAt(qs[k], p)], qs[k][p].tid)
  {
    var a, b := Flat(qs[..k]), Flat(qs[k + 1..]);
    FlatSplit(qs, k);
    FlatUpdate(qs, k, RemoveAt(qs[k], p));
    RemovedPart(a, qs[k], b, p);
    DistinctRemoved(Flat(qs), |a| + p);
  }

  // ---------------------------------------------------------------- priorities

  /** List `k` holds tasks of priority `top - k`. */
  ghost predicate ByPriority(qs: Queues, prios: map<nat, int>, top: int) {
    qs == [] ||
    (ByPriority(qs[1..], prios, top - 1) &&
     forall i :: 0 <= i < |qs[0]| ==> qs[0][i].tid in prios && prios[qs[0][i].tid] == top)
  }

  /** And exactly the queued tasks have a priority. */
  ghost predicate Placed(qs: Queues, prios: map<nat, int>, top: int) {
    ByPriority(qs, prios, top) && prios.Keys == Tids(Flat(qs))
  }

  lemma {:induction false} PriorityAt(qs: Queues, prios: map<nat, int>, top: int, k: nat, i: nat)
    requires ByPriority(qs, prios, top) && k < |qs| && i < |qs[k]|
    ensures qs[k][i].tid in prios && prios[qs[k][i].tid] == top - k
  {
    if k > 0 {
      PriorityAt(qs[1..], prios, top - 1, k - 1, i);
    }
  }

  lemma {:induction false} ByPriorityIf(qs: Queues, prios: map<nat, int>, top: int)
    requires forall k, i :: 0 <= k < |qs| && 0 <= i < |qs[k]| ==>
                              qs[k][i].tid in prios && prios[qs[k][i].tid] == top - k
    ensures ByPriority(qs, prios, top)
  {
    if qs != [] {
      forall k, i | 0 <= k < |qs| - 1 && 0 <= i < |qs[1..][k]|
        ensures qs[1..][k][i].tid in prios && prios[qs[1..][k][i].tid] == top - 1 - k
      {
        assert qs[1..][k] == qs[k + 1];
      }
      ByPriorityIf(qs[1..], prios, top - 1);
    }
  }

  /** The list and the place in it behind a place of the sequence. */
  lemma {:induction false} Located(qs: Queues, i: nat) returns (k: nat, p: nat)
    requires i < |Flat(qs)|
    ensures k < |qs| && p < |qs[k]| && i == Offset(qs, k) + p && Flat(qs)[i] == qs[k][p]
  {
    if i < |qs[0]| {
      k, p := 0, i;
      assert qs[..0] == [];
    } else {
      k, p := Located(qs[1..], i - |qs[0]|);
      assert qs[..k + 1] == [qs[0]] + qs[1..][..k];
      assert qs[..k + 1][1..] == qs[1..][..k];
      k := k + 1;
    }
  }

  /** Earlier lists stand earlier. */
  lemma ListsApart(qs: Queues, k: nat, p: nat, j: nat)
    requires k < |qs| && p < |qs[k]| && j <= |qs|
    ensures k < j ==> Offset(qs, k) + p < Offset(qs, j)
    ensures j <= k ==> Offset(qs, j) <= Offset(qs, k) + p
  {
    NextOffset(qs, k);
    if k < j {
      OffsetMono(qs, k + 1, j);
    } else {
      OffsetMono(qs, j, k);
    }
  }

  /** So the sequence runs from the highest priority down. */
  lemma PlacedDescends(qs: Queues, prios: map<nat, int>, top: int)
    requires Placed(qs, prios, top) && Distinct(Flat(qs))
    ensures ActiveFifo.Descending(ActiveFifo.Queue(Flat(qs), prios))
  {
    var s := Flat(qs);
    forall i | 0 <= i < |s| ensures s[i].tid in prios {
      var k, p := Located(qs, i);
      PriorityAt(qs, prios, top, k, p);
    }
    forall i, j | 0 <= i < j < |s| ensures prios[s[i].tid] >= prios[s[j].tid] {
      var k, p := Located(qs, i);
      var l, q := Located(qs, j);
      PriorityAt(qs, prios, top, k, p);
      PriorityAt(qs, prios, top, l, q);
      ListsApart(qs, l, q, k);
    }
  }

  /** The end of list `k` divides the sequence at its priority. */
  lemma EndDivides(qs: Queues, prios: map<nat, int>, top: int, k: nat)
    requires Placed(qs, prios, top) && k < |qs|
    ensures ActiveFifo.Divides(ActiveFifo.Queue(Flat(qs), prios), Offset(qs, k) + |qs[k]|, top - k)
  {
    NextOffset(qs, k);
    forall i | 0 <= i < |Flat(qs)|
      ensures Flat(qs)[i].tid in prios && (i < Offset(qs, k + 1) <==> top - k <= prios[Flat(qs)[i].tid])
    {
      var l, p := Located(qs, i);
      PriorityAt(qs, prios, top, l, p);
      ListsApart(qs, l, p, k + 1);
    }
  }

  /** How place `p` of list `l` compares to the place by deadline in list `k`. */
  lemma DeadlineApart(qs: Queues, k: nat, e: Entry, l: nat, p: nat)
    requires k < |qs| && l < |qs| && p < |qs[l]|
    ensures
      var i, o := Offset(qs, l) + p, Offset(qs, k) + InsertPos(qs[k], e, DeadlineOf);
      && (l < k ==> i < o) && (k < l ==> o <= i)
      && (l == k && i < o ==> qs[l][p].deadline <= e.deadline)
      && (l == k && i == o ==> e.deadline < qs[l][p].deadline)
  {
    NextOffset(qs, k);
    ListsApart(qs, l, p, k);
    ListsApart(qs, l, p, k + 1);
    var o := InsertPos(qs[k], e, DeadlineOf);
    if l == k && p < o {
      assert DeadlineOf(qs[k][p]) <= DeadlineOf(e);
    }
  }

  /** So does the place by deadline in it, with the deadlines at that priority. */
  lemma DeadlineDivides(qs: Queues, prios: map<nat, int>, top: int, k: nat, e: Entry)
    requires Placed(qs, prios, top) && k < |qs|
    ensures ActiveFifo.DividesByDeadline(
              ActiveFifo.Queue(Flat(qs), prios), Offset(qs, k) + InsertPos(qs[k], e, DeadlineOf), top - k, e.deadline)
  {
    var o := Offset(qs, k) + InsertPos(qs[k], e, DeadlineOf);
    forall i | 0 <= i < |Flat(qs)|
      ensures
        var x := Flat(qs)[i];
        && x.tid in prios
        && (top - k < prios[x.tid] ==> i < o) && (prios[x.tid] < top - k ==> o <= i)
        && (top - k == prios[x.tid] && i < o ==> x.deadline <= e.deadline)
        && (top - k == prios[x.tid] && i == o ==> e.deadline < x.deadline)
    {
      var l, p := Located(qs, i);
      PriorityAt(qs, prios, top, l, p);
      DeadlineApart(qs, k, e, l, p);
    }
  }

  /** What appending to list `k` does to the sequence. */
  lemma AppendedAt(qs: Queues, prios: map<nat, int>, top: int, k: nat, e: Entry)
    requires Placed(qs, prios, top) && Distinct(Flat(qs)) && k < |qs| && !Queued(qs, e.tid)
    ensures
      var now, prios' := qs[k := qs[k] + [e]], prios[e.tid := top - k];
      && Distinct(Flat(now)) && |Flat(now)| == |Flat(qs)| + 1 && Placed(now, prios', top)
      && ActiveFifo.EnqueuedLast(
           ActiveFifo.Queue(Flat(qs), prios), ActiveFifo.Queue(Flat(now), prios'), e, top - k)
  {
    var q := qs[k];
    assert q + [e] == q[..|q|] + [e] + q[|q|..];
    InsertAtKeepsDistinct(qs, k, |q|, e);
    PlacedInserted(qs, prios, top, k, |q|, e);
    EndDivides(qs, prios, top, k);
    assert PrioFifo.PutAt(Flat(qs), Flat(qs[k := q + [e]]), e, Offset(qs, k) + |q|);
  }

  /** What inserting by deadline does. */
  lemma InsertedAt(qs: Queues, prios: map<nat, int>, top: int, k: nat, e: Entry)
    requires Placed(qs, prios, top) && Distinct(Flat(qs)) && k < |qs| && !Queued(qs, e.tid)
    ensures
      var now, prios' := qs[k := Insert(qs[k], e, DeadlineOf)], prios[e.tid := top - k];
      && Distinct(Flat(now)) && |Flat(now)| == |Flat(qs)| + 1 && Placed(now, prios', top)
      && ActiveFifo.EnqueuedByDeadline(
           ActiveFifo.Queue(Flat(qs), prios), ActiveFifo.Queue(Flat(now), prios'), e, top - k)
  {
    var p := InsertPos(qs[k], e, DeadlineOf);
    InsertAtKeepsDistinct(qs, k, p, e);
    PlacedInserted(qs, prios, top, k, p, e);
    DeadlineDivides(qs, prios, top, k, e);
    assert PrioFifo.PutAt(Flat(qs), Flat(qs[k := Insert(qs[k], e, DeadlineOf)]), e, Offset(qs, k) + p);
  }

  /** What a removal does. */
  lemma RemovedAt(qs: Queues, prios: map<nat, int>, top: int, k: nat, p: nat)
    requires Placed(qs, prios, top) && Distinct(Flat(qs)) && k < |qs| && p < |qs[k]|
    ensures
      var t, now := qs[k][p].tid, qs[k := RemoveAt(qs[k], p)];
      && Distinct(Flat(now)) && |Flat(now)| == |Flat(qs)| - 1 && !Queued(now, t)
      && Placed(now, prios - {t}, top)
      && ActiveFifo.Left(ActiveFifo.Queue(Flat(qs), prios), ActiveFifo.Queue(Flat(now), prios - {t}), t)
  {
    RemoveAtKeepsDistinct(qs, k, p);
    PlacedRemoved(qs, prios, top, k, p);
    assert PrioFifo.TakenAt(Flat(qs), Flat(qs[k := RemoveAt(qs[k], p)]), Offset(qs, k) + p);
  }

  lemma PlacedInserted(qs: Queues, prios: map<nat, int>, top: int, k: nat, p: nat, e: Entry)
    requires Placed(qs, prios, top) && k < |qs| && p <= |qs[k]| && Distinct(Flat(qs)) && !Queued(qs, e.tid)
    ensures Placed(qs[k := qs[k][..p] + [e] + qs[k][p..]], prios[e.tid := top - k], top)
  {
    var q, o := qs[k][..p] + [e] + qs[k][p..], Offset(qs, k) + p;
    var now: Queues, prios' := qs[k := q], prios[e.tid := top - k];
    InsertAtKeepsDistinct(qs, k, p, e);
    SplicedTids(Flat(qs), e, o);
    forall l, i | 0 <= l < |now| && 0 <= i < |now[l]|
      ensures now[l][i].tid in prios' && prios'[now[l][i].tid] == top - l
    {
      if l != k || i != p {
        var j := if l == k && p < i then i - 1 else i;
        assert now[l][i] == qs[l][j];
        PriorityAt(qs, prios, top, l, j);
        ListedInFlat(qs, l, j);
      }
    }
    ByPriorityIf(now, prios', top);
  }

  lemma ListedInFlat(qs: Queues, k: nat, p: nat)
    requires k < |qs| && p < |qs[k]|
    ensures Queued(qs, qs[k][p].tid)
  {
    FlatAt(qs, k, p);
  }

  lemma SplicedTids(s: seq<Entry>, e: Entry, o: nat)
    requires o <= |s|
    ensures Tids(s[..o] + [e] + s[o..]) == Tids(s) + {e.tid}
  {
    assert forall x :: x in s[..o] + [e] + s[o..] <==> x == e || x in s[..o] || x in s[o..];
    assert s == s[..o] + s[o..];
  }

  lemma RemovedTids(s: seq<Entry>, o: nat)
    requires o < |s| && Distinct(s)
    ensures Tids(RemoveAt(s, o)) == Tids(s) - {s[o].tid}
  {
    var r := RemoveAt(s, o);
    assert s == s[..o] + [s[o]] + s[o + 1..];
    assert forall x :: x in r <==> x in s[..o] || x in s[o + 1..];
    assert forall i :: 0 <= i < |r| ==> r[i] == s[if i < o then i else i + 1];
  }

  lemma RemovedFrom(qs: Queues, k: nat, p: nat, l: nat, i: nat)
    requires k < |qs| && p < |qs[k]| && l < |qs| && i < |qs[k := RemoveAt(qs[k], p)][l]|
    requires !Queued(qs[k := RemoveAt(qs[k], p)], qs[k][p].tid)
    ensures
      var j := if l == k && p <= i then i + 1 else i;
      var x := qs[k := RemoveAt(qs[k], p)][l][i];
      j < |qs[l]| && x == qs[l][j] && x.tid != qs[k][p].tid
  {
    ListedInFlat(qs[k := RemoveAt(qs[k], p)], l, i);
  }

  lemma PlacedRemoved(qs: Queues, prios: map<nat, int>, top: int, k: nat, p: nat)
    requires Placed(qs, prios, top) && k < |qs| && p < |qs[k]| && Distinct(Flat(qs))
    ensures Placed(qs[k := RemoveAt(qs[k], p)], prios - {qs[k][p].tid}, top)
  {
    var now: Queues := qs[k := RemoveAt(qs[k], p)];
    RemoveAtKeepsDistinct(qs, k, p);
    RemovedTids(Flat(qs), Offset(qs, k) + p);
    forall l, i | 0 <= l < |now| && 0 <= i < |now[l]|
      ensures now[l][i].tid != qs[k][p].tid && now[l][i].tid in prios && prios[now[l][i].tid] == top - l
    {
      RemovedFrom(qs, k, p, l, i);
      PriorityAt(qs, prios, top, l, if l == k && p <= i then i + 1 else i);
    }
    ByPriorityIf(now, prios - {qs[k][p].tid}, top);
  }
}

/** Deadline-sorted lists of started jobs, at most one per task. */
module Entries {
  import opened SortedList

  /** A started job in one of the lists. */
  datatype Entry = Entry(tid: nat, deadline: nat)

  function DeadlineOf(e: Entry): int { e.deadline }

  predicate Listed(es: seq<Entry>, t: nat) {
    exists i :: 0 <= i < |es| && es[i].tid == t
  }

  /** Position of the entry of task `t`. */
  function Find(es: seq<Entry>, t: nat): (i: nat)
    requires Listed(es, t)
    ensures i < |es| && es[i].tid == t && forall j :: 0 <= j < i ==> es[j].tid != t
  {
    if es[0].tid == t then 0 else
    assert Listed(es[1..], t) by {
      var i :| 0 <= i < |es| && es[i].tid == t;
      assert es[1..][i - 1].tid == t;
    }
    1 + Find(es[1..], t)
  }

  ghost predicate Distinct(es: seq<Entry>) {
    forall i, j :: 0 <= i < j < |es| ==> es[i].tid != es[j].tid
  }

  lemma InsertMember(es: seq<Entry>, e: Entry, x: Entry)
    ensures x in Insert(es, e, DeadlineOf) <==> x == e || x in es
  {
    InsertBag(es, e, DeadlineOf);
    assert x in multiset(Insert(es, e, DeadlineOf)) <==> x in multiset(es) + multiset{e};
  }

  lemma InsertList(es: seq<Entry>, e: Entry)
    requires Sorted(es, DeadlineOf) && Distinct(es) && forall x :: x in es ==> x.tid != e.tid
    ensures
      var r := Insert(es, e, DeadlineOf);
      Sorted(r, DeadlineOf) && Distinct(r) && forall x :: x in r <==> x == e || x in es
  {
    InsertSorted(es, e, DeadlineOf);
    var p := InsertPos(es, e, DeadlineOf);
    assert Insert(es, e, DeadlineOf) == es[..p] + [e] + es[p..];
  }

  lemma RemoveList(es: seq<Entry>, k: nat)
    requires Sorted(es, DeadlineOf) && Distinct(es) && k < |es|
    ensures
      var r := RemoveAt(es, k);
      Sorted(r, DeadlineOf) && Distinct(r) && forall x :: x in r <==> x != es[k] && x in es
  {
    var r := RemoveAt(es, k);
    forall x | x in es && x != es[k] ensures x in r {
      var i :| 0 <= i < |es| && es[i] == x;
      assert r[if i < k then i else i - 1] == x;
    }
  }

  lemma NotListed(es: seq<Entry>, t: nat)
    requires !Listed(es, t)
    ensures forall x :: x in es ==> x.tid != t
  {
    forall x | x in es ensures x.tid != t {
      var i :| 0 <= i < |es| && es[i] == x;
    }
  }

  lemma HeadList(wait: seq<Entry>)
    requires wait != [] && Sorted(wait, DeadlineOf) && Distinct(wait)
    ensures Sorted(wait[1..], DeadlineOf) && Distinct(wait[1..])
    ensures forall w :: w in wait[1..] ==> w in wait && w.tid != wait[0].tid && wait[0].deadline <= w.deadline
  {
    forall w | w in wait[1..] ensures w in wait && w.tid != wait[0].tid && wait[0].deadline <= w.deadline {
      var i :| 0 <= i < |wait[1..]| && wait[1..][i] == w;
      assert wait[i + 1] == w && DeadlineOf(wait[0]) <= DeadlineOf(wait[i + 1]);
    }
  }

  /** The tasks of a list. */
  ghost function Tids(es: seq<Entry>): set<nat> {
    set e | e in es :: e.tid
  }

  lemma {:induction false} CountTids(es: seq<Entry>)
    requires Distinct(es)
    ensures |Tids(es)| == |es|
  {
    if es != [] {
      var front, last := es[..|es| - 1], es[|es| - 1];
      CountTids(front);
      TidsAppend(front, last);
      assert es == front + [last];
      forall i | 0 <= i < |front| ensures front[i].tid != last.tid {
      }
      assert last.tid !in Tids(front);
    }
  }

  lemma TidsAppend(es: seq<Entry>, e: Entry)
    ensures Tids(es + [e]) == Tids(es) + {e.tid}
  {
  }
}

/** The one insertion rule that every list of the scheduler uses: walk the list and
    insert before the first element whose key is strictly greater, else at the tail. */
module SortedList {

  ghost predicate Sorted<T>(s: seq<T>, key: T -> int) {
    forall i, j :: 0 <= i < j < |s| ==> key(s[i]) <= key(s[j])
  }

  ghost predicate NoDup<T>(s: seq<T>) {
    forall i, j :: 0 <= i < j < |s| ==> s[i] != s[j]
  }

  function InsertPos<T>(s: seq<T>, x: T, key: T -> int): (p: nat)
    ensures p <= |s|
    ensures forall i :: 0 <= i < p ==> key(s[i]) <= key(x)
    ensures p < |s| ==> key(x) < key(s[p])
  {
    if s == [] || key(x) < key(s[0]) then 0 else 1 + InsertPos(s[1..], x, key)
  }

  function Insert<T>(s: seq<T>, x: T, key: T -> int): (r: seq<T>)
    ensures |r| == |s| + 1
  {
    var p := InsertPos(s, x, key);
    s[..p] + [x] + s[p..]
  }

  lemma InsertBag<T>(s: seq<T>, x: T, key: T -> int)
    ensures multiset(Insert(s, x, key)) == multiset(s) + multiset{x}
  {
    var p := InsertPos(s, x, key);
    assert s == s[..p] + s[p..];
  }

  function RemoveAt<T>(s: seq<T>, k: nat): (r: seq<T>)
    requires k < |s|
    ensures |r| == |s| - 1
  {
    s[..k] + s[k + 1..]
  }

  /** What became of an element spliced in at position `k`. */
  lemma Spliced<T>(s: seq<T>, k: nat, x: T, y: T)
    requires k <= |s|
    ensures
      var t := s[..k] + [x] + s[k..];
      t[k] == x && t[k := y] == s[..k] + [y] + s[k..] && t[..k] + t[k + 1..] == s
  {
    var t := s[..k] + [x] + s[k..];
    assert t[..k] == s[..k] && t[k + 1..] == s[k..];
  }

  lemma InsertSorted<T>(s: seq<T>, x: T, key: T -> int)
    requires Sorted(s, key)
    ensures Sorted(Insert(s, x, key), key)
  {
    var p := InsertPos(s, x, key);
    assert p < |s| ==> forall j :: p <= j < |s| ==> key(x) < key(s[j]);
  }

  lemma SpliceTail<T>(s: seq<T>, x: T, p: nat)
    requires p < |s|
    ensures s[..p + 1] + [x] + s[p + 1..] == [s[0]] + (s[1..][..p] + [x] + s[1..][p..])
  {
    assert s[..p + 1] == [s[0]] + s[1..][..p];
    assert s[p + 1..] == s[1..][p..];
  }

  /** Insertion, one element at a time. */
  lemma InsertUnfold<T>(s: seq<T>, x: T, key: T -> int)
    ensures Insert(s, x, key) ==
            if s == [] || key(x) < key(s[0]) then [x] + s else [s[0]] + Insert(s[1..], x, key)
  {
    if !(s == [] || key(x) < key(s[0])) {
      var p := InsertPos(s[1..], x, key);
      assert Insert(s, x, key) == s[..p + 1] + [x] + s[p + 1..];
      SpliceTail(s, x, p);
    }
  }

  lemma RemoveSorted<T>(s: seq<T>, k: nat, key: T -> int)
    requires Sorted(s, key) && k < |s|
    ensures Sorted(RemoveAt(s, k), key)
  {
  }

  /** The walk `list_for_each_entry` performs to find the insertion point. */
  method FindInsertPos<T>(s: seq<T>, x: T, key: T -> int) returns (p: nat)
    ensures p == InsertPos(s, x, key)
  {
    p := 0;
    while p < |s| && key(s[p]) <= key(x)
      invariant p <= |s|
      invariant InsertPos(s, x, key) == p + InsertPos(s[p..], x, key)
    {
      assert s[p..][1..] == s[p + 1..];
      p := p + 1;
    }
  }
}

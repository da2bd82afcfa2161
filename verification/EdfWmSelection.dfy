/** EDF-WM: choosing the CPUs that share a task, and the windows its jobs pass through. */
module EdfWmSelection {
  import opened Resch
  import opened SortedList
  import Arith

  // ---------------------------------------------------------------- sorting the CPUs

  /** Every CPU once. */
  ghost predicate AllCpus(ids: seq<nat>, n: nat) {
    |ids| == n && NoDup(ids) && forall a :: 0 <= a < |ids| ==> ids[a] < n
  }

  /** Larger runtimes first, and lower CPUs first among equal ones. */
  predicate Precedes(v: seq<nat>, x: nat, y: nat)
    requires x < |v| && y < |v|
  {
    v[x] > v[y] || (v[x] == v[y] && x < y)
  }

  ghost predicate Ranked(v: seq<nat>, ids: seq<nat>)
    requires AllCpus(ids, |v|)
  {
    forall a, b :: 0 <= a < b < |ids| ==> Precedes(v, ids[a], ids[b])
  }

  /** Equal runtimes keep the order of the CPUs. */
  ghost predicate Stable(v: seq<nat>, ids: seq<nat>)
    requires AllCpus(ids, |v|)
  {
    forall a, b :: 0 <= a < b < |ids| && v[ids[a]] == v[ids[b]] ==> ids[a] < ids[b]
  }

  /** The first `i` CPUs are in place: none of those behind has more. */
  ghost predicate Placed(v: seq<nat>, ids: seq<nat>, i: nat)
    requires AllCpus(ids, |v|)
  {
    forall a, b :: 0 <= a < i && a < b < |ids| ==> v[ids[a]] >= v[ids[b]]
  }

  /** The CPU at position `j` has no less than those behind it. */
  ghost predicate Largest(v: seq<nat>, ids: seq<nat>, j: nat)
    requires AllCpus(ids, |v|)
  {
    forall b :: j < b < |ids| ==> v[ids[j]] >= v[ids[b]]
  }

  function Swapped(ids: seq<nat>, j: nat): (r: seq<nat>)
    requires 0 < j < |ids|
    ensures |r| == |ids|
    ensures forall a :: 0 <= a < |ids| ==> r[a] == ids[Source(j, a)]
  {
    ids[j := ids[j - 1]][j - 1 := ids[j]]
  }

  /** Where an element of the exchanged sequence comes from. */
  function Source(j: nat, a: nat): int { if a == j then j - 1 else if a == j - 1 then j else a }

  lemma SwapKeepsAll(ids: seq<nat>, n: nat, j: nat)
    requires AllCpus(ids, n) && 0 < j < |ids|
    ensures AllCpus(Swapped(ids, j), n)
  {
    var now := Swapped(ids, j);
    forall a, b | 0 <= a < b < |now| ensures now[a] != now[b] {
      assert Source(j, a) != Source(j, b);
    }
  }

  /** Exchanging neighbours, the larger one to the front, keeps everything. */
  lemma SwapKeeps(v: seq<nat>, ids: seq<nat>, i: nat, j: nat)
    requires AllCpus(ids, |v|) && i < j < |ids| && v[ids[j]] > v[ids[j - 1]]
    requires Stable(v, ids) && Placed(v, ids, i) && Largest(v, ids, j)
    ensures
      var now := Swapped(ids, j);
      AllCpus(now, |v|) && Stable(v, now) && Placed(v, now, i) && Largest(v, now, j - 1)
  {
    SwapKeepsAll(ids, |v|, j);
    var now := Swapped(ids, j);
    forall a, b | 0 <= a < b < |now| && v[now[a]] == v[now[b]] ensures now[a] < now[b] {
      assert Source(j, a) < Source(j, b);
    }
    forall b | j - 1 < b < |now| ensures v[now[j - 1]] >= v[now[b]] {
      assert b != j ==> now[b] == ids[b];
    }
  }

  /** One pass of the sort: the largest of the CPUs from position `i` on comes to the front. */
  method Pass(v: seq<nat>, ids: array<nat>, i: nat)
    requires AllCpus(ids[..], |v|) && i < ids.Length
    requires Stable(v, ids[..]) && Placed(v, ids[..], i)
    modifies ids
    ensures AllCpus(ids[..], |v|) && Stable(v, ids[..]) && Placed(v, ids[..], i + 1)
  {
    var j := ids.Length - 1;
    while j > i
      invariant i <= j < ids.Length
      invariant AllCpus(ids[..], |v|) && Stable(v, ids[..]) && Placed(v, ids[..], i) && Largest(v, ids[..], j)
    {
      ghost var was := ids[..];
      if v[ids[j]] > v[ids[j - 1]] {
        SwapKeeps(v, was, i, j);
        ids[j], ids[j - 1] := ids[j - 1], ids[j];
        assert ids[..] == Swapped(was, j);
      } else {
        NoSwap(v, was, j);
      }
      j := j - 1;
    }
  }

  lemma NoSwap(v: seq<nat>, ids: seq<nat>, j: nat)
    requires AllCpus(ids, |v|) && 0 < j < |ids| && Largest(v, ids, j) && v[ids[j]] <= v[ids[j - 1]]
    ensures Largest(v, ids, j - 1)
  {
  }

  /** `sort_runtime`: exchange sort of the CPU ids in place. */
  method SortRuntime(v: seq<nat>, ids: array<nat>)
    requires ids.Length == |v|
    modifies ids
    ensures AllCpus(ids[..], |v|) && Ranked(v, ids[..])
  {
    var n := ids.Length;
    for i := 0 to n
      invariant forall a :: 0 <= a < i ==> ids[a] == a
    {
      ids[i] := i;
    }
    var i := 0;
    while i < n - 1
      invariant 0 <= i && (i < n || n == i == 0)
      invariant AllCpus(ids[..], |v|) && Stable(v, ids[..]) && Placed(v, ids[..], i)
    {
      Pass(v, ids, i);
      i := i + 1;
    }
    RankedWhenPlaced(v, ids[..], i);
  }

  lemma RankedWhenPlaced(v: seq<nat>, ids: seq<nat>, i: nat)
    requires AllCpus(ids, |v|) && Stable(v, ids) && Placed(v, ids, i) && |ids| <= i + 1
    ensures Ranked(v, ids)
  {
  }

  // ---------------------------------------------------------------- the best choice

  function Capped(v: seq<nat>, w: nat, c: nat): nat
    requires c < |v|
  {
    if v[c] > w then w else v[c]
  }

  /** What the chosen CPUs give in windows of length `w`. */
  function Given(v: seq<nat>, w: nat, ids: seq<nat>): nat
    requires forall a :: 0 <= a < |ids| ==> ids[a] < |v|
  {
    if ids == [] then 0 else Given(v, w, ids[..|ids| - 1]) + Capped(v, w, ids[|ids| - 1])
  }

  lemma {:induction false} GivenConcat(v: seq<nat>, w: nat, s: seq<nat>, t: seq<nat>)
    requires forall a :: 0 <= a < |s| ==> s[a] < |v|
    requires forall a :: 0 <= a < |t| ==> t[a] < |v|
    ensures Given(v, w, s + t) == Given(v, w, s) + Given(v, w, t)
    decreases |t|
  {
    if t == [] {
      assert s + t == s;
    } else {
      var n := |t| - 1;
      assert (s + t)[..|s + t| - 1] == s + t[..n];
      GivenConcat(v, w, s, t[..n]);
    }
  }

  /** Taking one CPU out of a choice. */
  lemma GivenWithout(v: seq<nat>, w: nat, t: seq<nat>, i: nat)
    requires i < |t| && forall a :: 0 <= a < |t| ==> t[a] < |v|
    ensures
      var rest := t[..i] + t[i + 1..];
      && (forall a :: 0 <= a < |rest| ==> rest[a] < |v|)
      && Given(v, w, t) == Given(v, w, rest) + Capped(v, w, t[i])
  {
    assert t == t[..i] + [t[i]] + t[i + 1..];
    GivenConcat(v, w, t[..i] + [t[i]], t[i + 1..]);
    GivenConcat(v, w, t[..i], [t[i]]);
    GivenConcat(v, w, t[..i], t[i + 1..]);
  }

  ghost predicate Descending(v: seq<nat>, ids: seq<nat>) {
    && (forall a :: 0 <= a < |ids| ==> ids[a] < |v|)
    && forall a, b :: 0 <= a < b < |ids| ==> v[ids[a]] >= v[ids[b]]
  }

  ghost predicate Among(t: seq<nat>, ids: seq<nat>) {
    forall a :: 0 <= a < |t| ==> t[a] in ids
  }

  /** No choice of distinct CPUs gives more than the same number of CPUs from the front. */
  lemma {:induction false} FrontIsBest(v: seq<nat>, w: nat, ids: seq<nat>, t: seq<nat>)
    requires Descending(v, ids) && NoDup(t) && Among(t, ids)
    ensures forall a :: 0 <= a < |t| ==> t[a] < |v|
    ensures |t| <= |ids| && Given(v, w, t) <= Given(v, w, ids[..|t|])
    decreases |ids|
  {
    if t != [] {
      NotEmpty(ids, t);
      var front, c := ids[..|ids| - 1], ids[|ids| - 1];
      assert ids == front + [c];
      if i :| 0 <= i < |t| && t[i] == c {
        RestIn(front, c, t, i);
        FrontIsBest(v, w, front, t[..i] + t[i + 1..]);
        WithLast(v, w, ids, t, i);
      } else {
        NotLast(front, c, t);
        FrontIsBest(v, w, front, t);
        assert front[..|t|] == ids[..|t|];
      }
    }
  }

  lemma NotEmpty(ids: seq<nat>, t: seq<nat>)
    requires Among(t, ids) && t != []
    ensures ids != []
  {
    assert t[0] in ids;
  }

  lemma NotLast(front: seq<nat>, c: nat, t: seq<nat>)
    requires Among(t, front + [c]) && forall a :: 0 <= a < |t| ==> t[a] != c
    ensures Among(t, front)
  {
    forall a | 0 <= a < |t| ensures t[a] in front {
      assert t[a] in front + [c];
    }
  }

  lemma RestIn(front: seq<nat>, c: nat, t: seq<nat>, i: nat)
    requires NoDup(t) && i < |t| && t[i] == c && Among(t, front + [c])
    ensures var rest := t[..i] + t[i + 1..]; NoDup(rest) && Among(rest, front)
  {
    var rest := t[..i] + t[i + 1..];
    DistinctWithout(t, i);
    forall a | 0 <= a < |rest| ensures rest[a] in front {
      var b := if a < i then a else a + 1;
      assert rest[a] == t[b] && t[b] in front + [c];
    }
  }

  /** A choice with the last CPU of all gives no more than the front if the rest of it does not. */
  lemma WithLast(v: seq<nat>, w: nat, ids: seq<nat>, t: seq<nat>, i: nat)
    requires Descending(v, ids) && ids != [] && i < |t| && t[i] == ids[|ids| - 1]
    requires forall a :: 0 <= a < |t| ==> t[a] < |v|
    requires
      var rest := t[..i] + t[i + 1..];
      && |rest| < |ids| && (forall a :: 0 <= a < |rest| ==> rest[a] < |v|)
      && Given(v, w, rest) <= Given(v, w, ids[..|ids| - 1][..|rest|])
    ensures Given(v, w, t) <= Given(v, w, ids[..|t|])
  {
    var k := |t| - 1;
    GivenWithout(v, w, t, i);
    assert ids[..|ids| - 1][..k] == ids[..k] && ids[..k + 1][..k] == ids[..k];
    assert v[ids[k]] >= v[ids[|ids| - 1]];
  }

  lemma DistinctWithout(t: seq<nat>, i: nat)
    requires NoDup(t) && i < |t|
    ensures NoDup(t[..i] + t[i + 1..])
  {
    var r := t[..i] + t[i + 1..];
    forall a | 0 <= a < |r| ensures r[a] == t[if a < i then a else a + 1] {
    }
  }

  lemma {:induction false} GivenMono(v: seq<nat>, w: nat, ids: seq<nat>, i: nat, j: nat)
    requires i <= j <= |ids| && forall a :: 0 <= a < |ids| ==> ids[a] < |v|
    ensures Given(v, w, ids[..i]) <= Given(v, w, ids[..j])
    decreases j
  {
    if i < j {
      GivenMono(v, w, ids, i, j - 1);
      assert ids[..j][..j - 1] == ids[..j - 1];
    }
  }

  /** The sum over the first `num` CPUs is the largest that any choice of at most `num` CPUs gives. */
  lemma SelectionIsOptimal(v: seq<nat>, w: nat, ids: seq<nat>, num: nat, t: seq<nat>)
    requires AllCpus(ids, |v|) && Ranked(v, ids) && num <= |v|
    requires NoDup(t) && |t| <= num && forall a :: 0 <= a < |t| ==> t[a] < |v|
    ensures Given(v, w, t) <= Given(v, w, ids[..num])
  {
    forall c: nat | c < |v| ensures c in ids {
      Complete(ids, |v|, c);
    }
    assert Among(t, ids);
    FrontIsBest(v, w, ids, t);
    GivenMono(v, w, ids, |t|, num);
  }

  /** As many distinct CPUs as there are: each one occurs. */
  lemma Complete(ids: seq<nat>, n: nat, c: nat)
    requires AllCpus(ids, n) && c < n
    ensures c in ids
  {
    var all := ids + [c];
    if c !in ids {
      TooMany(all, n);
    }
  }

  lemma {:induction false} TooMany(t: seq<nat>, n: nat)
    requires NoDup(t) && forall a :: 0 <= a < |t| ==> t[a] < n
    ensures |t| <= n
  {
    if n == 0 {
      assert t == [];
    } else if n - 1 in t {
      var i :| 0 <= i < |t| && t[i] == n - 1;
      var rest := t[..i] + t[i + 1..];
      forall a | 0 <= a < |rest| ensures rest[a] < n - 1 {
        assert rest[a] == t[if a < i then a else a + 1];
      }
      DistinctWithout(t, i);
      TooMany(rest, n - 1);
    } else {
      TooMany(t, n - 1);
    }
  }
}

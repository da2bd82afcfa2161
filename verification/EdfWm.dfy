/** EDF-WM: splitting a task over the CPUs that can take most of it, and the windows of its jobs. */
module EdfWm {
  import opened EdfWmSelection
  import opened Resch
  import opened SortedList
  import opened SplitShares
  import Arith

  /** What each CPU can take in windows of length `w`, as the capacity test answers it. */
  type Spare = (nat, nat) -> nat

  function Values(spare: Spare, w: nat, n: nat): (v: seq<nat>)
    ensures |v| == n && forall c :: 0 <= c < n ==> v[c] == spare(w, c)
  {
    seq(n, c requires 0 <= c < n => spare(w, c))
  }

  /** A choice of at most `num` CPUs. */
  ghost predicate Choice(t: seq<nat>, num: nat, n: nat) {
    NoDup(t) && |t| <= num && forall a :: 0 <= a < |t| ==> t[a] < n
  }

  /** Some choice of at most `num` CPUs gives the task enough in `num` windows. */
  ghost predicate Enough(spare: Spare, n: nat, deadline: nat, need: nat, tick: nat, num: nat)
    requires 0 < num
  {
    var w := deadline / num;
    exists t :: Choice(t, num, n) && need <= tick * Given(Values(spare, w, n), w, t)
  }

  /** The CPUs at the front are enough just when any choice is. */
  lemma EnoughIff(spare: Spare, n: nat, deadline: nat, need: nat, tick: nat, num: nat, ids: seq<nat>)
    requires 0 < num <= n && AllCpus(ids, n) && Ranked(Values(spare, deadline / num, n), ids)
    ensures Enough(spare, n, deadline, need, tick, num) <==>
            need <= tick * Given(Values(spare, deadline / num, n), deadline / num, ids[..num])
  {
    var w := deadline / num;
    var v := Values(spare, w, n);
    var best := Given(v, w, ids[..num]);
    assert Choice(ids[..num], num, n);
    forall t | Choice(t, num, n) ensures tick * Given(v, w, t) <= tick * best {
      SelectionIsOptimal(v, w, ids, num, t);
      Arith.MulMono(Given(v, w, t), best, tick);
    }
  }

  /** Least and greatest of the chosen CPUs that give something; `n` stands for none. */
  ghost predicate Ends(v: seq<nat>, w: nat, chosen: seq<nat>, first: nat, last: nat)
    requires forall a :: 0 <= a < |chosen| ==> chosen[a] < |v|
  {
    && (forall a :: 0 <= a < |chosen| && 0 < Capped(v, w, chosen[a]) ==> first <= chosen[a] <= last < |v|)
    && (if first == |v| then last == |v|
        else first in chosen && last in chosen && first < |v| && last < |v|
             && 0 < Capped(v, w, first) && 0 < Capped(v, w, last))
  }

  /** The shares after the choice: capped for the chosen CPUs. */
  ghost predicate CappedFor(v: seq<nat>, w: nat, chosen: seq<nat>, shares: seq<nat>) {
    && |shares| == |v|
    && forall c :: 0 <= c < |v| ==> shares[c] == if c in chosen then Capped(v, w, c) else v[c]
  }

  lemma EndsStep(v: seq<nat>, w: nat, chosen: seq<nat>, c: nat, first: nat, last: nat)
    requires c < |v| && forall a :: 0 <= a < |chosen| ==> chosen[a] < |v|
    requires Ends(v, w, chosen, first, last)
    ensures
      var gives := 0 < Capped(v, w, c);
      Ends(v, w, chosen + [c], if gives && (first == |v| || first > c) then c else first,
           if gives && (last == |v| || last < c) then c else last)
  {
    assert forall x :: x in chosen + [c] <==> x in chosen || x == c;
  }

  /** The record of a split over the chosen CPUs, with nothing on the others. */
  ghost predicate IsSplit(v: seq<nat>, w: nat, chosen: seq<nat>, r: Record)
    requires forall a :: 0 <= a < |chosen| ==> chosen[a] < |v|
  {
    && |r.shares| == |v| && Ends(v, w, chosen, r.first, r.last)
    && forall c :: 0 <= c < |v| ==> r.shares[c] == if c in chosen then Capped(v, w, c) else 0
  }

  /** What the plugin leaves when `num` CPUs are enough, before it trims the last share. */
  ghost predicate SplitOver(
    spare: Spare, n: nat, deadline: nat, need: nat, tick: nat, num: nat, ids: seq<nat>, r: Record)
    requires 0 < num <= n
  {
    var w := deadline / num;
    var v := Values(spare, w, n);
    && AllCpus(ids, n) && Ranked(v, ids) && IsSplit(v, w, ids[..num], r)
    && need <= tick * Given(v, w, ids[..num])
  }

  class WindowTask {
    var first: nat
    var last: nat
    /** Length of the windows (`deadline` of the record). */
    var window: nat
    const runtime: array<nat>
    /** Where the job is, whether a timer will send it on, and the end of its window. */
    var cpu: nat
    var armed: bool
    var deadlineTime: nat
    ghost var visited: seq<nat>

    constructor (cpus: nat)
      ensures first == last == cpus == runtime.Length && fresh(runtime)
    {
      first, last, window, runtime := cpus, cpus, 0, new nat[cpus](i => 0);
      cpu, armed, deadlineTime, visited := cpus, false, 0, [];
    }

    /** `clear_split_task`. */
    method Clear()
      modifies this, runtime
      ensures first == last == runtime.Length && window == 0 && forall c :: 0 <= c < runtime.Length ==> runtime[c] == 0
    {
      first, last, window := runtime.Length, runtime.Length, 0;
      for c := 0 to runtime.Length
        invariant first == last == runtime.Length && window == 0
        invariant forall i :: 0 <= i < c ==> runtime[i] == 0
      {
        runtime[c] := 0;
      }
    }

    ghost function View(): Record
      reads this, runtime
    {
      Record(first, last, runtime[..])
    }

    /** Take one more CPU: cap its share at the window and note whether it is the first or last. */
    method TakeOne(c: nat)
      requires c < runtime.Length
      modifies this`first, this`last, runtime
      ensures View() == Taken(old(View()), window, c)
    {
      if runtime[c] > window {
        runtime[c] := window;
      }
      if runtime[c] > 0 {
        if first == runtime.Length || first > c {
          first := c;
        }
        if last == runtime.Length || last < c {
          last := c;
        }
      }
      assert runtime[..] == Taken(old(View()), window, c).shares;
    }

    /** The selection of the `num` largest runtimes. */
    method Choose(ids: seq<nat>, num: nat) returns (sum: nat)
      requires AllCpus(ids, runtime.Length) && num <= runtime.Length && first == last == runtime.Length
      modifies this`first, this`last, runtime
      ensures Chosen(old(runtime[..]), window, ids[..num], sum, View())
    {
      ghost var v := runtime[..];
      sum := 0;
      for i := 0 to num
        invariant Chosen(v, window, ids[..i], sum, View())
      {
        ChosenStep(v, window, ids, i, sum, View());
        TakeOne(ids[i]);
        sum := sum + runtime[ids[i]];
      }
    }

    /** Ask the capacity test for every CPU. */
    method Fill(spare: Spare)
      modifies runtime
      ensures runtime[..] == Values(spare, window, runtime.Length)
    {
      for c := 0 to runtime.Length
        invariant forall i :: 0 <= i < c ==> runtime[i] == spare(window, i)
      {
        runtime[c] := spare(window, c);
      }
    }

    /** Clear the shares of the CPUs that were not chosen. */
    method ZeroRest(ids: seq<nat>, num: nat)
      requires AllCpus(ids, runtime.Length) && num <= runtime.Length
      modifies runtime
      ensures forall c :: 0 <= c < runtime.Length ==> runtime[c] == if c in ids[num..] then 0 else old(runtime[c])
    {
      for i := num to runtime.Length
        invariant forall c :: 0 <= c < runtime.Length ==> runtime[c] == if c in ids[num..i] then 0 else old(runtime[c])
      {
        assert ids[num..i + 1] == ids[num..i] + [ids[i]];
        runtime[ids[i]] := 0;
      }
      assert ids[num..runtime.Length] == ids[num..];
    }

    /** One attempt of `split`: windows of a `num`-th of the deadline on the `num` best CPUs. */
    method Try(num: nat, deadline: nat, need: nat, tick: nat, spare: Spare)
      returns (ok: bool, sum: nat, ghost ids: seq<nat>)
      requires 0 < num <= runtime.Length && first == last == runtime.Length
      modifies this, runtime
      ensures window == deadline / num
      ensures ok <==> Enough(spare, runtime.Length, deadline, need, tick, num)
      ensures ok ==> SplitOver(spare, runtime.Length, deadline, need, tick, num, ids, View())
      ensures ok ==> sum == Sum(View().shares) && need <= tick * sum
    {
      window := deadline / num;
      Fill(spare);
      var v := runtime[..];
      var order := new nat[runtime.Length];
      SortRuntime(v, order);
      ids := order[..];
      sum := Choose(order[..], num);
      ghost var r := View();
      EnoughIff(spare, runtime.Length, deadline, need, tick, num, ids);
      ok := tick * sum >= need;
      if ok {
        ZeroRest(order[..], num);
        Zeroed(v, window, ids, num, sum, r, runtime[..]);
        SplitSum(v, window, ids, num, View());
      }
    }

    /** The last CPU gives back what is not needed, in whole jiffies. */
    method Trim(sum: nat, need: nat, tick: Pos)
      requires sum == Sum(View().shares) && need <= tick * sum
      modifies runtime
      ensures View() == Trimmed(old(View()), need, tick)
    {
      var over := tick * sum - need;
      if last < runtime.Length {
        runtime[last] := WordSub(runtime[last], CeilDiv(over, tick));
      }
    }

    /** `split`: the least number of CPUs, from two on, that is enough, with the last share trimmed. It fails
        just when no choice of any number of CPUs is. */
    method Split(deadline: nat, need: nat, tick: Pos, spare: Spare)
      returns (num: nat, ghost ids: seq<nat>, ghost whole: Record)
      requires 2 <= runtime.Length && first == last == runtime.Length
      modifies this, runtime
      ensures 2 <= num <= runtime.Length + 1
      ensures forall m :: 2 <= m < num ==> !Enough(spare, runtime.Length, deadline, need, tick, m)
      ensures num <= runtime.Length ==>
                && window == deadline / num && num * window <= deadline
                && SplitOver(spare, runtime.Length, deadline, need, tick, num, ids, whole)
                && View() == Trimmed(whole, need, tick)
      ensures num > runtime.Length ==>
                first == last == runtime.Length && window == 0 &&
                forall c :: 0 <= c < runtime.Length ==> runtime[c] == 0
    {
      num, ids, whole := 2, [], View();
      while num <= runtime.Length
        invariant 2 <= num <= runtime.Length + 1 && first == last == runtime.Length
        invariant forall m :: 2 <= m < num ==> !Enough(spare, runtime.Length, deadline, need, tick, m)
        invariant num > runtime.Length ==>
                    window == 0 && forall c :: 0 <= c < runtime.Length ==> runtime[c] == 0
      {
        var ok, sum;
        ok, sum, ids := Try(num, deadline, need, tick, spare);
        if ok {
          Arith.DivBounds(deadline, num);
          whole := View();
          Trim(sum, need, tick);
          return;
        }
        num := num + 1;
        Clear();
      }
    }

    // -------------------------------------------------------------- windows of a job

    /** A job released at `release` that has been on the stations up to this CPU, in one window each. */
    ghost predicate Walking(release: nat)
      reads this, runtime
    {
      && OnWay(first, last, runtime[..], cpu, visited) && (armed <==> cpu != last)
      && deadlineTime == release + Passed(|visited|, window)
    }

    /** `job_start` on the first CPU: the first window begins. */
    method JobStart(release: nat)
      requires WellPlaced(first, last, runtime[..]) && cpu == first
      modifies this`armed, this`deadlineTime, this`visited
      ensures Walking(release) && visited == [first]
    {
      armed, visited := first != last, [cpu];
      deadlineTime := release + window;
      Starts(first, last, runtime[..]);
    }

    /** The window ends (`window_timer`), and the thread of the next CPU takes the job over and gives it
        the next window (`migration_thread`). */
    method WindowEnds(ghost release: nat)
      requires Walking(release) && armed
      modifies this`cpu, this`armed, this`deadlineTime, this`visited
      ensures Walking(release) && NextAfter(runtime[..], old(cpu), cpu) && visited == old(visited) + [cpu]
      ensures deadlineTime == old(deadlineTime) + window
    {
      var d := FindNext(runtime, cpu);
      Moves(first, last, runtime[..], cpu, visited, d);
      armed := false;
      if d < runtime.Length {
        deadlineTime := deadlineTime + window;
        cpu, visited := d, visited + [d];
        if last != d {
          armed := true;
        }
      }
    }
  }

  lemma Zeroed(v: seq<nat>, w: nat, ids: seq<nat>, num: nat, sum: nat, r: Record, shares: seq<nat>)
    requires AllCpus(ids, |v|) && num <= |v| && Chosen(v, w, ids[..num], sum, r) && |shares| == |v|
    requires forall c :: 0 <= c < |v| ==> shares[c] == if c in ids[num..] then 0 else r.shares[c]
    ensures IsSplit(v, w, ids[..num], r.(shares := shares))
  {
    forall c: nat | c < |v| ensures shares[c] == if c in ids[..num] then Capped(v, w, c) else 0 {
      Complete(ids, |v|, c);
      assert ids == ids[..num] + ids[num..];
      Apart(ids, num);
    }
  }

  lemma Apart(ids: seq<nat>, k: nat)
    requires NoDup(ids) && k <= |ids|
    ensures forall x :: x in ids[..k] ==> x !in ids[k..]
  {
    forall x | x in ids[..k] ensures x !in ids[k..] {
      var i :| 0 <= i < k && ids[i] == x;
      forall j | 0 <= j < |ids| - k ensures ids[k..][j] != x {
        assert ids[k..][j] == ids[k + j];
      }
    }
  }

  /** The time that `k` windows take. */
  function Passed(k: nat, w: nat): nat {
    if k == 0 then 0 else Passed(k - 1, w) + w
  }

  /** The jiffies, rounded up, by which the shares exceed the need. */
  function Excess(r: Record, need: nat, tick: Pos): nat {
    var given := tick * Sum(r.shares);
    CeilDiv(if given < need then 0 else given - need, tick)
  }

  /** The record with the excess taken from the last share, as an unsigned word. */
  function Trimmed(r: Record, need: nat, tick: Pos): Record {
    if r.last < |r.shares|
    then r.(shares := r.shares[r.last := WordSub(r.shares[r.last], Excess(r, need, tick))])
    else r
  }

  datatype Record = Record(first: nat, last: nat, shares: seq<nat>)

  /** One more CPU in the selection. */
  function Taken(r: Record, w: nat, c: nat): Record
    requires c < |r.shares|
  {
    var s := Capped(r.shares, w, c);
    var n := |r.shares|;
    Record(if s > 0 && (r.first == n || r.first > c) then c else r.first,
           if s > 0 && (r.last == n || r.last < c) then c else r.last,
           r.shares[c := s])
  }

  /** What the selection has done for the CPUs looked at. */
  ghost predicate Chosen(v: seq<nat>, w: nat, chosen: seq<nat>, sum: nat, r: Record) {
    && (forall a :: 0 <= a < |chosen| ==> chosen[a] < |v|)
    && sum == Given(v, w, chosen) && CappedFor(v, w, chosen, r.shares) && Ends(v, w, chosen, r.first, r.last)
  }

  lemma CappedStep(v: seq<nat>, w: nat, chosen: seq<nat>, c: nat, shares: seq<nat>)
    requires CappedFor(v, w, chosen, shares) && c < |v| && c !in chosen
    ensures shares[c] == v[c] && CappedFor(v, w, chosen + [c], shares[c := Capped(v, w, c)])
  {
  }

  lemma GivenStep(v: seq<nat>, w: nat, chosen: seq<nat>, c: nat)
    requires c < |v| && forall a :: 0 <= a < |chosen| ==> chosen[a] < |v|
    ensures Given(v, w, chosen + [c]) == Given(v, w, chosen) + Capped(v, w, c)
  {
    assert (chosen + [c])[..|chosen|] == chosen;
  }

  lemma OneMoreChosen(v: seq<nat>, w: nat, chosen: seq<nat>, c: nat, sum: nat, r: Record)
    requires c < |v| && c !in chosen && Chosen(v, w, chosen, sum, r)
    ensures |r.shares| == |v| && Chosen(v, w, chosen + [c], sum + Taken(r, w, c).shares[c], Taken(r, w, c))
  {
    CappedStep(v, w, chosen, c, r.shares);
    EndsStep(v, w, chosen, c, r.first, r.last);
    GivenStep(v, w, chosen, c);
  }

  lemma ChosenStep(v: seq<nat>, w: nat, ids: seq<nat>, i: nat, sum: nat, r: Record)
    requires AllCpus(ids, |v|) && i < |ids| && Chosen(v, w, ids[..i], sum, r)
    ensures
      var c := ids[i];
      |r.shares| == |v| && Chosen(v, w, ids[..i + 1], sum + Taken(r, w, c).shares[c], Taken(r, w, c))
  {
    assert ids[..i + 1] == ids[..i] + [ids[i]] && ids[i] !in ids[..i];
    OneMoreChosen(v, w, ids[..i], ids[i], sum, r);
  }

  // ---------------------------------------------------------------- the windows fit the deadline

  lemma {:induction false} SomeGives(v: seq<nat>, w: nat, ids: seq<nat>)
    requires (forall a :: 0 <= a < |ids| ==> ids[a] < |v|) && 0 < Given(v, w, ids)
    ensures exists a :: 0 <= a < |ids| && 0 < Capped(v, w, ids[a])
  {
    if Capped(v, w, ids[|ids| - 1]) == 0 {
      SomeGives(v, w, ids[..|ids| - 1]);
      var a :| 0 <= a < |ids| - 1 && 0 < Capped(v, w, ids[..|ids| - 1][a]);
      assert ids[a] == ids[..|ids| - 1][a];
    }
  }

  /** A split that is enough for a positive need has a first and a last CPU, and no more stations
      than windows. */
  lemma SplitWellPlaced(
    spare: Spare, n: nat, deadline: nat, need: nat, tick: nat, num: nat, ids: seq<nat>, r: Record)
    requires 0 < num <= n && SplitOver(spare, n, deadline, need, tick, num, ids, r) && 0 < need
    ensures WellPlaced(r.first, r.last, r.shares) && |Stations(r.shares, 0)| <= num
  {
    var w := deadline / num;
    var v := Values(spare, w, n);
    if Given(v, w, ids[..num]) > 0 {
      SomeGives(v, w, ids[..num]);
    }
    EndsPlaced(v, w, ids[..num], r);
    FrontDescends(v, ids, num);
    FewStations(v, w, ids[..num], r);
  }

  lemma FrontDescends(v: seq<nat>, ids: seq<nat>, num: nat)
    requires AllCpus(ids, |v|) && Ranked(v, ids) && num <= |v|
    ensures Descending(v, ids[..num])
  {
    forall a, b | 0 <= a < b < num ensures v[ids[..num][a]] >= v[ids[..num][b]] {
      assert Precedes(v, ids[a], ids[b]);
    }
  }

  lemma EndsPlaced(v: seq<nat>, w: nat, chosen: seq<nat>, r: Record)
    requires (forall a :: 0 <= a < |chosen| ==> chosen[a] < |v|) && IsSplit(v, w, chosen, r)
    requires exists a :: 0 <= a < |chosen| && 0 < Capped(v, w, chosen[a])
    ensures WellPlaced(r.first, r.last, r.shares)
  {
    var a :| 0 <= a < |chosen| && 0 < Capped(v, w, chosen[a]);
    assert r.first <= chosen[a] <= r.last < |v|;
    forall c | 0 <= c < |v| && 0 < r.shares[c] ensures r.first <= c <= r.last {
      var b :| 0 <= b < |chosen| && chosen[b] == c;
    }
  }

  lemma FewStations(v: seq<nat>, w: nat, chosen: seq<nat>, r: Record)
    requires Descending(v, chosen) && IsSplit(v, w, chosen, r)
    ensures |Stations(r.shares, 0)| <= |chosen|
  {
    var t := Stations(r.shares, 0);
    StationsAscend(r.shares, 0);
    forall a | 0 <= a < |t| ensures t[a] in chosen {
      assert 0 < r.shares[t[a]];
    }
    FrontIsBest(v, w, chosen, t);
  }

  // ---------------------------------------------------------------- the trimmed record

  function SumAt(s: seq<nat>, ids: seq<nat>): nat
    requires forall a :: 0 <= a < |ids| ==> ids[a] < |s|
  {
    if ids == [] then 0 else SumAt(s, ids[..|ids| - 1]) + s[ids[|ids| - 1]]
  }

  lemma {:induction false} SumAtConcat(s: seq<nat>, t: seq<nat>, u: seq<nat>)
    requires forall a :: 0 <= a < |t| ==> t[a] < |s|
    requires forall a :: 0 <= a < |u| ==> u[a] < |s|
    ensures SumAt(s, t + u) == SumAt(s, t) + SumAt(s, u)
    decreases |u|
  {
    if u == [] {
      assert t + u == t;
    } else {
      var n := |u| - 1;
      assert (t + u)[..|t + u| - 1] == t + u[..n];
      SumAtConcat(s, t, u[..n]);
    }
  }

  lemma {:induction false} SumAtFront(s: seq<nat>, ids: seq<nat>)
    requires s != [] && forall a :: 0 <= a < |ids| ==> ids[a] < |s| - 1
    ensures SumAt(s, ids) == SumAt(s[..|s| - 1], ids)
  {
    if ids != [] {
      SumAtFront(s, ids[..|ids| - 1]);
    }
  }

  lemma SumAtWithout(s: seq<nat>, ids: seq<nat>, i: nat)
    requires i < |ids| && forall a :: 0 <= a < |ids| ==> ids[a] < |s|
    ensures
      var rest := ids[..i] + ids[i + 1..];
      && (forall a :: 0 <= a < |rest| ==> rest[a] < |s|)
      && SumAt(s, ids) == SumAt(s, rest) + s[ids[i]]
  {
    assert ids == ids[..i] + [ids[i]] + ids[i + 1..] && [ids[i]][..0] == [];
    SumAtConcat(s, ids[..i] + [ids[i]], ids[i + 1..]);
    SumAtConcat(s, ids[..i], [ids[i]]);
    SumAtConcat(s, ids[..i], ids[i + 1..]);
  }

  /** Without the last CPU every other one is still there once. */
  lemma AllWithout(ids: seq<nat>, n: nat, i: nat)
    requires AllCpus(ids, n + 1) && i < |ids| && ids[i] == n
    ensures AllCpus(ids[..i] + ids[i + 1..], n)
  {
    var rest := ids[..i] + ids[i + 1..];
    DistinctWithout(ids, i);
    forall a | 0 <= a < |rest| ensures rest[a] < n {
      assert rest[a] == ids[if a < i then a else a + 1];
    }
  }

  /** Summing over every CPU once is summing all. */
  lemma {:induction false} SumAtAll(s: seq<nat>, ids: seq<nat>)
    requires AllCpus(ids, |s|)
    ensures SumAt(s, ids) == Sum(s)
  {
    if s != [] {
      var n := |s| - 1;
      Complete(ids, |s|, n);
      var i :| 0 <= i < |ids| && ids[i] == n;
      var rest := ids[..i] + ids[i + 1..];
      AllWithout(ids, n, i);
      SumAtAll(s[..n], rest);
      SumAtFront(s, rest);
      SumAtWithout(s, ids, i);
    }
  }

  lemma {:induction false} SumAtChosen(v: seq<nat>, w: nat, shares: seq<nat>, t: seq<nat>)
    requires |shares| == |v| && forall a :: 0 <= a < |t| ==> t[a] < |v| && shares[t[a]] == Capped(v, w, t[a])
    ensures SumAt(shares, t) == Given(v, w, t)
  {
    if t != [] {
      SumAtChosen(v, w, shares, t[..|t| - 1]);
    }
  }

  lemma {:induction false} SumAtNothing(shares: seq<nat>, t: seq<nat>)
    requires forall a :: 0 <= a < |t| ==> t[a] < |shares| && shares[t[a]] == 0
    ensures SumAt(shares, t) == 0
  {
    if t != [] {
      SumAtNothing(shares, t[..|t| - 1]);
    }
  }

  /** The shares of a split sum to what the chosen CPUs give. */
  lemma SplitSum(v: seq<nat>, w: nat, ids: seq<nat>, num: nat, r: Record)
    requires AllCpus(ids, |v|) && num <= |v| && IsSplit(v, w, ids[..num], r)
    ensures Sum(r.shares) == Given(v, w, ids[..num])
  {
    assert ids == ids[..num] + ids[num..];
    SplitParts(v, w, ids, num, r);
    SumAtAll(r.shares, ids);
    SumAtConcat(r.shares, ids[..num], ids[num..]);
    SumAtChosen(v, w, r.shares, ids[..num]);
    SumAtNothing(r.shares, ids[num..]);
  }

  lemma SplitParts(v: seq<nat>, w: nat, ids: seq<nat>, num: nat, r: Record)
    requires AllCpus(ids, |v|) && num <= |v| && IsSplit(v, w, ids[..num], r)
    ensures forall a :: 0 <= a < num ==> r.shares[ids[..num][a]] == Capped(v, w, ids[..num][a])
    ensures forall a :: 0 <= a < |ids| - num ==> r.shares[ids[num..][a]] == 0
  {
    Apart(ids, num);
    forall a | 0 <= a < num ensures r.shares[ids[..num][a]] == Capped(v, w, ids[..num][a]) {
      assert ids[..num][a] in ids[..num];
    }
    forall a | 0 <= a < |ids| - num ensures r.shares[ids[num..][a]] == 0 {
      assert ids[num..][a] in ids[num..];
    }
  }

  lemma {:induction false} SumUpdate(s: seq<nat>, k: nat, x: nat)
    requires k < |s|
    ensures Sum(s[k := x]) == Sum(s) - s[k] + x
  {
    var n := |s| - 1;
    if k < n {
      SumUpdate(s[..n], k, x);
      assert s[k := x][..n] == s[..n][k := x];
    } else {
      assert s[k := x][..n] == s[..n];
    }
  }

  /** The trim leaves the last CPU a share, and does not wrap, just when the excess is less than that share;
      then the job still walks over the same CPUs. */
  lemma TrimKeepsPlacesIff(r: Record, need: nat, tick: Pos)
    requires WellPlaced(r.first, r.last, r.shares) && r.shares[r.last] < WORD && Excess(r, need, tick) < WORD
    ensures
      var t := Trimmed(r, need, tick);
      && |t.shares| == |r.shares|
      && (WellPlaced(t.first, t.last, t.shares) && t.shares[t.last] <= r.shares[r.last] <==>
          Excess(r, need, tick) < r.shares[r.last])
  {
  }

  lemma {:induction false} SameStations(s: seq<nat>, t: seq<nat>, c: nat)
    requires |s| == |t| && c <= |s| && forall i :: c <= i < |s| ==> (0 < s[i] <==> 0 < t[i])
    ensures Stations(s, c) == Stations(t, c)
    decreases |s| - c
  {
    if c < |s| {
      SameStations(s, t, c + 1);
    }
  }

  /** So a split over `num` CPUs leaves a job its way, over no more stations than windows, just when the
      excess is less than the last share. */
  lemma SplitWellPlacedIff(
    spare: Spare, n: nat, deadline: nat, need: nat, tick: Pos, num: nat, ids: seq<nat>, r: Record)
    requires 0 < num <= n && SplitOver(spare, n, deadline, need, tick, num, ids, r) && 0 < need
    requires Excess(r, need, tick) < WORD && forall c :: 0 <= c < |r.shares| ==> r.shares[c] < WORD
    ensures r.last < |r.shares|
    ensures
      var t := Trimmed(r, need, tick);
      && |t.shares| == |r.shares|
      && (WellPlaced(t.first, t.last, t.shares) && t.shares[t.last] <= r.shares[r.last] <==>
          Excess(r, need, tick) < r.shares[r.last])
      && (Excess(r, need, tick) < r.shares[r.last] ==> |Stations(t.shares, 0)| <= num)
  {
    SplitWellPlaced(spare, n, deadline, need, tick, num, ids, r);
    TrimKeepsPlacesIff(r, need, tick);
    if Excess(r, need, tick) < r.shares[r.last] {
      SameStations(r.shares, Trimmed(r, need, tick).shares, 0);
    }
  }

  /** Two CPUs that give 10 and 2 jiffies for 9.5: the excess of 3 jiffies wraps the last share. */
  lemma TrimWraps()
    ensures Excess(Record(0, 1, [10, 2]), 9500, 1000) == 3
    ensures Trimmed(Record(0, 1, [10, 2]), 9500, 1000).shares == [10, WORD - 1]
  {
    assert [10, 2][..1] == [10] && [10][..0] == [];
    assert Sum([10]) == 10 && Sum([10, 2]) == 12;
  }

  /** What is left is never more than needed and short of it by less than a jiffy: exactly what is needed
      just for whole jiffies. */
  lemma TrimmedGives(r: Record, need: nat, tick: Pos)
    requires r.last < |r.shares| && need <= tick * Sum(r.shares) && Excess(r, need, tick) <= r.shares[r.last]
    ensures
      var given := tick * Sum(Trimmed(r, need, tick).shares);
      given <= need < given + tick && (given == need <==> need % tick == 0)
  {
    SumUpdate(r.shares, r.last, r.shares[r.last] - Excess(r, need, tick));
    LeftOver(Sum(r.shares), need, tick);
  }

  lemma LeftOver(s: nat, need: nat, tick: Pos)
    requires need <= tick * s
    ensures
      var left := s - CeilDiv(tick * s - need, tick);
      tick * left <= need < tick * left + tick && (tick * left == need <==> need % tick == 0)
  {
    var o := CeilDiv(tick * s - need, tick);
    assert tick * (s - o) == tick * s - o * tick;
    WholeJiffies(s - o, need, tick);
  }

  lemma WholeJiffies(k: int, need: nat, tick: Pos)
    requires tick * k <= need < tick * k + tick
    ensures tick * k == need <==> need % tick == 0
  {
    Arith.DivUnique(need, tick, if k < 0 then 0 else k);
  }

  // ---------------------------------------------------------------- windows

  lemma {:induction false} PassedIs(k: nat, w: nat)
    ensures Passed(k, w) == k * w
  {
    if k > 0 {
      PassedIs(k - 1, w);
      assert k * w == (k - 1) * w + w;
    }
  }

  lemma PassedFits(k: nat, num: nat, deadline: nat)
    requires 0 < num && k <= num
    ensures Passed(k, deadline / num) <= deadline
  {
    PassedIs(k, deadline / num);
    Arith.DivBounds(deadline, num);
    Arith.MulMono(k, num, deadline / num);
  }

  /** A job that is under way passes through at most `num` windows: the end of its window never lies
      behind the deadline the task had before the split. */
  lemma WindowsFit(shares: seq<nat>, first: nat, last: nat, cpu: nat, visited: seq<nat>, num: nat, deadline: nat)
    requires 0 < num && OnWay(first, last, shares, cpu, visited) && |Stations(shares, 0)| <= num
    ensures Passed(|visited|, deadline / num) <= deadline
  {
    SeenStations(shares, first, last, cpu, visited);
    PassedFits(|visited|, num, deadline);
  }

  lemma SeenStations(shares: seq<nat>, first: nat, last: nat, cpu: nat, visited: seq<nat>)
    requires OnWay(first, last, shares, cpu, visited)
    ensures |visited| <= |Stations(shares, 0)|
  {
    assert |Stations(shares, 0)| == |visited| + |Stations(shares, cpu + 1)|;
  }
}

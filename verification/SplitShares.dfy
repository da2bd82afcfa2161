/** The shares a split gives the CPUs, and the way a split job takes through them. */
module SplitShares {
  import opened Resch

  function Sum(s: seq<nat>): nat {
    if s == [] then 0 else Sum(s[..|s| - 1]) + s[|s| - 1]
  }

  function Zeros(n: nat): (r: seq<nat>)
    ensures |r| == n && forall i :: 0 <= i < n ==> r[i] == 0
  {
    seq(n, i => 0)
  }

  lemma {:induction false} SumStep(s: seq<nat>, i: nat)
    requires i < |s|
    ensures Sum(s[..i + 1]) == Sum(s[..i]) + s[i]
  {
    assert s[..i + 1][..i] == s[..i];
  }

  lemma {:induction false} SumMono(s: seq<nat>, i: nat, j: nat)
    requires i <= j <= |s|
    ensures Sum(s[..i]) <= Sum(s[..j])
    decreases j
  {
    if i < j {
      SumMono(s, i, j - 1);
      SumStep(s, j - 1);
    }
  }

  lemma {:induction false} SumZeros(s: seq<nat>, i: nat)
    requires i <= |s| && forall c :: i <= c < |s| ==> s[c] == 0
    ensures Sum(s) == Sum(s[..i])
    decreases |s|
  {
    if i < |s| {
      SumZeros(s[..|s| - 1], i);
      assert s[..|s| - 1][..i] == s[..i];
    } else {
      assert s[..i] == s;
    }
  }

  /** The running sum after the first `i` capacities, as an unsigned word. */
  function Carried(caps: seq<nat>, i: nat): nat
    requires i <= |caps|
  {
    Sum(caps[..i]) % WORD
  }

  lemma CarriedStep(caps: seq<nat>, i: nat)
    requires i < |caps|
    ensures Carried(caps, i + 1) == (Carried(caps, i) + caps[i]) % WORD
  {
    SumStep(caps, i);
  }

  /** The split ends at CPU `k`. */
  ghost predicate Reaches(caps: seq<nat>, avail: seq<bool>, need: nat, k: nat)
    requires k < |caps| == |avail|
  {
    avail[k] && need <= Carried(caps, k + 1)
  }

  /** The first CPU at which the split ends, or the number of CPUs. */
  ghost predicate StopsAt(caps: seq<nat>, avail: seq<bool>, need: nat, k: nat)
    requires |caps| == |avail|
  {
    && k <= |caps|
    && (forall c :: 0 <= c < k ==> !Reaches(caps, avail, need, c))
    && (k < |caps| ==> Reaches(caps, avail, need, k))
  }

  /** CPUs that are not available contribute nothing. */
  ghost predicate Offered(caps: seq<nat>, avail: seq<bool>) {
    && |caps| == |avail|
    && forall c :: 0 <= c < |caps| ==> caps[c] < WORD && (avail[c] || caps[c] == 0)
  }

  /** The shares of a split that ends at CPU `k`: what the CPUs before it can take, and there the rest. */
  function Shares(caps: seq<nat>, need: nat, k: nat): (s: seq<nat>)
    requires k < |caps| && need <= Carried(caps, k + 1) <= caps[k] + need
    ensures |s| == |caps|
    ensures forall c :: 0 <= c < |s| ==> s[c] == if c < k then caps[c] else if c == k then s[k] else 0
    ensures s[k] == caps[k] - (Carried(caps, k + 1) - need)
  {
    caps[..k] + [caps[k] - (Carried(caps, k + 1) - need)] + Zeros(|caps| - k - 1)
  }

  /** Before the split ends the running sum is short of what is needed. */
  lemma {:induction false} ShortBefore(caps: seq<nat>, avail: seq<bool>, need: nat, k: nat, i: nat)
    requires Offered(caps, avail) && StopsAt(caps, avail, need, k) && i <= k && 0 < need
    ensures Carried(caps, i) < need
  {
    if i > 0 {
      ShortBefore(caps, avail, need, k, i - 1);
      CarriedStep(caps, i - 1);
      assert !Reaches(caps, avail, need, i - 1);
    }
  }

  /** The subtraction at the last CPU does not go below zero, and leaves something there. */
  lemma LastShare(caps: seq<nat>, avail: seq<bool>, need: nat, k: nat)
    requires Offered(caps, avail) && StopsAt(caps, avail, need, k) && k < |caps| && 0 < need < WORD
    ensures need <= Carried(caps, k + 1) < caps[k] + need
    ensures 0 < Shares(caps, need, k)[k] <= caps[k]
    ensures Sum(Shares(caps, need, k)) == Sum(caps[..k + 1]) - Carried(caps, k + 1) + need
  {
    ShortBefore(caps, avail, need, k, k);
    CarriedStep(caps, k);
    var s := Shares(caps, need, k);
    SumZeros(s, k + 1);
    SumStep(s, k);
    SumStep(caps, k);
    assert s[..k] == caps[..k];
  }

  /** The shares sum to exactly what is needed just when the running sum never wrapped. */
  lemma ConservedIff(caps: seq<nat>, avail: seq<bool>, need: nat, k: nat)
    requires Offered(caps, avail) && StopsAt(caps, avail, need, k) && k < |caps| && 0 < need < WORD
    ensures need <= Carried(caps, k + 1) <= caps[k] + need
    ensures Sum(Shares(caps, need, k)) % WORD == need
    ensures Sum(Shares(caps, need, k)) == need <==> Sum(caps[..k + 1]) < WORD
  {
    LastShare(caps, avail, need, k);
    var total := Sum(caps[..k + 1]);
    assert total == total / WORD * WORD + total % WORD;
  }

  /** A capacity that wrapped makes the shares exceed what is needed. */
  lemma WrappedSplit()
    ensures
      var caps, avail := [5, WORD - 1, 6], [true, true, true];
      && Offered(caps, avail) && StopsAt(caps, avail, 10, 2) && Carried(caps, 3) == 10
      && Shares(caps, 10, 2) == [5, WORD - 1, 6] && Sum(Shares(caps, 10, 2)) == WORD + 10
  {
    var caps, avail := [5, WORD - 1, 6], [true, true, true];
    assert caps[..0] == [] && caps[..1] == [5] && caps[..2] == [5, WORD - 1] && caps[..3] == caps;
    SumStep(caps, 0);
    SumStep(caps, 1);
    SumStep(caps, 2);
    assert Carried(caps, 1) == 5 && Carried(caps, 2) == 4 && Carried(caps, 3) == 10;
  }

  /** Failure: the capacities do not add up to what is needed. */
  lemma NotEnough(caps: seq<nat>, avail: seq<bool>, need: nat)
    requires Offered(caps, avail) && 0 < need && Sum(caps) < WORD
    ensures StopsAt(caps, avail, need, |caps|) <==> Sum(caps) < need
  {
    assert caps[..|caps|] == caps;
    if StopsAt(caps, avail, need, |caps|) {
      ShortBefore(caps, avail, need, |caps|, |caps|);
    }
    if Sum(caps) < need {
      forall c | 0 <= c < |caps| ensures !Reaches(caps, avail, need, c) {
        SumMono(caps, c + 1, |caps|);
      }
    }
  }

  // ---------------------------------------------------------------- the tightest task

  /** The least room so far, as the source keeps it: zero stands for `none yet`. A task that is not
      schedulable (no room at all, written -1) ends the search with zero. */
  function Fold(rooms: seq<int>, s: nat): nat
    requires forall i :: 0 <= i < |rooms| ==> -1 <= rooms[i]
  {
    if rooms == [] then s
    else if rooms[0] == -1 then 0
    else Fold(rooms[1..], if s > rooms[0] || s == 0 then rooms[0] else s)
  }

  ghost predicate NoMoreThan(f: int, s: int, rooms: seq<int>) {
    && (0 < s ==> f <= s)
    && forall i :: 0 <= i < |rooms| ==> f <= rooms[i]
  }

  /** The search returns one of the rooms, and the least of them just when no room of zero is
      followed by a positive one at the end: a zero is forgotten when the next task is looked at. */
  lemma {:induction false} FoldIsMinIff(rooms: seq<int>, s: nat)
    requires rooms != [] && forall i :: 0 <= i < |rooms| ==> 0 <= rooms[i]
    ensures var f := Fold(rooms, s); f in rooms || (f == s && 0 < s)
    ensures NoMoreThan(Fold(rooms, s), s, rooms) <==> (0 in rooms ==> rooms[|rooms| - 1] == 0)
    ensures 0 < Fold(rooms, s) <==> 0 < rooms[|rooms| - 1]
  {
    var r, rest := rooms[0], rooms[1..];
    var t := if s > r || s == 0 then r else s;
    assert rooms == [r] + rest;
    if rest != [] {
      FoldIsMinIff(rest, t);
      assert rest[|rest| - 1] == rooms[|rooms| - 1];
      assert forall i :: 0 <= i < |rest| ==> rooms[i + 1] == rest[i];
    }
  }

  /** The rooms behind the last one that is zero. */
  ghost function AfterZero(rooms: seq<int>): seq<int> {
    if 0 !in rooms then rooms else AfterZero(rooms[1..])
  }

  ghost predicate IsLeast(f: int, rooms: seq<int>) {
    f in rooms && forall i :: 0 <= i < |rooms| ==> f <= rooms[i]
  }

  lemma {:induction false} FoldPositive(rooms: seq<int>, s: nat)
    requires forall i :: 0 <= i < |rooms| ==> 0 < rooms[i]
    ensures rooms == [] ==> Fold(rooms, s) == s
    ensures rooms != [] && s == 0 ==> IsLeast(Fold(rooms, s), rooms)
    ensures 0 < s ==> IsLeast(Fold(rooms, s), [s] + rooms)
  {
    if rooms != [] {
      var t := if s > rooms[0] || s == 0 then rooms[0] else s;
      assert rooms == [rooms[0]] + rooms[1..];
      FoldPositive(rooms[1..], t);
      assert IsLeast(Fold(rooms[1..], t), [t] + rooms[1..]);
      assert forall x :: x in [t] + rooms[1..] <==> x == t || x in rooms[1..];
      assert ([t] + rooms[1..])[0] == t;
      assert forall i :: 0 < i < |rooms| ==> ([t] + rooms[1..])[i] == rooms[i];
    } else {
      assert ([s] + rooms)[0] == s;
    }
  }

  /** Exactly what the search returns: the least room behind the last zero, and zero if that is at the end. */
  lemma {:induction false} FoldIsLeastAfterZero(rooms: seq<int>, s: nat)
    requires rooms != [] && forall i :: 0 <= i < |rooms| ==> 0 <= rooms[i]
    requires s == 0 || 0 in rooms
    ensures AfterZero(rooms) == [] ==> Fold(rooms, s) == 0
    ensures AfterZero(rooms) != [] ==> IsLeast(Fold(rooms, s), AfterZero(rooms))
  {
    if 0 !in rooms {
      forall i | 0 <= i < |rooms| ensures 0 < rooms[i] {
        assert rooms[i] in rooms;
      }
      FoldPositive(rooms, s);
    } else {
      var t := if s > rooms[0] || s == 0 then rooms[0] else s;
      assert rooms == [rooms[0]] + rooms[1..];
      if rooms[1..] == [] {
        assert AfterZero(rooms[1..]) == [];
      } else if 0 in rooms[1..] {
        FoldIsLeastAfterZero(rooms[1..], t);
      } else {
        assert t == 0;
        FoldIsLeastAfterZero(rooms[1..], 0);
      }
    }
  }

  /** A task that is not schedulable leaves nothing to give. */
  lemma {:induction false} FoldOverloaded(rooms: seq<int>, s: nat)
    requires (forall i :: 0 <= i < |rooms| ==> -1 <= rooms[i]) && -1 in rooms
    ensures Fold(rooms, s) == 0
  {
    if rooms[0] != -1 {
      assert rooms == [rooms[0]] + rooms[1..];
      FoldOverloaded(rooms[1..], if s > rooms[0] || s == 0 then rooms[0] else s);
    }
  }

  // ---------------------------------------------------------------- the way through the CPUs

  /** The CPUs with a share, from CPU `c` on. */
  function Stations(shares: seq<nat>, c: nat): (r: seq<nat>)
    requires c <= |shares|
    decreases |shares| - c
  {
    if c == |shares| then []
    else if 0 < shares[c] then [c] + Stations(shares, c + 1)
    else Stations(shares, c + 1)
  }

  /** CPUs with a share in ascending order, each one once. */
  ghost predicate Ascending(shares: seq<nat>, c: nat, r: seq<nat>) {
    && (forall i :: 0 <= i < |r| ==> c <= r[i] < |shares| && 0 < shares[r[i]])
    && forall i, j :: 0 <= i < j < |r| ==> r[i] < r[j]
  }

  lemma {:induction false} StationsAscend(shares: seq<nat>, c: nat)
    requires c <= |shares|
    ensures Ascending(shares, c, Stations(shares, c))
    decreases |shares| - c
  {
    if c < |shares| {
      StationsAscend(shares, c + 1);
      AscendingCons(shares, c, Stations(shares, c + 1));
    }
  }

  lemma AscendingCons(shares: seq<nat>, c: nat, rest: seq<nat>)
    requires c < |shares| && Ascending(shares, c + 1, rest)
    ensures Ascending(shares, c, rest) && (0 < shares[c] ==> Ascending(shares, c, [c] + rest))
  {
  }

  /** None is left out. */
  lemma {:induction false} StationsAll(shares: seq<nat>, c: nat, d: nat)
    requires c <= d < |shares| && 0 < shares[d]
    ensures d in Stations(shares, c)
    decreases |shares| - c
  {
    if c < d {
      StationsAll(shares, c + 1, d);
    }
  }

  /** The next CPU with a share, or the number of CPUs. */
  predicate NextAfter(shares: seq<nat>, c: nat, d: nat) {
    && c < d <= |shares|
    && (forall e :: c < e < d ==> shares[e] == 0)
    && (d < |shares| ==> 0 < shares[d])
  }

  /** The search of the timers for the next CPU with a share. */
  method FindNext(runtime: array<nat>, cpu: nat) returns (d: nat)
    requires cpu < runtime.Length
    ensures NextAfter(runtime[..], cpu, d)
  {
    for c := cpu + 1 to runtime.Length
      invariant forall e :: cpu < e < c ==> runtime[e] == 0
    {
      if runtime[c] > 0 {
        return c;
      }
    }
    d := runtime.Length;
  }

  lemma {:induction false} StationsSkip(shares: seq<nat>, c: nat, d: nat)
    requires c <= d <= |shares| && forall e :: c <= e < d ==> shares[e] == 0
    ensures Stations(shares, c) == Stations(shares, d)
    decreases d - c
  {
    if c < d {
      StationsSkip(shares, c + 1, d);
    }
  }

  /** Time spent on the CPUs of a walk when every timer runs for the share of its CPU. */
  function Spent(shares: seq<nat>, cpus: seq<nat>): nat {
    if cpus == [] then 0
    else (if cpus[0] < |shares| then shares[cpus[0]] else 0) + Spent(shares, cpus[1..])
  }

  /** The walk through all stations spends every share. */
  lemma {:induction false} SpentIsSum(shares: seq<nat>, c: nat)
    requires c <= |shares|
    ensures Spent(shares, Stations(shares, c)) == Sum(shares) - Sum(shares[..c])
    decreases |shares| - c
  {
    if c < |shares| {
      SpentIsSum(shares, c + 1);
      SumStep(shares, c);
      assert 0 < shares[c] ==> Stations(shares, c)[1..] == Stations(shares, c + 1);
    } else {
      assert shares[..c] == shares;
    }
  }

  /** First and last CPU are the least and the greatest one with a share. */
  ghost predicate WellPlaced(first: nat, last: nat, shares: seq<nat>) {
    && first <= last < |shares| && 0 < shares[first] && 0 < shares[last]
    && forall c :: 0 <= c < |shares| && 0 < shares[c] ==> first <= c <= last
  }

  /** A job has been on the stations up to `cpu`. */
  ghost predicate OnWay(first: nat, last: nat, shares: seq<nat>, cpu: nat, visited: seq<nat>) {
    && WellPlaced(first, last, shares) && cpu <= last && 0 < shares[cpu]
    && Stations(shares, 0) == visited + Stations(shares, cpu + 1)
  }

  lemma Starts(first: nat, last: nat, shares: seq<nat>)
    requires WellPlaced(first, last, shares)
    ensures OnWay(first, last, shares, first, [first])
  {
    StationsSkip(shares, 0, first);
  }

  lemma Regroup(a: seq<nat>, d: nat, b: seq<nat>)
    ensures a + ([d] + b) == a + [d] + b
  {
  }

  lemma NextInside(first: nat, last: nat, shares: seq<nat>, cpu: nat, d: nat)
    requires WellPlaced(first, last, shares) && cpu < last && NextAfter(shares, cpu, d)
    ensures d <= last && 0 < shares[d]
  {
    assert shares[last] != 0 && d <= last;
  }

  /** Before the last station there is a next one. */
  lemma Moves(first: nat, last: nat, shares: seq<nat>, cpu: nat, visited: seq<nat>, d: nat)
    requires OnWay(first, last, shares, cpu, visited) && cpu != last && NextAfter(shares, cpu, d)
    ensures d < |shares| && OnWay(first, last, shares, d, visited + [d])
  {
    NextInside(first, last, shares, cpu, d);
    NextStation(shares, cpu + 1, d);
    Regroup(visited, d, Stations(shares, d + 1));
  }

  lemma NextStation(shares: seq<nat>, c: nat, d: nat)
    requires c <= d < |shares| && 0 < shares[d] && forall e :: c <= e < d ==> shares[e] == 0
    ensures Stations(shares, c) == [d] + Stations(shares, d + 1)
  {
    StationsSkip(shares, c, d);
  }

  /** The job is on the last station when it has been on every CPU with a share, in ascending order and
      once each; it has then spent exactly the shares. */
  lemma EndsIff(first: nat, last: nat, shares: seq<nat>, cpu: nat, visited: seq<nat>)
    requires OnWay(first, last, shares, cpu, visited)
    ensures cpu == last <==> visited == Stations(shares, 0)
    ensures cpu == last ==> Spent(shares, Stations(shares, 0)) == Sum(shares)
  {
    SpentIsSum(shares, 0);
    assert shares[..0] == [];
    if cpu == last {
      StationsSkip(shares, last + 1, |shares|);
    } else {
      StationsAll(shares, cpu + 1, last);
      assert |Stations(shares, 0)| == |visited| + |Stations(shares, cpu + 1)|;
    }
  }
}

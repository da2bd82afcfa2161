/** What it means that an EDF-WM split succeeds: shares that fit their windows and the CPUs. */
module EdfWmMeaning {
  import opened SortedList
  import opened SplitShares
  import opened EdfWmSelection
  import opened EdfWm
  import opened Resch
  import Arith

  /** Shares for at most `num` CPUs, none longer than the window or than what its CPU can take in it. */
  ghost predicate Distribution(spare: Spare, n: nat, w: nat, num: nat, shares: seq<nat>) {
    && |shares| == n && |Stations(shares, 0)| <= num
    && forall c :: 0 <= c < n ==> shares[c] <= w && shares[c] <= spare(w, c)
  }

  ghost predicate Serves(spare: Spare, n: nat, w: nat, need: nat, tick: nat, num: nat, shares: seq<nat>) {
    Distribution(spare, n, w, num, shares) && need <= tick * Sum(shares)
  }

  lemma {:induction false} SpentWithinGiven(v: seq<nat>, w: nat, t: seq<nat>, shares: seq<nat>)
    requires |shares| == |v| && forall a :: 0 <= a < |t| ==> t[a] < |v| && shares[t[a]] <= Capped(v, w, t[a])
    ensures Spent(shares, t) <= Given(v, w, t)
  {
    if t != [] {
      assert t == [t[0]] + t[1..] && [t[0]][..0] == [];
      SpentWithinGiven(v, w, t[1..], shares);
      GivenConcat(v, w, [t[0]], t[1..]);
      assert Given(v, w, [t[0]]) == Capped(v, w, t[0]);
    }
  }

  lemma {:induction false} GivenWithinSum(v: seq<nat>, w: nat, t: seq<nat>, shares: seq<nat>)
    requires |shares| == |v| && NoDup(t)
    requires forall a :: 0 <= a < |t| ==> t[a] < |v| && Capped(v, w, t[a]) <= shares[t[a]]
    ensures Given(v, w, t) <= Sum(shares)
  {
    if t != [] {
      var n := |t| - 1;
      SumUpdate(shares, t[n], 0);
      GivenWithinSum(v, w, t[..n], shares[t[n] := 0]);
    }
  }

  lemma {:induction false} NoMoreThan(s: seq<nat>, t: seq<nat>)
    requires NoDup(s) && forall a :: 0 <= a < |s| ==> s[a] in t
    ensures |s| <= |t|
    decreases |s|
  {
    if s != [] {
      var n := |s| - 1;
      var i :| 0 <= i < |t| && t[i] == s[n];
      forall a | 0 <= a < n ensures s[..n][a] in RemoveAt(t, i) {
        var j :| 0 <= j < |t| && t[j] == s[a];
        assert RemoveAt(t, i)[if j < i then j else j - 1] == s[a];
      }
      NoMoreThan(s[..n], RemoveAt(t, i));
    }
  }

  /** A distribution gives no more than the choice of its CPUs. */
  lemma DistributionIsChoice(spare: Spare, n: nat, w: nat, num: nat, shares: seq<nat>)
    requires Distribution(spare, n, w, num, shares)
    ensures
      var t := Stations(shares, 0);
      Choice(t, num, n) && Sum(shares) <= Given(Values(spare, w, n), w, t)
  {
    StationsAscend(shares, 0);
    SpentIsSum(shares, 0);
    assert shares[..0] == [];
    SpentWithinGiven(Values(spare, w, n), w, Stations(shares, 0), shares);
  }

  /** A choice of CPUs gives no more than some distribution. */
  lemma ChoiceIsDistribution(spare: Spare, n: nat, w: nat, num: nat, t: seq<nat>) returns (shares: seq<nat>)
    requires Choice(t, num, n)
    ensures Distribution(spare, n, w, num, shares) && Given(Values(spare, w, n), w, t) <= Sum(shares)
  {
    var v := Values(spare, w, n);
    shares := seq(n, c requires 0 <= c < n => if c in t then Capped(v, w, c) else 0);
    StationsAscend(shares, 0);
    forall a | 0 <= a < |Stations(shares, 0)| ensures Stations(shares, 0)[a] in t {
      assert 0 < shares[Stations(shares, 0)[a]];
    }
    NoMoreThan(Stations(shares, 0), t);
    GivenWithinSum(v, w, t, shares);
  }

  lemma EnoughServed(spare: Spare, n: nat, w: nat, need: nat, tick: nat, num: nat, t: seq<nat>)
    requires Choice(t, num, n) && need <= tick * Given(Values(spare, w, n), w, t)
    ensures exists shares :: Serves(spare, n, w, need, tick, num, shares)
  {
    var shares := ChoiceIsDistribution(spare, n, w, num, t);
    Arith.MulMono(Given(Values(spare, w, n), w, t), Sum(shares), tick);
    assert Serves(spare, n, w, need, tick, num, shares);
  }

  lemma ServedEnough(spare: Spare, n: nat, w: nat, need: nat, tick: nat, num: nat, shares: seq<nat>)
    requires Serves(spare, n, w, need, tick, num, shares)
    ensures exists t :: Choice(t, num, n) && need <= tick * Given(Values(spare, w, n), w, t)
  {
    DistributionIsChoice(spare, n, w, num, shares);
    Arith.MulMono(Sum(shares), Given(Values(spare, w, n), w, Stations(shares, 0)), tick);
  }

  /** An attempt of the plugin succeeds exactly when some shares for at most that many CPUs, each within its
      window and its CPU, give the task enough. */
  lemma EnoughIffServed(spare: Spare, n: nat, deadline: nat, need: nat, tick: nat, num: nat)
    requires 0 < num
    ensures Enough(spare, n, deadline, need, tick, num) <==>
            exists shares :: Serves(spare, n, deadline / num, need, tick, num, shares)
  {
    var w := deadline / num;
    if Enough(spare, n, deadline, need, tick, num) {
      var t :| Choice(t, num, n) && need <= tick * Given(Values(spare, w, n), w, t);
      EnoughServed(spare, n, w, need, tick, num, t);
    }
    if shares :| Serves(spare, n, w, need, tick, num, shares) {
      ServedEnough(spare, n, w, need, tick, num, shares);
    }
  }

  /** The shares of a successful split are such shares, and the trim keeps them within the window where it
      does not wrap. */
  lemma SplitServes(
    spare: Spare, n: nat, deadline: nat, need: nat, tick: Pos, num: nat, ids: seq<nat>, r: Record)
    requires 0 < num <= n && SplitOver(spare, n, deadline, need, tick, num, ids, r)
    ensures Serves(spare, n, deadline / num, need, tick, num, r.shares)
    ensures
      var t := Trimmed(r, need, tick).shares;
      && |t| == n
      && (r.last < n && Excess(r, need, tick) <= r.shares[r.last] ==>
            forall c :: 0 <= c < n ==> t[c] <= deadline / num && t[c] <= spare(deadline / num, c))
  {
    var w := deadline / num;
    var v := Values(spare, w, n);
    FrontDescends(v, ids, num);
    FewStations(v, w, ids[..num], r);
    SplitSum(v, w, ids, num, r);
  }
}

/** What a split promises: the shares add up, and the tasks that receive them keep their deadlines. */
module FpPmGuarantee {
  import opened Resch
  import opened SortedList
  import opened Interference
  import opened SplitCapacity
  import opened SplitShares
  import opened FpPm
  import opened FpPmSplit
  import FpFf

  /** A split that succeeds gives no CPU more than it can take, those before the last all they can and those
      behind it nothing, uses available CPUs only, and gives the task exactly its execution time just when no
      sum wrapped; one that fails leaves no share. */
  lemma SplitConserves(caps: seq<nat>, avail: seq<bool>, need: nat, k: nat, p: Pieces)
    requires Offered(caps, avail) && StopsAt(caps, avail, need, k) && SplitInto(caps, need, k, p) && 0 < need < WORD
    ensures |p.runtime| == |caps|
    ensures k < |caps| ==>
              && WellPlaced(p.first, p.last, p.runtime) && p.last == k
              && (forall c :: 0 <= c < |caps| && 0 < p.runtime[c] ==> avail[c] && p.runtime[c] <= caps[c])
              && (forall c :: 0 <= c < k ==> p.runtime[c] == caps[c])
              && (forall c :: k < c < |caps| ==> p.runtime[c] == 0)
              && (Sum(p.runtime) == need <==> Sum(caps[..k + 1]) < WORD)
    ensures k == |caps| ==> p.first == p.last == |caps| && forall c :: 0 <= c < |caps| ==> p.runtime[c] == 0
    ensures k == |caps| && Sum(caps) < WORD ==> Sum(caps) < need
  {
    if k < |caps| {
      LastShare(caps, avail, need, k);
      ConservedIff(caps, avail, need, k);
    } else if Sum(caps) < WORD {
      NotEnough(caps, avail, need);
    }
  }

  /** The split does not look at the affinity mask: all shares lie within it just when every available CPU
      that has something to give does, up to the one where the split ends. */
  lemma SharesInMaskIff(caps: seq<nat>, avail: seq<bool>, need: nat, k: nat, p: Pieces, allowed: set<nat>)
    requires Offered(caps, avail) && StopsAt(caps, avail, need, k) && SplitInto(caps, need, k, p)
    requires k < |caps| && 0 < need < WORD
    ensures |p.runtime| == |caps|
    ensures
      (forall c: nat :: c < |caps| && 0 < p.runtime[c] ==> c in allowed) <==>
      (forall c: nat :: c <= k && avail[c] && 0 < caps[c] ==> c in allowed)
  {
    LastShare(caps, avail, need, k);
    assert 0 < p.runtime[k] && avail[k] && 0 < caps[k];
    assert forall c: nat :: c < k ==> p.runtime[c] == caps[c] && (0 < caps[c] ==> avail[c]);
  }

  // ---------------------------------------------------------------- the tasks on the CPUs

  lemma {:induction false} RoomListed(
    pf: Platform, list: seq<Task>, ts: seq<Task>, tbl: Table, P: Pos, cpu: nat, lp: Task)
    requires PeriodicOn(list, tbl, cpu) && PeriodicOn(ts, tbl, cpu) && lp in ts && Present(tbl, lp, cpu)
    ensures Room(pf, list, tbl, lp, P, cpu) in Rooms(pf, list, ts, tbl, P, cpu)
  {
    if lp != ts[0] {
      assert ts == [ts[0]] + ts[1..];
      RoomListed(pf, list, ts[1..], tbl, P, cpu, lp);
    }
  }

  /** Exactly what a task tolerates of a newcomer, by the plugin's own test. */
  lemma ToleratesIff(pf: Platform, list: seq<Task>, tbl: Table, lp: Task, share: nat, P: Pos, cpu: nat)
    requires PeriodicOn(list, tbl, cpu) && 0 < lp.period
    ensures Tolerates(pf, list, tbl, lp, share, P, cpu) <==>
            Bears(share, Response(pf, list, tbl, lp, cpu), Micros(pf, lp.deadline), P)
  {
    FitsIff(share, Response(pf, list, tbl, lp, cpu), Micros(pf, lp.deadline), P);
  }

  /** Every task of the CPU tolerates the share. */
  ghost predicate AllTolerate(pf: Platform, list: seq<Task>, tbl: Table, share: nat, P: Pos, cpu: nat)
    requires PeriodicOn(list, tbl, cpu)
  {
    forall lp :: lp in list && Present(tbl, lp, cpu) ==> Tolerates(pf, list, tbl, lp, share, P, cpu)
  }

  /** The share is within the room of every task of the CPU. */
  ghost predicate WithinRooms(pf: Platform, list: seq<Task>, tbl: Table, share: nat, P: Pos, cpu: nat)
    requires PeriodicOn(list, tbl, cpu)
  {
    forall lp :: lp in list && Present(tbl, lp, cpu) ==>
                   Bears(share, Response(pf, list, tbl, lp, cpu), Micros(pf, lp.deadline), P)
  }

  /** So a share, be it all that the CPU is given or the rest that is needed, leaves every task there within
      its deadline just when it is within all their rooms. */
  lemma ShareToleratedIff(pf: Platform, list: seq<Task>, tbl: Table, share: nat, P: Pos, cpu: nat)
    requires PeriodicOn(list, tbl, cpu)
    ensures AllTolerate(pf, list, tbl, share, P, cpu) <==> WithinRooms(pf, list, tbl, share, P, cpu)
  {
    forall lp | lp in list && Present(tbl, lp, cpu)
      ensures Tolerates(pf, list, tbl, lp, share, P, cpu) <==>
              Bears(share, Response(pf, list, tbl, lp, cpu), Micros(pf, lp.deadline), P)
    {
      ToleratesIff(pf, list, tbl, lp, share, P, cpu);
    }
  }

  /** No task of the CPU has a room of zero, and none is rounded up or wrapped. */
  ghost predicate Sound(pf: Platform, list: seq<Task>, tbl: Table, P: Pos, cpu: nat)
    requires PeriodicOn(list, tbl, cpu)
  {
    && 0 !in Rooms(pf, list, list, tbl, P, cpu)
    && forall lp :: lp in list && Present(tbl, lp, cpu) ==>
                      Safe(Response(pf, list, tbl, lp, cpu), Micros(pf, lp.deadline), P)
  }

  /** On such a CPU whatever the plugin gives away is within all rooms. */
  lemma SoundShareTolerated(pf: Platform, list: seq<Task>, tbl: Table, P: Pos, cpu: nat, share: nat)
    requires PeriodicOn(list, tbl, cpu) && Small(pf, list, P) && Sound(pf, list, tbl, P, cpu)
    requires 0 < share <= Spare(pf, list, tbl, P, cpu)
    ensures AllTolerate(pf, list, tbl, share, P, cpu)
  {
    forall lp | lp in list && Present(tbl, lp, cpu) ensures Tolerates(pf, list, tbl, lp, share, P, cpu) {
      ShareTolerated(pf, list, tbl, P, cpu, share, lp);
    }
  }

  lemma ShareTolerated(pf: Platform, list: seq<Task>, tbl: Table, P: Pos, cpu: nat, share: nat, lp: Task)
    requires PeriodicOn(list, tbl, cpu) && Small(pf, list, P) && Sound(pf, list, tbl, P, cpu)
    requires 0 < share <= Spare(pf, list, tbl, P, cpu) && lp in list && Present(tbl, lp, cpu)
    ensures Tolerates(pf, list, tbl, lp, share, P, cpu)
  {
    var rooms := Rooms(pf, list, list, tbl, P, cpu);
    if -1 in rooms {
      FoldOverloaded(rooms, 0);
    } else {
      RoomListed(pf, list, list, tbl, P, cpu, lp);
      FoldIsMinIff(rooms, 0);
      var R, D := Response(pf, list, tbl, lp, cpu), Micros(pf, lp.deadline);
      CapacityExactIff(R, D, P);
      InterfMono(share, Capacity(R, D, P), P, D);
    }
  }

  /** A split that ends on its first CPU gives the task all its time there. */
  lemma OneCpuSplit(caps: seq<nat>, avail: seq<bool>, need: nat, k: nat, p: Pieces)
    requires Offered(caps, avail) && StopsAt(caps, avail, need, k) && SplitInto(caps, need, k, p)
    requires k < |caps| && 0 < need < WORD && p.first == p.last
    ensures p.first == k && p.runtime[k] == need && need <= caps[k] && avail[k]
  {
    assert FirstGiven(caps, k + 1) == k;
    assert forall c :: 0 <= c < k ==> caps[..k][c] == 0;
    SumZeros(caps[..k], 0);
    assert Sum(caps[..k][..0]) == 0;
    CarriedStep(caps, k);
  }

  /** That happens on an allowed CPU whose rooms are right only to a task that was found to miss its own
      deadline there: all others tolerate it, and yet the test before the split did not admit it. */
  lemma OneCpuSplitUnfit(
    pf: Platform, list: seq<Task>, tbl: Table, rt: Task, avail: seq<bool>, k: nat, p: Pieces)
    requires Periods(list, tbl, |avail|) && k < |avail| && 0 < rt.period && 0 < FpFf.C(pf, rt) < WORD
    requires Small(pf, list, Micros(pf, rt.period)) && Sound(pf, list, tbl, Micros(pf, rt.period), k)
    requires
      var caps := Caps(pf, list, tbl, Micros(pf, rt.period), avail);
      StopsAt(caps, avail, FpFf.C(pf, rt), k) && SplitInto(caps, FpFf.C(pf, rt), k, p)
    requires p.first == p.last && !Admits(pf, list, tbl, rt, k)
    ensures Micros(pf, rt.deadline) < Response(pf, list, tbl, rt, k)
  {
    var P, need := Micros(pf, rt.period), FpFf.C(pf, rt);
    CapsOffered(pf, list, tbl, P, avail);
    CapsAt(pf, list, tbl, P, avail, k);
    OneCpuSplit(Caps(pf, list, tbl, P, avail), avail, need, k, p);
    SoundShareTolerated(pf, list, tbl, P, k, need);
  }

  // ---------------------------------------------------------------- after the split

  lemma {:induction false} SumConcat(pf: Platform, a: seq<Task>, b: seq<Task>, tbl: Table, rt: Task, cpu: nat, L: nat)
    requires PeriodicOn(a, tbl, cpu) && PeriodicOn(b, tbl, cpu)
    ensures PeriodicOn(a + b, tbl, cpu)
    ensures InterfSum(pf, a + b, tbl, rt, cpu, L) ==
            InterfSum(pf, a, tbl, rt, cpu, L) + InterfSum(pf, b, tbl, rt, cpu, L)
    decreases |b|
  {
    if b == [] {
      assert a + b == a;
    } else {
      var n := |b| - 1;
      assert (a + b)[..|a + b| - 1] == a + b[..n];
      PrefixPeriodic(b, n, tbl, cpu);
      SumConcat(pf, a, b[..n], tbl, rt, cpu, L);
    }
  }

  /** One task more changes the sum by its own term, wherever it stands. */
  lemma SumAround(pf: Platform, a: seq<Task>, p: Task, b: seq<Task>, tbl: Table, rt: Task, cpu: nat, L: nat)
    requires PeriodicOn(a + [p] + b, tbl, cpu)
    ensures PeriodicOn(a + b, tbl, cpu) && (Present(tbl, p, cpu) ==> 0 < p.period)
    ensures InterfSum(pf, a + [p] + b, tbl, rt, cpu, L) ==
            InterfSum(pf, a + b, tbl, rt, cpu, L) + Term(pf, tbl, p, rt, cpu, L)
  {
    assert forall q :: q in a || q == p || q in b ==> q in a + [p] + b;
    assert [p][..0] == [];
    SumConcat(pf, a, b, tbl, rt, cpu, L);
    SumConcat(pf, a, [p], tbl, rt, cpu, L);
    SumConcat(pf, a + [p], b, tbl, rt, cpu, L);
  }

  /** The shares of a task that is not in the list do not matter. */
  lemma {:induction false} SumElsewhere(
    pf: Platform, list: seq<Task>, tbl: Table, rid: nat, p: Pieces, rt: Task, cpu: nat, L: nat)
    requires PeriodicOn(list, tbl, cpu) && forall q :: q in list ==> q.rid != rid
    ensures PeriodicOn(list, tbl[rid := p], cpu)
    ensures InterfSum(pf, list, tbl[rid := p], rt, cpu, L) == InterfSum(pf, list, tbl, rt, cpu, L)
  {
    if list != [] {
      var n := |list| - 1;
      assert list == list[..n] + [list[n]];
      SumElsewhere(pf, list[..n], tbl, rid, p, rt, cpu, L);
    }
  }

  /** A task that has to migrate is raised to this priority. */
  const PRIO_MIGRATORY := 97

  function NewPrio(rt: Task, p: Pieces): int {
    if p.first != p.last then PRIO_MIGRATORY else rt.prio
  }

  /** The task after the split; one that ended up on a single CPU keeps its priority. */
  function Raised(rt: Task, p: Pieces): Task {
    Assigned(rt, p.first).(prio := NewPrio(rt, p))
  }

  /** The split task, with its new priority, moves to another place of the list: the interference with a task
      on a CPU grows by that of the share there, if the task is not above the new priority. */
  lemma SumAfterSplit(
    pf: Platform, a: seq<Task>, rt: Task, b: seq<Task>, a': seq<Task>, b': seq<Task>,
    tbl: Table, p: Pieces, lp: Task, cpu: nat, L: nat)
    requires a + b == a' + b' && forall q :: q in a + b ==> q.rid != rt.rid
    requires PeriodicOn(a + [rt] + b, tbl, cpu) && 0 < rt.period
    requires !Present(tbl, rt, cpu) && cpu < |p.runtime| && (p.first == cpu ==> 0 < p.runtime[cpu])
    ensures
      var now := a' + [Raised(rt, p)] + b';
      && PeriodicOn(now, tbl[rt.rid := p], cpu)
      && InterfSum(pf, now, tbl[rt.rid := p], lp, cpu, L) ==
         InterfSum(pf, a + [rt] + b, tbl, lp, cpu, L) +
         if lp.prio <= NewPrio(rt, p) then Interf(p.runtime[cpu], Micros(pf, rt.period), L) else 0
  {
    var rt', tbl' := Raised(rt, p), tbl[rt.rid := p];
    SumAround(pf, a, rt, b, tbl, lp, cpu, L);
    assert Term(pf, tbl, rt, lp, cpu, L) == 0;
    SumElsewhere(pf, a + b, tbl, rt.rid, p, lp, cpu, L);
    assert PeriodicOn(a' + [rt'] + b', tbl', cpu) by {
      assert forall q :: q in a' + [rt'] + b' ==> q == rt' || q in a + b;
    }
    SumAround(pf, a', rt', b', tbl', lp, cpu, L);
    Shape(0, Micros(pf, rt.period), L);
  }

  /** So does its demand. */
  lemma DemandAfterSplit(
    pf: Platform, a: seq<Task>, rt: Task, b: seq<Task>, a': seq<Task>, b': seq<Task>,
    tbl: Table, p: Pieces, lp: Task, cpu: nat)
    requires a + b == a' + b' && forall q :: q in a + b ==> q.rid != rt.rid
    requires PeriodicOn(a + [rt] + b, tbl, cpu) && 0 < rt.period
    requires !Present(tbl, rt, cpu) && cpu < |p.runtime| && (p.first == cpu ==> 0 < p.runtime[cpu])
    ensures
      var now := a' + [Raised(rt, p)] + b';
      && PeriodicOn(now, tbl[rt.rid := p], cpu)
      && Demand(pf, now, tbl[rt.rid := p], lp, cpu) ==
         Demand(pf, a + [rt] + b, tbl, lp, cpu) +
         if lp.prio <= NewPrio(rt, p) then Interf(p.runtime[cpu], Micros(pf, rt.period), Micros(pf, lp.deadline))
         else 0
  {
    SumAfterSplit(pf, a, rt, b, a', b', tbl, p, lp, cpu, Micros(pf, lp.deadline));
  }

  /** A task with demand `R` bears the share if the split task is not below it; else it need not. */
  predicate BearsShare(share: nat, R: nat, D: nat, P: Pos, counts: bool) {
    if counts then Bears(share, R, D, P) else R <= D
  }

  /** The main result: after the split own work and interference of a task on a CPU are within its deadline
      just when it bears the share there, counted against what it had to bear before. */
  lemma SplitKeepsDeadlineIff(
    pf: Platform, a: seq<Task>, rt: Task, b: seq<Task>, a': seq<Task>, b': seq<Task>,
    tbl: Table, p: Pieces, lp: Task, cpu: nat)
    requires a + b == a' + b' && forall q :: q in a + b ==> q.rid != rt.rid
    requires PeriodicOn(a + [rt] + b, tbl, cpu) && 0 < rt.period
    requires !Present(tbl, rt, cpu) && cpu < |p.runtime| && (p.first == cpu ==> 0 < p.runtime[cpu])
    ensures
      var now := a' + [Raised(rt, p)] + b';
      && PeriodicOn(now, tbl[rt.rid := p], cpu)
      && (Demand(pf, now, tbl[rt.rid := p], lp, cpu) <= Micros(pf, lp.deadline) <==>
          BearsShare(p.runtime[cpu], Demand(pf, a + [rt] + b, tbl, lp, cpu), Micros(pf, lp.deadline),
                     Micros(pf, rt.period), lp.prio <= NewPrio(rt, p)))
  {
    DemandAfterSplit(pf, a, rt, b, a', b', tbl, p, lp, cpu);
    FitsIff(p.runtime[cpu], Demand(pf, a + [rt] + b, tbl, lp, cpu), Micros(pf, lp.deadline), Micros(pf, rt.period));
  }

  /** A share within the rooms the plugin computes with, which count overhead as well, is borne. */
  lemma SplitKeepsDeadlines(
    pf: Platform, a: seq<Task>, rt: Task, b: seq<Task>, a': seq<Task>, b': seq<Task>,
    tbl: Table, p: Pieces, lp: Task, cpu: nat)
    requires a + b == a' + b' && lp in a + b && forall q :: q in a + b ==> q.rid != rt.rid
    requires PeriodicOn(a + [rt] + b, tbl, cpu) && 0 < rt.period
    requires !Present(tbl, rt, cpu) && cpu < |p.runtime| && (p.first == cpu ==> 0 < p.runtime[cpu])
    requires Present(tbl, lp, cpu)
    requires WithinRooms(pf, a + [rt] + b, tbl, p.runtime[cpu], Micros(pf, rt.period), cpu)
    ensures
      var now := a' + [Raised(rt, p)] + b';
      && PeriodicOn(now, tbl[rt.rid := p], cpu)
      && Demand(pf, now, tbl[rt.rid := p], lp, cpu) <= Micros(pf, lp.deadline)
  {
    assert lp in a + [rt] + b;
    ToleratesIff(pf, a + [rt] + b, tbl, lp, p.runtime[cpu], Micros(pf, rt.period), cpu);
    DemandAfterSplit(pf, a, rt, b, a', b', tbl, p, lp, cpu);
  }

  // ---------------------------------------------------------------- one task continues per CPU

  /** At most one task of the list continues from this CPU. */
  ghost predicate OneCarried(list: seq<Task>, tbl: Table, cpu: nat) {
    forall p, q :: p in list && q in list && Continues(tbl, p, cpu) && Continues(tbl, q, cpu) ==> p.rid == q.rid
  }

  /** A split keeps that just when the new task does not continue from a CPU from which another one does. */
  lemma SplitKeepsOneCarriedIff(list: seq<Task>, rt: Task, tbl: Table, p: Pieces, cpu: nat)
    requires OneCarried(list, tbl, cpu) && rt in list && !Continues(tbl, rt, cpu)
    ensures
      OneCarried(list, tbl[rt.rid := p], cpu) <==>
      (Continues(tbl[rt.rid := p], rt, cpu) ==>
         forall q :: q in list && q.rid != rt.rid ==> !Continues(tbl, q, cpu))
  {
    var now := tbl[rt.rid := p];
    forall q | q in list && q.rid != rt.rid ensures Continues(now, q, cpu) <==> Continues(tbl, q, cpu) {
    }
  }

  /** The marks of the tests before the split see to it: a CPU that was looked at and stays available carries
      no task that counts against the new one. */
  lemma SplitKeepsOneCarried(
    list: seq<Task>, rt: Task, tbl: Table, caps: seq<nat>, avail: seq<bool>, need: nat, p: Pieces, cpu: nat)
    requires Offered(caps, avail) && StopsAt(caps, avail, need, p.last) && SplitInto(caps, need, p.last, p)
    requires 0 < need < WORD && cpu < |avail| && OneCarried(list, tbl, cpu)
    requires rt in list && !Continues(tbl, rt, cpu)
    requires forall q :: q in list && Continues(tbl, q, cpu) ==> q.prio >= rt.prio
    requires avail[cpu] ==> !Carries(list, tbl, rt, cpu)
    ensures OneCarried(list, tbl[rt.rid := p], cpu)
  {
    SplitConserves(caps, avail, need, p.last, p);
    CarriesIff(list, tbl, rt, cpu);
    SplitKeepsOneCarriedIff(list, rt, tbl, p, cpu);
  }
}

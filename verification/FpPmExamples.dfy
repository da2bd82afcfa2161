/** Concrete splits on a platform without overhead costs: one that is right, and the ways to go wrong. */
module FpPmExamples {
  import opened Resch
  import opened SortedList
  import opened Interference
  import opened SplitCapacity
  import opened SplitShares
  import opened FpPm
  import opened FpPmSplit
  import opened FpPmGuarantee
  import opened FpPmRuns
  import FpFf

  const CHEAP := Platform(1000, 2, 0, 0, 0, true)
  const NO_TABLE: Table := map[]

  lemma {:induction false} NoCosts(ts: seq<Task>, L: nat)
    requires Periodic(ts)
    ensures OverheadTasks(CHEAP, ts, L) == 0
  {
    if ts != [] {
      assert forall p :: p in ts[..|ts| - 1] ==> p in ts;
      NoCosts(ts[..|ts| - 1], L);
    }
  }

  lemma ResponseIsDemand(list: seq<Task>, tbl: Table, lp: Task, cpu: nat)
    requires PeriodicOn(list, tbl, cpu) && 0 < lp.period
    ensures Response(CHEAP, list, tbl, lp, cpu) == Demand(CHEAP, list, tbl, lp, cpu)
  {
    WholeTasksPeriodic(list, tbl, cpu);
    NoCosts(OnCpu(list, cpu), Micros(CHEAP, lp.deadline));
  }

  /** The sum over a few tasks, term by term. */
  lemma SumOfTwo(p: Task, q: Task, tbl: Table, rt: Task, cpu: nat, L: nat)
    requires PeriodicOn([p, q], tbl, cpu)
    ensures (Present(tbl, p, cpu) ==> 0 < p.period) && (Present(tbl, q, cpu) ==> 0 < q.period)
    ensures InterfSum(CHEAP, [p, q], tbl, rt, cpu, L) ==
            Term(CHEAP, tbl, p, rt, cpu, L) + Term(CHEAP, tbl, q, rt, cpu, L)
  {
    assert [p, q][..1] == [p] && [p][..0] == [];
    assert InterfSum(CHEAP, [p], tbl, rt, cpu, L) == Term(CHEAP, tbl, p, rt, cpu, L);
  }

  lemma SumOfThree(p: Task, q: Task, r: Task, tbl: Table, rt: Task, cpu: nat, L: nat)
    requires PeriodicOn([p, q, r], tbl, cpu)
    ensures PeriodicOn([p, q], tbl, cpu) && (Present(tbl, r, cpu) ==> 0 < r.period)
    ensures InterfSum(CHEAP, [p, q, r], tbl, rt, cpu, L) ==
            InterfSum(CHEAP, [p, q], tbl, rt, cpu, L) + Term(CHEAP, tbl, r, rt, cpu, L)
  {
    assert [p, q, r][..2] == [p, q];
  }

  lemma SumOfFour(p: Task, q: Task, r: Task, s: Task, tbl: Table, rt: Task, cpu: nat, L: nat)
    requires PeriodicOn([p, q, r, s], tbl, cpu)
    ensures PeriodicOn([p, q, r], tbl, cpu) && (Present(tbl, s, cpu) ==> 0 < s.period)
    ensures InterfSum(CHEAP, [p, q, r, s], tbl, rt, cpu, L) ==
            InterfSum(CHEAP, [p, q, r], tbl, rt, cpu, L) + Term(CHEAP, tbl, s, rt, cpu, L)
  {
    assert [p, q, r, s][..3] == [p, q, r];
  }

  lemma Capacities()
    ensures Capacity(4000, 10000, 10000) == 6000 && Safe(4000, 10000, 10000)
    ensures Capacity(5000, 5000, 10000) == 0 && Capacity(11000, 20000, 10000) == 4500
    ensures Capacity(1001, 20000, 10000) == 9500 && Capacity(3000, 10000, 10000) == 7000
    ensures Capacity(6000, 10000, 10000) == 4000
  {
  }

  lemma Interferences()
    ensures Interf(4500, 10000, 5000) == 4500 && Interf(9500, 10000, 20000) == 19000
    ensures Interf(5000, 10000, 20000) == 10000 && Interf(1000, 20000, 10000) == 1000
    ensures Interf(6000, 10000, 10000) == 6000 && Interf(5000, 10000, 10000) == 5000
    ensures Interf(1000, 10000, 10000) == 1000 && Interf(1001, 20000, 10000) == 1001
  {
  }

  lemma RoomsSkip(list: seq<Task>, ts: seq<Task>, tbl: Table, P: Pos, cpu: nat)
    requires PeriodicOn(list, tbl, cpu) && PeriodicOn(ts, tbl, cpu) && ts != []
    ensures Present(tbl, ts[0], cpu) ==> 0 < ts[0].period
    ensures Rooms(CHEAP, list, ts, tbl, P, cpu) ==
            (if Present(tbl, ts[0], cpu) then [Room(CHEAP, list, tbl, ts[0], P, cpu)] else [])
            + Rooms(CHEAP, list, ts[1..], tbl, P, cpu)
  {
    assert ts[0] in ts;
  }

  lemma FoldOfOne(room: int)
    requires -1 <= room
    ensures Fold([room], 0) == if room < 0 then 0 else room
  {
    assert [room][1..] == [];
    assert room != -1 ==> Fold([room][1..], room) == room;
  }

  /** A split over two CPUs, the second of which gives the rest. */
  lemma TwoShares(c: nat, d: nat, need: nat)
    requires 0 < c < need <= c + d < WORD
    ensures StopsAt([c, d], [true, true], need, 1) && SplitInto([c, d], need, 1, Pieces(0, 1, [c, need - c]))
  {
    var caps := [c, d];
    assert caps[..0] == [] && caps[..1] == [c] && caps[..2] == caps;
    SumStep(caps, 0);
    SumStep(caps, 1);
    assert Carried(caps, 1) == c && Carried(caps, 2) == c + d;
    assert Migrated(caps, need) == [c, need - c];
  }

  function Migrated(caps: seq<nat>, need: nat): seq<nat>
    requires 1 < |caps| && need <= Carried(caps, 2) <= caps[1] + need
  {
    SplitShares.Shares(caps, need, 1)
  }

  lemma BothCaps(list: seq<Task>, tbl: Table, P: Pos, c: nat, d: nat)
    requires Periods(list, tbl, 2)
    requires Spare(CHEAP, list, tbl, P, 0) == c && Spare(CHEAP, list, tbl, P, 1) == d
    ensures Caps(CHEAP, list, tbl, P, [true, true]) == [c, d]
  {
    CapsAt(CHEAP, list, tbl, P, [true, true], 0);
    CapsAt(CHEAP, list, tbl, P, [true, true], 1);
  }

  // ---------------------------------------------------------------- a sound share

  // 4 of every 10 milliseconds on CPU 0, and 6 on CPU 1
  const RESIDENT := Task(0, 10, 0, false, 4000, 4000, 10, 10)
  const HEAVY := Task(3, 30, 1, false, 6000, 6000, 10, 10)
  // no CPU can take 5 more, since the newcomer has the lowest priority on CPU 1 and may not run on CPU 0
  const NEWCOMER := Task(2, 5, 2, true, 5000, 5000, 10, 10)
  const TRIO := [HEAVY, RESIDENT, NEWCOMER]

  lemma TrioOnZero()
    ensures Periods(TRIO, NO_TABLE, 2)
    ensures Response(CHEAP, TRIO, NO_TABLE, RESIDENT, 0) == 4000
    ensures Rooms(CHEAP, TRIO, TRIO, NO_TABLE, 10000, 0) == [6000]
  {
    SumOfThree(HEAVY, RESIDENT, NEWCOMER, NO_TABLE, RESIDENT, 0, 10000);
    SumOfTwo(HEAVY, RESIDENT, NO_TABLE, RESIDENT, 0, 10000);
    ResponseIsDemand(TRIO, NO_TABLE, RESIDENT, 0);
    Capacities();
    assert Room(CHEAP, TRIO, NO_TABLE, RESIDENT, 10000, 0) == 6000;
    RoomsSkip(TRIO, TRIO, NO_TABLE, 10000, 0);
    assert TRIO[1..] == [RESIDENT, NEWCOMER] && [RESIDENT, NEWCOMER][1..] == [NEWCOMER] && [NEWCOMER][1..] == [];
    RoomsSkip(TRIO, [RESIDENT, NEWCOMER], NO_TABLE, 10000, 0);
    RoomsSkip(TRIO, [NEWCOMER], NO_TABLE, 10000, 0);
  }

  /** CPU 0 has exactly the other 6 milliseconds to give, soundly. */
  lemma SixOfTen()
    ensures Small(CHEAP, TRIO, 10000) && Periods(TRIO, NO_TABLE, 2)
    ensures Sound(CHEAP, TRIO, NO_TABLE, 10000, 0) && Spare(CHEAP, TRIO, NO_TABLE, 10000, 0) == 6000
  {
    TrioOnZero();
    Capacities();
    FoldOfOne(6000);
  }

  // ---------------------------------------------------------------- the affinity mask

  /** On CPU 1 the newcomer is too late. */
  lemma TooLateOnOne()
    ensures PeriodicOn(TRIO, NO_TABLE, 1) && !Admits(CHEAP, TRIO, NO_TABLE, NEWCOMER, 1)
  {
    SumOfThree(HEAVY, RESIDENT, NEWCOMER, NO_TABLE, NEWCOMER, 1, 10000);
    SumOfTwo(HEAVY, RESIDENT, NO_TABLE, NEWCOMER, 1, 10000);
    Interferences();
    ResponseIsDemand(TRIO, NO_TABLE, NEWCOMER, 1);
  }

  /** A split whose first CPU can take everything. */
  lemma EndsAtOnce(caps: seq<nat>, avail: seq<bool>, need: nat, k: nat, p: Pieces)
    requires |caps| == |avail| && 0 < |caps| && avail[0] && 0 < need <= caps[0] < WORD
    requires StopsAt(caps, avail, need, k) && SplitInto(caps, need, k, p)
    ensures k == 0 && p.first == 0 && |p.runtime| == |caps| && p.runtime[0] == need
  {
    assert caps[..0] == [] && Carried(caps, 0) == 0;
    CarriedStep(caps, 0);
    assert Reaches(caps, avail, need, 0);
  }

  method SplitNewcomer(avail: array<bool>) returns (dst: nat, share: nat)
    requires avail.Length == 2 && avail[0]
    ensures dst == 0 && share == FpFf.C(CHEAP, NEWCOMER)
  {
    var ft := new SplitTask(2);
    SixOfTen();
    ghost var caps := Caps(CHEAP, TRIO, NO_TABLE, 10000, avail[..]);
    CapsAt(CHEAP, TRIO, NO_TABLE, 10000, avail[..], 0);
    dst := ft.Split(CHEAP, TRIO, NO_TABLE, NEWCOMER, avail);
    EndsAtOnce(caps, avail[..], 5000, ft.last, ft.View());
    share := ft.runtime[0];
  }

  /** A task bound to CPU 1: no CPU it may run on admits it, and the split gives it all its time on CPU 0. */
  method OutsideMask() returns (whole: nat, dst: nat, share: nat)
    ensures whole == CHEAP.cpus && dst == 0 && share == FpFf.C(CHEAP, NEWCOMER)
  {
    var avail := new bool[2](i => true);
    SixOfTen();
    TooLateOnOne();
    whole := FpPm.Partition(CHEAP, TRIO, NO_TABLE, NEWCOMER, {1}, avail);
    assert avail[0];
    dst, share := SplitNewcomer(avail);
  }

  // ---------------------------------------------------------------- a room of zero that is forgotten

  // the first one on CPU 0 fills its deadline and leaves no room
  const FULL := Task(0, 20, 0, false, 5000, 5000, 10, 5)
  const LOOSE := Task(1, 10, 0, false, 1000, 1000, 20, 20)
  const FOUR := [HEAVY, FULL, LOOSE, NEWCOMER]

  lemma FourDemands()
    ensures Periods(FOUR, NO_TABLE, 2)
    ensures Demand(CHEAP, FOUR, NO_TABLE, FULL, 0) == 5000
    ensures Demand(CHEAP, FOUR, NO_TABLE, LOOSE, 0) == 11000
    ensures Demand(CHEAP, FOUR, NO_TABLE, NEWCOMER, 0) == 11000
    ensures Demand(CHEAP, FOUR, NO_TABLE, NEWCOMER, 1) == 11000
    ensures Demand(CHEAP, FOUR, NO_TABLE, HEAVY, 1) == 6000
  {
    Interferences();
    FourSum(FULL, 0, 5000);
    FourSum(LOOSE, 0, 20000);
    FourSum(NEWCOMER, 0, 10000);
    FourSum(NEWCOMER, 1, 10000);
    FourSum(HEAVY, 1, 10000);
  }

  lemma FourSum(rt: Task, cpu: nat, L: nat)
    requires rt in FOUR
    ensures PeriodicOn(FOUR, NO_TABLE, cpu)
    ensures InterfSum(CHEAP, FOUR, NO_TABLE, rt, cpu, L) ==
            Term(CHEAP, NO_TABLE, HEAVY, rt, cpu, L) + Term(CHEAP, NO_TABLE, FULL, rt, cpu, L) +
            Term(CHEAP, NO_TABLE, LOOSE, rt, cpu, L) + Term(CHEAP, NO_TABLE, NEWCOMER, rt, cpu, L)
  {
    SumOfFour(HEAVY, FULL, LOOSE, NEWCOMER, NO_TABLE, rt, cpu, L);
    SumOfThree(HEAVY, FULL, LOOSE, NO_TABLE, rt, cpu, L);
    SumOfTwo(HEAVY, FULL, NO_TABLE, rt, cpu, L);
  }

  lemma FourTails()
    ensures FOUR[1..] == [FULL, LOOSE, NEWCOMER] && [FULL, LOOSE, NEWCOMER][1..] == [LOOSE, NEWCOMER]
    ensures [LOOSE, NEWCOMER][1..] == [NEWCOMER] && [NEWCOMER][1..] == []
  {
  }

  lemma ForgottenRooms()
    ensures Periods(FOUR, NO_TABLE, 2) && Rooms(CHEAP, FOUR, FOUR, NO_TABLE, 10000, 0) == [0, 4500]
    ensures Spare(CHEAP, FOUR, NO_TABLE, 10000, 0) == 4500
  {
    FourDemands();
    ResponseIsDemand(FOUR, NO_TABLE, FULL, 0);
    ResponseIsDemand(FOUR, NO_TABLE, LOOSE, 0);
    Capacities();
    assert Room(CHEAP, FOUR, NO_TABLE, FULL, 10000, 0) == 0;
    assert Room(CHEAP, FOUR, NO_TABLE, LOOSE, 10000, 0) == 4500;
    FourTails();
    RoomsSkip(FOUR, FOUR, NO_TABLE, 10000, 0);
    RoomsSkip(FOUR, [FULL, LOOSE, NEWCOMER], NO_TABLE, 10000, 0);
    RoomsSkip(FOUR, [LOOSE, NEWCOMER], NO_TABLE, 10000, 0);
    RoomsSkip(FOUR, [NEWCOMER], NO_TABLE, 10000, 0);
    assert [0, 4500][1..] == [4500] && [4500][1..] == [];
  }

  lemma FourOnOne()
    ensures Periods(FOUR, NO_TABLE, 2) && Spare(CHEAP, FOUR, NO_TABLE, 10000, 1) == 4000
  {
    FourDemands();
    ResponseIsDemand(FOUR, NO_TABLE, HEAVY, 1);
    Capacities();
    assert Room(CHEAP, FOUR, NO_TABLE, HEAVY, 10000, 1) == 4000;
    FourTails();
    RoomsSkip(FOUR, FOUR, NO_TABLE, 10000, 1);
    RoomsSkip(FOUR, [FULL, LOOSE, NEWCOMER], NO_TABLE, 10000, 1);
    RoomsSkip(FOUR, [LOOSE, NEWCOMER], NO_TABLE, 10000, 1);
    RoomsSkip(FOUR, [NEWCOMER], NO_TABLE, 10000, 1);
    FoldOfOne(4000);
  }

  /** No CPU admits the newcomer as a whole. */
  lemma FourNotWhole(cpu: nat)
    requires cpu < 2
    ensures PeriodicOn(FOUR, NO_TABLE, cpu) && !Admits(CHEAP, FOUR, NO_TABLE, NEWCOMER, cpu)
  {
    FourDemands();
    ResponseIsDemand(FOUR, NO_TABLE, NEWCOMER, cpu);
  }

  /** A task at the end of the list is split and moves to the front. */
  lemma SplitToFront(front: seq<Task>, rt: Task, p: Pieces, lp: Task)
    requires PeriodicOn(front + [rt], NO_TABLE, 0) && forall q :: q in front ==> q.rid != rt.rid
    requires rt.cpu != 0 && 0 < rt.period && 0 < |p.runtime| && 0 < p.runtime[0]
    requires p.first != p.last && lp.prio <= PRIO_MIGRATORY
    ensures
      var now := [Raised(rt, p)] + front;
      && PeriodicOn(now, NO_TABLE[rt.rid := p], 0)
      && Demand(CHEAP, now, NO_TABLE[rt.rid := p], lp, 0) ==
         Demand(CHEAP, front + [rt], NO_TABLE, lp, 0) +
         Interf(p.runtime[0], Micros(CHEAP, rt.period), Micros(CHEAP, lp.deadline))
  {
    var rt' := Raised(rt, p);
    assert front + [rt] + [] == front + [rt] && front + [] == [] + front && [] + [rt'] + front == [rt'] + front;
    DemandAfterSplit(CHEAP, front, rt, [], [], front, NO_TABLE, p, lp, 0);
  }

  lemma FourSplit()
    ensures SplitOn(CHEAP, FOUR, NO_TABLE, NEWCOMER, [true, true], 1, Pieces(0, 1, [4500, 500]))
  {
    ForgottenRooms();
    FourOnOne();
    BothCaps(FOUR, NO_TABLE, 10000, 4500, 4000);
    TwoShares(4500, 4000, 5000);
  }

  /** The plugin gives 4.5 milliseconds of CPU 0 away, and the first task there overruns by as much. */
  lemma ForgottenZeroOverruns()
    ensures forall c: nat :: c < 2 ==> PeriodicOn(FOUR, NO_TABLE, c) && !Admits(CHEAP, FOUR, NO_TABLE, NEWCOMER, c)
    ensures SplitOn(CHEAP, FOUR, NO_TABLE, NEWCOMER, [true, true], 1, Pieces(0, 1, [4500, 500]))
    ensures
      var p := Pieces(0, 1, [4500, 500]);
      var now := [Raised(NEWCOMER, p)] + [HEAVY, FULL, LOOSE];
      && PeriodicOn(now, NO_TABLE[2 := p], 0)
      && Raised(NEWCOMER, p).prio == 97
      && Micros(CHEAP, FULL.deadline) == 5000 && Demand(CHEAP, now, NO_TABLE[2 := p], FULL, 0) == 9500
  {
    FourNotWhole(0);
    FourNotWhole(1);
    FourSplit();
    FourDemands();
    assert [HEAVY, FULL, LOOSE] + [NEWCOMER] == FOUR;
    SplitToFront([HEAVY, FULL, LOOSE], NEWCOMER, Pieces(0, 1, [4500, 500]), FULL);
    Interferences();
  }

  // ---------------------------------------------------------------- a room that is rounded up

  const ODD := Task(0, 10, 0, false, 1001, 1001, 20, 20)
  const LONG := Task(2, 5, 2, true, 9600, 9600, 10, 10)
  const THREE := [HEAVY, ODD, LONG]

  lemma ThreeSum(rt: Task, cpu: nat, L: nat)
    requires rt in THREE
    ensures PeriodicOn(THREE, NO_TABLE, cpu)
    ensures InterfSum(CHEAP, THREE, NO_TABLE, rt, cpu, L) ==
            Term(CHEAP, NO_TABLE, HEAVY, rt, cpu, L) + Term(CHEAP, NO_TABLE, ODD, rt, cpu, L) +
            Term(CHEAP, NO_TABLE, LONG, rt, cpu, L)
  {
    SumOfThree(HEAVY, ODD, LONG, NO_TABLE, rt, cpu, L);
    SumOfTwo(HEAVY, ODD, NO_TABLE, rt, cpu, L);
  }

  lemma ThreeDemands()
    ensures Periods(THREE, NO_TABLE, 2)
    ensures Demand(CHEAP, THREE, NO_TABLE, ODD, 0) == 1001 && Demand(CHEAP, THREE, NO_TABLE, HEAVY, 1) == 6000
    ensures Demand(CHEAP, THREE, NO_TABLE, LONG, 0) == 10601 && Demand(CHEAP, THREE, NO_TABLE, LONG, 1) == 15600
  {
    Interferences();
    ThreeSum(ODD, 0, 20000);
    ThreeSum(HEAVY, 1, 10000);
    ThreeSum(LONG, 0, 10000);
    ThreeSum(LONG, 1, 10000);
  }

  lemma ThreeSpares()
    ensures Periods(THREE, NO_TABLE, 2)
    ensures Spare(CHEAP, THREE, NO_TABLE, 10000, 0) == 9500 && Spare(CHEAP, THREE, NO_TABLE, 10000, 1) == 4000
  {
    ThreeDemands();
    ResponseIsDemand(THREE, NO_TABLE, ODD, 0);
    ResponseIsDemand(THREE, NO_TABLE, HEAVY, 1);
    Capacities();
    assert Room(CHEAP, THREE, NO_TABLE, ODD, 10000, 0) == 9500;
    assert Room(CHEAP, THREE, NO_TABLE, HEAVY, 10000, 1) == 4000;
    assert THREE[1..] == [ODD, LONG] && [ODD, LONG][1..] == [LONG] && [LONG][1..] == [];
    forall c: nat | c < 2
      ensures Rooms(CHEAP, THREE, THREE, NO_TABLE, 10000, c) == if c == 0 then [9500] else [4000]
    {
      RoomsSkip(THREE, THREE, NO_TABLE, 10000, c);
      RoomsSkip(THREE, [ODD, LONG], NO_TABLE, 10000, c);
      RoomsSkip(THREE, [LONG], NO_TABLE, 10000, c);
    }
    FoldOfOne(9500);
    FoldOfOne(4000);
  }

  lemma ThreeNotWhole(cpu: nat)
    requires cpu < 2
    ensures PeriodicOn(THREE, NO_TABLE, cpu) && !Admits(CHEAP, THREE, NO_TABLE, LONG, cpu)
  {
    ThreeDemands();
    ResponseIsDemand(THREE, NO_TABLE, LONG, cpu);
  }

  /** The computed capacity is one microsecond too large, and the task overruns by one. */
  lemma RoundedUpOverruns()
    ensures forall c: nat :: c < 2 ==> PeriodicOn(THREE, NO_TABLE, c) && !Admits(CHEAP, THREE, NO_TABLE, LONG, c)
    ensures SplitOn(CHEAP, THREE, NO_TABLE, LONG, [true, true], 1, Pieces(0, 1, [9500, 100]))
    ensures
      var p := Pieces(0, 1, [9500, 100]);
      var now := [Raised(LONG, p)] + [HEAVY, ODD];
      && PeriodicOn(now, NO_TABLE[2 := p], 0)
      && Raised(LONG, p).prio == 97
      && Micros(CHEAP, ODD.deadline) == 20000 && Demand(CHEAP, now, NO_TABLE[2 := p], ODD, 0) == 20001
  {
    ThreeNotWhole(0);
    ThreeNotWhole(1);
    ThreeSpares();
    BothCaps(THREE, NO_TABLE, 10000, 9500, 4000);
    TwoShares(9500, 4000, 9600);
    ThreeDemands();
    assert [HEAVY, ODD] + [LONG] == THREE;
    SplitToFront([HEAVY, ODD], LONG, Pieces(0, 1, [9500, 100]), ODD);
    Interferences();
  }

  // ---------------------------------------------------------------- two tasks carried from one CPU

  // a task that is split already, with a millisecond on CPU 0 and the other on CPU 1
  const SPLIT := Task(0, 97, 0, false, 2000, 2000, 10, 10)
  const HALVES := Pieces(0, 1, [1000, 1000])
  const LARGE := Task(1, 5, 2, true, 9500, 9500, 10, 10)
  const PAIR := [SPLIT, LARGE]
  const BEFORE: Table := map[0 := HALVES]

  lemma SevenOfTen(cpu: nat)
    requires cpu < 2
    ensures PeriodicOn(PAIR, BEFORE, cpu) && Spare(CHEAP, PAIR, BEFORE, 10000, cpu) == 7000
  {
    SumOfTwo(SPLIT, LARGE, BEFORE, SPLIT, cpu, 10000);
    Interferences();
    ResponseIsDemand(PAIR, BEFORE, SPLIT, cpu);
    Capacities();
    assert PAIR[1..] == [LARGE] && [LARGE][1..] == [];
    RoomsSkip(PAIR, PAIR, BEFORE, 10000, cpu);
    RoomsSkip(PAIR, [LARGE], BEFORE, 10000, cpu);
    FoldOfOne(7000);
  }

  lemma LargeTooLate()
    ensures PeriodicOn(PAIR, BEFORE, 1) && !Admits(CHEAP, PAIR, BEFORE, LARGE, 1)
  {
    SumOfTwo(SPLIT, LARGE, BEFORE, LARGE, 1, 10000);
    Interferences();
    ResponseIsDemand(PAIR, BEFORE, LARGE, 1);
  }

  /** A task bound to CPU 1, where it is too late: the test looks at CPU 1 only and finds nobody continuing
      from there, and the split makes a second task continue from CPU 0. */
  lemma TwoCarried()
    ensures Periods(PAIR, BEFORE, 2) && !Admits(CHEAP, PAIR, BEFORE, LARGE, 1) && !CarriesAny(PAIR, BEFORE, 1)
    ensures
      var p := Pieces(0, 1, [7000, 2500]);
      && SplitOn(CHEAP, PAIR, BEFORE, LARGE, [true, true], 1, p)
      && OneCarried(PAIR, BEFORE, 0) && !OneCarried(PAIR, BEFORE[1 := p], 0)
  {
    SevenOfTen(0);
    SevenOfTen(1);
    LargeTooLate();
    BothCaps(PAIR, BEFORE, 10000, 7000, 7000);
    TwoShares(7000, 7000, 9500);
    var now := BEFORE[1 := Pieces(0, 1, [7000, 2500])];
    assert Continues(now, SPLIT, 0) && Continues(now, LARGE, 0) && SPLIT in PAIR && LARGE in PAIR;
  }
}

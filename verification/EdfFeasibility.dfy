/** What acceptance by the EDF-FF test implies about every interval length. */
module EdfFeasibility {
  import opened Resch
  import opened Arith
  import opened EdfFf

  ghost function DemandOf(p: Task, L: nat): nat
    requires 0 < p.period
  {
    Jobs(p, L) * p.wcet
  }

  /** Exact demand in microseconds, without the rounding to jiffies. */
  ghost function Demand(ts: seq<Task>, L: nat): nat
    requires Periodic(ts)
  {
    if ts == [] then 0
    else Demand(ts[..|ts| - 1], L) + DemandOf(ts[|ts| - 1], L)
  }

  /** No interval, however long, demands more than it supplies. */
  ghost predicate Feasible(pf: Platform, ts: seq<Task>)
    requires Periodic(ts)
  {
    forall L: nat :: Demand(ts, L) <= L * pf.tick
  }

  /** `Util` loses nothing. */
  ghost predicate ExactUtil(pf: Platform, p: Task)
    requires 0 < p.period
  {
    100 * p.wcet == Util(pf, p) * (p.period * pf.tick)
  }

  ghost predicate ExactUtils(pf: Platform, ts: seq<Task>)
    requires Periodic(ts)
  {
    forall p :: p in ts ==> ExactUtil(pf, p)
  }

  lemma Split(ts: seq<Task>)
    requires ts != []
    ensures ts == ts[..|ts| - 1] + [ts[|ts| - 1]]
  {
  }

  lemma DemandAppend(ts: seq<Task>, p: Task, L: nat)
    requires Periodic(ts) && 0 < p.period
    ensures Periodic(ts + [p])
    ensures Demand(ts + [p], L) == Demand(ts, L) + DemandOf(p, L)
  {
    assert (ts + [p])[..|ts|] == ts;
  }

  lemma DbfAppend(pf: Platform, ts: seq<Task>, p: Task, L: nat)
    requires Periodic(ts) && 0 < p.period
    ensures Periodic(ts + [p])
    ensures DbfSum(pf, ts + [p], L) == DbfSum(pf, ts, L) + DbfTask(pf, p, L)
  {
    assert (ts + [p])[..|ts|] == ts;
  }

  // ---------------------------------------------------------------- checkpoints suffice up to Lmax

  ghost predicate IsCheckpoint(ts: seq<Task>, L: nat) {
    exists q, k: nat :: q in ts && L == Checkpoint(q, k)
  }

  /** Demand only moves at a deadline of the task. */
  lemma JobsConstant(p: Task, L: nat)
    requires 0 < p.period && 0 < L
    requires forall k: nat :: L != Checkpoint(p, k)
    ensures Jobs(p, L) == Jobs(p, L - 1)
  {
    assert L != Checkpoint(p, 0);
    if p.deadline <= L {
      var k := (L - p.deadline) / p.period;
      assert L != Checkpoint(p, k);
      DivUnique(L - 1 - p.deadline, p.period, k);
    }
  }

  lemma DbfConstant(pf: Platform, ts: seq<Task>, L: nat)
    requires Periodic(ts) && 0 < L && !IsCheckpoint(ts, L)
    ensures DbfSum(pf, ts, L) == DbfSum(pf, ts, L - 1)
  {
    if ts != [] {
      Split(ts);
      var p := ts[|ts| - 1];
      forall k: nat ensures L != Checkpoint(p, k) {
        assert p in ts;
      }
      JobsConstant(p, L);
      assert !IsCheckpoint(ts[..|ts| - 1], L);
      DbfConstant(pf, ts[..|ts| - 1], L);
    }
  }

  lemma DbfAtZero(pf: Platform, ts: seq<Task>)
    requires Periodic(ts) && !IsCheckpoint(ts, 0)
    ensures DbfSum(pf, ts, 0) == 0
  {
    if ts != [] {
      Split(ts);
      var p := ts[|ts| - 1];
      assert p in ts && Checkpoint(p, 0) == p.deadline;
      assert !IsCheckpoint(ts[..|ts| - 1], 0);
      DbfAtZero(pf, ts[..|ts| - 1]);
      assert Jobs(p, 0) == 0;
      assert CeilDiv(0, pf.tick) == 0;
    }
  }

  /** Looking only at the points deadline + k * period covers every length up to Lmax. */
  lemma {:induction false} CheckpointsSuffice(pf: Platform, ts: seq<Task>, rt: Task, L: nat)
    requires Periodic(ts) && 0 < rt.period && 0 < rt.wcet && Accepts(pf, ts, rt)
    requires L <= TestLength(pf, ts + [rt])
    ensures DbfSum(pf, ts, L) + DbfTask(pf, rt, L) <= L
  {
    var all := ts + [rt];
    DbfAppend(pf, ts, rt, L);
    if IsCheckpoint(all, L) {
      var q, k: nat :| q in all && L == Checkpoint(q, k);
      assert ChecksOut(pf, ts, rt, q, TestLength(pf, all));
      assert Fits(pf, ts, rt, L);
    } else if L == 0 {
      DbfAtZero(pf, all);
    } else {
      DbfConstant(pf, all, L);
      CheckpointsSuffice(pf, ts, rt, L - 1);
      DbfAppend(pf, ts, rt, L - 1);
    }
  }

  lemma DemandBelowDbf(pf: Platform, ts: seq<Task>, L: nat)
    requires Periodic(ts)
    ensures Demand(ts, L) <= DbfSum(pf, ts, L) * pf.tick
  {
    if ts != [] {
      Split(ts);
      DemandBelowDbf(pf, ts[..|ts| - 1], L);
      var p := ts[|ts| - 1];
      ScaledSum(Demand(ts[..|ts| - 1], L), DbfSum(pf, ts[..|ts| - 1], L),
                Jobs(p, L) * p.wcet, DbfTask(pf, p, L), pf.tick);
    }
  }

  // ---------------------------------------------------------------- beyond Lmax the linear bound wins

  /** Jobs never outrun the line through the first deadline. */
  lemma JobsLinear(p: Task, L: nat)
    requires 0 < p.period && p.deadline <= L
    ensures Jobs(p, L) * p.period <= L - p.deadline + p.period
  {
    var q := (L - p.deadline) / p.period;
    assert (q + 1) * p.period == q * p.period + p.period;
  }

  /** Utilization in whole percent, rounded up. */
  function UtilUp(pf: Platform, p: Task): nat
    requires 0 < p.period
  {
    CeilDiv(100 * p.wcet, p.period * pf.tick)
  }

  function UtilUpSum(pf: Platform, ts: seq<Task>): nat
    requires Periodic(ts)
  {
    if ts == [] then 0 else UtilUpSum(pf, ts[..|ts| - 1]) + UtilUp(pf, ts[|ts| - 1])
  }

  /** The slack between period and deadline, weighted by the utilization rounded up. */
  function SlackUp(pf: Platform, p: Task): int
    requires 0 < p.period
  {
    (p.period - p.deadline) * UtilUp(pf, p)
  }

  function SlackUpSum(pf: Platform, ts: seq<Task>): int
    requires Periodic(ts)
  {
    if ts == [] then 0 else SlackUpSum(pf, ts[..|ts| - 1]) + SlackUp(pf, ts[|ts| - 1])
  }

  lemma TaskLinear(pf: Platform, p: Task, L: nat)
    requires 0 < p.period && p.deadline <= L
    ensures 100 * (Jobs(p, L) * p.wcet) <= (L * UtilUp(pf, p) + SlackUp(pf, p)) * pf.tick
  {
    JobsLinear(p, L);
    WorkLinear(Jobs(p, L), p.wcet, UtilUp(pf, p), p.period, pf.tick, L, p.period - p.deadline);
  }

  lemma WorkLinear(n: nat, wcet: nat, u: nat, period: nat, t: nat, L: nat, w: int)
    requires 100 * wcet <= u * (period * t) && n * period <= L + w
    ensures 100 * (n * wcet) <= (L * u + w * u) * t
  {
    MulMono(100 * wcet, u * (period * t), n);
    MulMono(n * period, L + w, u * t);
    assert n * (100 * wcet) == 100 * (n * wcet);
    assert (u * (period * t)) * n == (n * period) * (u * t);
    assert (L + w) * (u * t) == (L * u + w * u) * t;
  }

  /** Demand stays below the line whose slope is the utilization rounded up. */
  lemma DemandLinear(pf: Platform, ts: seq<Task>, L: nat)
    requires Periodic(ts) && forall p :: p in ts ==> p.deadline <= L
    ensures 100 * Demand(ts, L) <= (L * UtilUpSum(pf, ts) + SlackUpSum(pf, ts)) * pf.tick
  {
    if ts != [] {
      Split(ts);
      var front, p := ts[..|ts| - 1], ts[|ts| - 1];
      DemandLinear(pf, front, L);
      TaskLinear(pf, p, L);
      Distribute(L, UtilUpSum(pf, front), UtilUp(pf, p), SlackUpSum(pf, front), SlackUp(pf, p), pf.tick);
    }
  }

  lemma Distribute(L: nat, a: nat, u: nat, b: int, w: int, t: nat)
    ensures (L * (a + u) + (b + w)) * t == (L * a + b) * t + (L * u + w) * t
  {
  }

  /** The length behind which the line stays below the supply. */
  function SettledLength(pf: Platform, ts: seq<Task>): (r: nat)
    requires Periodic(ts) && UtilUpSum(pf, ts) < 100
    ensures MaxDeadline(ts) <= r
  {
    var x := SlackUpSum(pf, ts);
    Length(if x < 0 then 0 else x, UtilUpSum(pf, ts), MaxDeadline(ts))
  }

  lemma BeyondSettledLength(pf: Platform, ts: seq<Task>, L: nat)
    requires Periodic(ts) && UtilUpSum(pf, ts) < 100 && SettledLength(pf, ts) < L
    ensures Demand(ts, L) <= L * pf.tick
  {
    DemandLinear(pf, ts, L);
    LinearWins(UtilUpSum(pf, ts), SlackUpSum(pf, ts), L, pf.tick, Demand(ts, L));
  }

  lemma LinearWins(u: nat, x: int, L: nat, t: nat, demand: nat)
    requires u < 100 && (if x < 0 then 0 else x) / (100 - u) < L
    requires 100 * demand <= (L * u + x) * t
    ensures demand <= L * t
  {
    var y := if x < 0 then 0 else x;
    var q := y / (100 - u);
    assert y < (q + 1) * (100 - u);
    MulMono(q + 1, L, 100 - u);
    assert L * (100 - u) == 100 * L - L * u;
    MulMono(L * u + x, 100 * L, t);
    assert (100 * L) * t == 100 * (L * t);
  }

  /** Up to the test length acceptance settles the demand. */
  lemma WithinTestLength(pf: Platform, ts: seq<Task>, rt: Task, L: nat)
    requires Periodic(ts) && 0 < rt.period && 0 < rt.wcet && Accepts(pf, ts, rt)
    requires Periodic(ts + [rt]) && L <= TestLength(pf, ts + [rt])
    ensures Demand(ts + [rt], L) <= L * pf.tick
  {
    CheckpointsSuffice(pf, ts, rt, L);
    DbfAppend(pf, ts, rt, L);
    DemandBelowDbf(pf, ts + [rt], L);
    MulMono(DbfSum(pf, ts + [rt], L), L, pf.tick);
  }

  /** The lengths between the test length and the settled length fit. */
  ghost predicate UnsettledFit(pf: Platform, ts: seq<Task>)
    requires Periodic(ts) && UtilUpSum(pf, ts) < 100
  {
    forall L: nat :: TestLength(pf, ts) < L <= SettledLength(pf, ts) ==> Demand(ts, L) <= L * pf.tick
  }

  /** Of an accepted set only those lengths are open, for any utilizations that stay below 100 percent when
      they are rounded up. */
  lemma AcceptedSettledIff(pf: Platform, ts: seq<Task>, rt: Task)
    requires Periodic(ts) && 0 < rt.period && 0 < rt.wcet && Accepts(pf, ts, rt)
    requires Periodic(ts + [rt]) && UtilUpSum(pf, ts + [rt]) < 100
    ensures Feasible(pf, ts + [rt]) <==> UnsettledFit(pf, ts + [rt])
  {
    if UnsettledFit(pf, ts + [rt]) {
      forall L: nat ensures Demand(ts + [rt], L) <= L * pf.tick {
        LengthSettled(pf, ts, rt, L);
      }
    }
  }

  lemma LengthSettled(pf: Platform, ts: seq<Task>, rt: Task, L: nat)
    requires Periodic(ts) && 0 < rt.period && 0 < rt.wcet && Accepts(pf, ts, rt)
    requires Periodic(ts + [rt]) && UtilUpSum(pf, ts + [rt]) < 100 && UnsettledFit(pf, ts + [rt])
    ensures Demand(ts + [rt], L) <= L * pf.tick
  {
    if L <= TestLength(pf, ts + [rt]) {
      WithinTestLength(pf, ts, rt, L);
    } else if SettledLength(pf, ts + [rt]) < L {
      BeyondSettledLength(pf, ts + [rt], L);
    }
  }

  /** Where utilizations do not round, both roundings agree. */
  lemma NothingRounds(pf: Platform, ts: seq<Task>)
    requires Periodic(ts) && ExactUtils(pf, ts)
    ensures UtilUpSum(pf, ts) == UtilSum(pf, ts) && SlackUpSum(pf, ts) == SlackSum(pf, ts)
  {
    if ts != [] {
      Split(ts);
      NothingRounds(pf, ts[..|ts| - 1]);
      ExactlyDivides(pf, ts[|ts| - 1]);
    }
  }

  lemma ExactlyDivides(pf: Platform, p: Task)
    requires 0 < p.period && ExactUtil(pf, p)
    ensures UtilUp(pf, p) == Util(pf, p)
  {
    var y, u := p.period * pf.tick, Util(pf, p);
    MulMono(1, p.period, pf.tick);
    DivUnique(u * y, y, u);
    assert u * y == (u * y) / y * y + u * y % y;
  }

  /** The word the source accumulates is the slack or more, as long as the slack fits a word. */
  lemma SettledByTest(pf: Platform, ts: seq<Task>)
    requires Periodic(ts) && ExactUtils(pf, ts) && UtilSum(pf, ts) < 100 && SlackSum(pf, ts) < WORD
    ensures UtilUpSum(pf, ts) < 100 && SettledLength(pf, ts) <= TestLength(pf, ts)
  {
    NothingRounds(pf, ts);
    var x := SlackSum(pf, ts);
    DivMono(if x < 0 then 0 else x, SlackWord(pf, ts), 100 - UtilSum(pf, ts));
  }

  /** Then nothing beyond the test length can overrun. */
  lemma BeyondTestLength(pf: Platform, ts: seq<Task>, L: nat)
    requires Periodic(ts) && ExactUtils(pf, ts) && UtilSum(pf, ts) < 100 && SlackSum(pf, ts) < WORD
    requires TestLength(pf, ts) < L
    ensures Demand(ts, L) <= L * pf.tick
  {
    SettledByTest(pf, ts);
    BeyondSettledLength(pf, ts, L);
  }

  /** So with utilizations that do not round the finite test settles everything below full utilization. */
  lemma AcceptedIsFeasible(pf: Platform, ts: seq<Task>, rt: Task)
    requires Periodic(ts) && 0 < rt.period
    requires rt.wcet == 0 ==> Feasible(pf, ts)
    requires Accepts(pf, ts, rt)
    requires ExactUtils(pf, ts + [rt]) && UtilSum(pf, ts + [rt]) < 100 && SlackSum(pf, ts + [rt]) < WORD
    ensures Feasible(pf, ts + [rt])
  {
    if rt.wcet == 0 {
      NoWorkIsFeasible(pf, ts, rt);
    } else {
      forall L: nat ensures Demand(ts + [rt], L) <= L * pf.tick {
        if L <= TestLength(pf, ts + [rt]) {
          WithinTestLength(pf, ts, rt, L);
        } else {
          BeyondTestLength(pf, ts + [rt], L);
        }
      }
    }
  }

  lemma NoWorkIsFeasible(pf: Platform, ts: seq<Task>, rt: Task)
    requires Periodic(ts) && 0 < rt.period && rt.wcet == 0
    ensures Periodic(ts + [rt]) && (Feasible(pf, ts + [rt]) <==> Feasible(pf, ts))
  {
    forall L: nat ensures Periodic(ts + [rt]) && Demand(ts + [rt], L) == Demand(ts, L) {
      DemandAppend(ts, rt, L);
    }
  }

  // ---------------------------------------------------------------- the exact scope of the claim

  /** `H` is a common multiple of all periods. */
  ghost predicate Hyperperiod(ts: seq<Task>, H: nat)
    requires Periodic(ts)
  {
    0 < H && forall p :: p in ts ==> H % p.period == 0
  }

  ghost function PeriodProduct(ts: seq<Task>): nat {
    if ts == [] then 1 else PeriodProduct(ts[..|ts| - 1]) * ts[|ts| - 1].period
  }

  lemma MultipleTimes(H: nat, p: nat, k: nat)
    requires 0 < p && H % p == 0
    ensures H * k % p == 0
  {
    var q := H / p;
    assert H == q * p && H * k == (q * k) * p;
    DivUnique(H * k, p, q * k);
  }

  lemma ProductIsMultiple(k: nat, p: nat)
    requires 0 < p
    ensures k * p % p == 0
  {
    DivUnique(k * p, p, k);
  }

  /** Every periodic task set has a hyperperiod. */
  lemma {:induction false} HyperperiodExists(ts: seq<Task>)
    requires Periodic(ts)
    ensures Hyperperiod(ts, PeriodProduct(ts))
  {
    if ts != [] {
      Split(ts);
      var front, last := ts[..|ts| - 1], ts[|ts| - 1];
      HyperperiodExists(front);
      var H := PeriodProduct(front);
      MulMono(1, H, last.period);
      ProductIsMultiple(H, last.period);
      forall p | p in front ensures H * last.period % p.period == 0 {
        MultipleTimes(H, p.period, last.period);
      }
      assert forall p :: p in ts ==> p in front || p == last;
    }
  }

  ghost function WorkOf(p: Task, H: nat): nat
    requires 0 < p.period
  {
    H / p.period * p.wcet
  }

  /** Work released per hyperperiod, in microseconds. */
  ghost function WorkIn(ts: seq<Task>, H: nat): nat
    requires Periodic(ts)
  {
    if ts == [] then 0
    else WorkIn(ts[..|ts| - 1], H) + WorkOf(ts[|ts| - 1], H)
  }

  lemma JobsShift(p: Task, L: nat, H: nat)
    requires 0 < p.period && H % p.period == 0
    ensures Jobs(p, L + H) <= Jobs(p, L) + H / p.period
    ensures p.deadline <= L ==> Jobs(p, L + H) == Jobs(p, L) + H / p.period
  {
    var h := H / p.period;
    assert H == h * p.period;
    if p.deadline <= L {
      var q := (L - p.deadline) / p.period;
      assert (q + h) * p.period == q * p.period + h * p.period;
      DivUnique(L + H - p.deadline, p.period, q + h);
    } else if p.deadline <= L + H {
      var q := (L + H - p.deadline) / p.period;
      if q >= h {
        MulMono(h, q, p.period);
      }
    }
  }

  /** Demand repeats: one more hyperperiod adds at most, and past all deadlines exactly, its work. */
  lemma DemandShift(ts: seq<Task>, L: nat, H: nat)
    requires Periodic(ts) && Hyperperiod(ts, H)
    ensures Demand(ts, L + H) <= Demand(ts, L) + WorkIn(ts, H)
    ensures MaxDeadline(ts) <= L ==> Demand(ts, L + H) == Demand(ts, L) + WorkIn(ts, H)
  {
    if ts != [] {
      Split(ts);
      var p := ts[|ts| - 1];
      DemandShift(ts[..|ts| - 1], L, H);
      JobsShift(p, L, H);
      MulMono(Jobs(p, L + H), Jobs(p, L) + H / p.period, p.wcet);
      assert (Jobs(p, L) + H / p.period) * p.wcet == Jobs(p, L) * p.wcet + H / p.period * p.wcet;
    }
  }

  lemma DemandAfter(ts: seq<Task>, d: nat, H: nat, m: nat)
    requires Periodic(ts) && Hyperperiod(ts, H) && MaxDeadline(ts) <= d
    ensures Demand(ts, d + m * H) >= m * WorkIn(ts, H)
  {
    if m > 0 {
      DemandAfter(ts, d, H, m - 1);
      DemandShift(ts, d + (m - 1) * H, H);
      assert d + (m - 1) * H + H == d + m * H;
      assert (m - 1) * WorkIn(ts, H) + WorkIn(ts, H) == m * WorkIn(ts, H);
    }
  }

  /** An overloaded set overruns some interval. */
  lemma OverloadOverruns(pf: Platform, ts: seq<Task>, H: nat)
    requires Periodic(ts) && Hyperperiod(ts, H) && H * pf.tick < WorkIn(ts, H)
    ensures !Feasible(pf, ts)
  {
    var d, t, w := MaxDeadline(ts), pf.tick, WorkIn(ts, H);
    var m := d * t + 1;
    DemandAfter(ts, d, H, m);
    GrowthOvertakes(d, m, H, t, w);
    assert Demand(ts, d + m * H) > (d + m * H) * t;
  }

  lemma GrowthOvertakes(d: nat, m: nat, H: nat, t: nat, w: nat)
    requires m == d * t + 1 && H * t < w
    ensures (d + m * H) * t < m * w
  {
    assert (d + m * H) * t == d * t + m * (H * t);
    MulMono(H * t + 1, w, m);
    assert (H * t + 1) * m == m * (H * t) + m;
  }

  /** No interval up to `H` demands more than it supplies. */
  ghost predicate FeasibleWithin(pf: Platform, ts: seq<Task>, H: nat)
    requires Periodic(ts)
  {
    forall L: nat :: L <= H ==> Demand(ts, L) <= L * pf.tick
  }

  lemma {:induction false} FirstHyperperiodSuffices(pf: Platform, ts: seq<Task>, H: nat, L: nat)
    requires Periodic(ts) && Hyperperiod(ts, H) && WorkIn(ts, H) <= H * pf.tick
    requires FeasibleWithin(pf, ts, H)
    ensures Demand(ts, L) <= L * pf.tick
  {
    if H < L {
      FirstHyperperiodSuffices(pf, ts, H, L - H);
      DemandShift(ts, L - H, H);
      assert L - H + H == L;
      ScaledSum(Demand(ts, L - H), L - H, WorkIn(ts, H), H, pf.tick);
    }
  }

  /** Feasibility over all lengths is decided inside one hyperperiod, both ways. */
  lemma FeasibleIff(pf: Platform, ts: seq<Task>, H: nat)
    requires Periodic(ts) && Hyperperiod(ts, H)
    ensures Feasible(pf, ts) <==> WorkIn(ts, H) <= H * pf.tick && FeasibleWithin(pf, ts, H)
  {
    if WorkIn(ts, H) > H * pf.tick {
      OverloadOverruns(pf, ts, H);
    } else if FeasibleWithin(pf, ts, H) {
      forall L: nat ensures Demand(ts, L) <= L * pf.tick {
        FirstHyperperiodSuffices(pf, ts, H, L);
      }
    }
  }

  lemma ExactWork(pf: Platform, ts: seq<Task>, H: nat)
    requires Periodic(ts) && Hyperperiod(ts, H) && ExactUtils(pf, ts)
    ensures 100 * WorkIn(ts, H) == UtilSum(pf, ts) * (H * pf.tick)
  {
    if ts != [] {
      Split(ts);
      var front, p := ts[..|ts| - 1], ts[|ts| - 1];
      ExactWork(pf, front, H);
      ExactWorkOf(pf, p, H);
      ScaledEqual(100 * WorkIn(front, H), UtilSum(pf, front), 100 * WorkOf(p, H), Util(pf, p), H * pf.tick);
    }
  }

  lemma ExactWorkOf(pf: Platform, p: Task, H: nat)
    requires 0 < p.period && H % p.period == 0 && ExactUtil(pf, p)
    ensures 100 * WorkOf(p, H) == Util(pf, p) * (H * pf.tick)
  {
    TaskWork(H / p.period, p.period, p.wcet, Util(pf, p), pf.tick);
    assert H == H / p.period * p.period;
  }

  lemma TaskWork(h: nat, period: nat, wcet: nat, u: nat, t: nat)
    requires 100 * wcet == u * (period * t)
    ensures 100 * (h * wcet) == u * ((h * period) * t)
  {
    calc {
      100 * (h * wcet);
      h * (100 * wcet);
      h * (u * (period * t));
      u * ((h * period) * t);
    }
  }

  /** What the test leaves open in a set with hyperperiod `H`. */
  ghost predicate OpenLengthsFit(pf: Platform, ts: seq<Task>, H: nat)
    requires Periodic(ts)
  {
    && WorkIn(ts, H) <= H * pf.tick
    && forall L: nat :: TestLength(pf, ts) < L <= H ==> Demand(ts, L) <= L * pf.tick
  }

  /** What acceptance means, for any utilizations: the set is feasible just when one hyperperiod is not
      overloaded and no length between the test length and its end overruns. */
  lemma AcceptedFeasibleIff(pf: Platform, ts: seq<Task>, rt: Task, H: nat)
    requires Periodic(ts) && 0 < rt.period && 0 < rt.wcet && Accepts(pf, ts, rt)
    requires Periodic(ts + [rt]) && Hyperperiod(ts + [rt], H)
    ensures Feasible(pf, ts + [rt]) <==> OpenLengthsFit(pf, ts + [rt], H)
  {
    var all := ts + [rt];
    FeasibleIff(pf, all, H);
    if OpenLengthsFit(pf, all, H) {
      forall L: nat | L <= H ensures Demand(all, L) <= L * pf.tick {
        if L <= TestLength(pf, all) {
          WithinTestLength(pf, ts, rt, L);
        }
      }
    }
  }

  /** With utilizations that do not round an accepted set is feasible below 100 percent, never above it,
      and at exactly 100 percent just when one hyperperiod fits. */
  lemma WholePercentFeasibleIff(pf: Platform, ts: seq<Task>, rt: Task, H: nat)
    requires Periodic(ts) && 0 < rt.period && 0 < rt.wcet && Accepts(pf, ts, rt)
    requires Periodic(ts + [rt]) && ExactUtils(pf, ts + [rt]) && Hyperperiod(ts + [rt], H)
    requires SlackSum(pf, ts + [rt]) < WORD
    ensures Feasible(pf, ts + [rt]) <==>
            var u := UtilSum(pf, ts + [rt]);
            u < 100 || (u == 100 && FeasibleWithin(pf, ts + [rt], H))
  {
    var all := ts + [rt];
    var u, supply := UtilSum(pf, all), H * pf.tick;
    ExactWork(pf, all, H);
    if u < 100 {
      AcceptedIsFeasible(pf, ts, rt);
    } else {
      FeasibleIff(pf, all, H);
      MulMono(100, u, supply);
      if u > 100 {
        MulMono(101, u, supply);
        assert 0 < supply;
      }
    }
  }

  // ---------------------------------------------------------------- where acceptance is not enough

  /** The platform with the costs the core starts with, one-millisecond jiffies and one CPU. */
  const DEFAULT_PLATFORM := Platform(1000, 1, 20, 5, 20, true)

  lemma AcceptsTwo(p: Task, rt: Task)
    requires 0 < p.deadline == p.period < rt.deadline == rt.period && rt.period < 2 * p.period
    requires TestLength(DEFAULT_PLATFORM, [p, rt]) == rt.period
    requires Fits(DEFAULT_PLATFORM, [p], rt, p.period) && Fits(DEFAULT_PLATFORM, [p], rt, rt.period)
    ensures Accepts(DEFAULT_PLATFORM, [p], rt)
  {
    var pf := DEFAULT_PLATFORM;
    assert [p] + [rt] == [p, rt];
    forall q, k: nat | q in [p, rt] && Checkpoint(q, k) <= rt.period
      ensures Fits(pf, [p], rt, Checkpoint(q, k))
    {
      if k >= 1 {
        MulMono(1, k, q.period);
        assert false;
      }
      assert Checkpoint(q, 0) == q.deadline;
    }
    forall q | q in [p] + [rt] ensures ChecksOut(pf, [p], rt, q, TestLength(pf, [p] + [rt])) {
    }
  }

  const HALF_LOAD := Task(0, 3, 0, false, 10000, 10000, 20, 20)
  const TOO_MUCH := Task(1, 3, 1, true, 18000, 18000, 30, 30)

  lemma OverloadTotals()
    ensures UtilSum(DEFAULT_PLATFORM, [HALF_LOAD, TOO_MUCH]) == 110 && MaxDeadline([HALF_LOAD, TOO_MUCH]) == 30
    ensures Demand([HALF_LOAD, TOO_MUCH], 60) == 66 * DEFAULT_PLATFORM.tick
  {
    TotalsOfTwo(HALF_LOAD, TOO_MUCH);
    DemandOfTwo(HALF_LOAD, TOO_MUCH, 60);
  }

  /** At 110 percent the test stops at the largest deadline and accepts, although the
      comment in the source says that it would reject. */
  lemma OverloadIsAccepted()
    ensures UtilSum(DEFAULT_PLATFORM, [HALF_LOAD, TOO_MUCH]) == 110
    ensures ExactUtils(DEFAULT_PLATFORM, [HALF_LOAD, TOO_MUCH])
    ensures Accepts(DEFAULT_PLATFORM, [HALF_LOAD], TOO_MUCH)
    ensures Demand([HALF_LOAD, TOO_MUCH], 60) == 66 * DEFAULT_PLATFORM.tick
  {
    OverloadTotals();
    OverheadSmall(HALF_LOAD, TOO_MUCH, 20);
    OverheadSmall(HALF_LOAD, TOO_MUCH, 30);
    AcceptsTwo(HALF_LOAD, TOO_MUCH);
  }

  const ROUNDED_LOAD := Task(0, 3, 0, false, 101000, 101000, 200, 200)
  const ROUNDED_REST := Task(1, 3, 1, true, 149000, 149000, 300, 300)

  lemma RoundedTotals()
    ensures UtilSum(DEFAULT_PLATFORM, [ROUNDED_LOAD, ROUNDED_REST]) == 99
    ensures TestLength(DEFAULT_PLATFORM, [ROUNDED_LOAD, ROUNDED_REST]) == 300
    ensures Demand([ROUNDED_LOAD, ROUNDED_REST], 600) == 601 * DEFAULT_PLATFORM.tick
  {
    TotalsOfTwo(ROUNDED_LOAD, ROUNDED_REST);
    DemandOfTwo(ROUNDED_LOAD, ROUNDED_REST, 600);
  }

  /** Rounding utilizations down hides an overload from the test: 99 percent by its count. */
  lemma RoundedOverloadIsAccepted()
    ensures UtilSum(DEFAULT_PLATFORM, [ROUNDED_LOAD, ROUNDED_REST]) == 99
    ensures Accepts(DEFAULT_PLATFORM, [ROUNDED_LOAD], ROUNDED_REST)
    ensures Demand([ROUNDED_LOAD, ROUNDED_REST], 600) == 601 * DEFAULT_PLATFORM.tick
  {
    RoundedTotals();
    OverheadSmall(ROUNDED_LOAD, ROUNDED_REST, 200);
    OverheadSmall(ROUNDED_LOAD, ROUNDED_REST, 300);
    AcceptsTwo(ROUNDED_LOAD, ROUNDED_REST);
  }

  lemma TotalsOfTwo(p: Task, rt: Task)
    requires 0 < p.period && 0 < rt.period
    ensures
      var pf := DEFAULT_PLATFORM;
      && SlackSum(pf, [p, rt]) == Slack(pf, p) + Slack(pf, rt)
      && UtilSum(pf, [p, rt]) == Util(pf, p) + Util(pf, rt)
      && MaxDeadline([p, rt]) == if p.deadline > rt.deadline then p.deadline else rt.deadline
  {
    TotalsStep(DEFAULT_PLATFORM, [], p);
    TotalsStep(DEFAULT_PLATFORM, [p], rt);
    assert [] + [p] == [p] && [p] + [rt] == [p, rt];
  }

  lemma DemandOfTwo(p: Task, rt: Task, L: nat)
    requires 0 < p.period && 0 < rt.period
    ensures Demand([p, rt], L) == Jobs(p, L) * p.wcet + Jobs(rt, L) * rt.wcet
  {
    DemandAppend([], p, L);
    DemandAppend([p], rt, L);
    assert [] + [p] == [p] && [p] + [rt] == [p, rt];
  }

  /** A settled task and a newcomer cost at most one jiffy of overhead in any short interval. */
  lemma OverheadSmall(p: Task, rt: Task, L: nat)
    requires 0 < p.period && 0 < rt.period && !p.migratory && 0 < L <= 1000
    ensures
      var pf := DEFAULT_PLATFORM;
      DbfTask(pf, p, L) + DbfTask(pf, rt, L) + 1 <= L ==> Fits(pf, [p], rt, L)
  {
    var pf := DEFAULT_PLATFORM;
    assert [p][..0] == [];
    assert OverheadTasks(pf, [p], L) == OverheadTask(pf, p, L);
    assert DbfSum(pf, [p], L) == DbfTask(pf, p, L);
    OneJob(L, p.period);
    OneJob(L, rt.period);
    assert CeilDiv(L, 1000) == 1;
  }

  lemma OneJob(L: nat, period: nat)
    requires 0 < period && 0 < L <= 1000
    ensures CeilDiv(L, period * 1000) == 1
  {
    MulMono(1, period, 1000);
    if L < period * 1000 {
      DivUnique(L, period * 1000, 0);
    } else {
      DivUnique(L, period * 1000, 1);
    }
  }
}

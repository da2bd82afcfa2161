/** The demand-bound analysis of the EDF-FF plugin: what its finite test settles. */
module EdfFf {
  import opened Resch

  // ---------------------------------------------------------------- the analysis, as functions

  /** Utilization in whole percent, rounded down. */
  function Util(pf: Platform, p: Task): nat
    requires 0 < p.period
  {
    100 * p.wcet / (p.period * pf.tick)
  }

  /** Jobs of `p` with release and deadline inside an interval of `L` jiffies. */
  function Jobs(p: Task, L: nat): nat
    requires 0 < p.period
  {
    if L < p.deadline then 0 else (L - p.deadline) / p.period + 1
  }

  /** Demand of one task in jiffies, rounded up. */
  function DbfTask(pf: Platform, p: Task, L: nat): nat
    requires 0 < p.period
  {
    CeilDiv(Jobs(p, L) * p.wcet, pf.tick)
  }

  function UtilSum(pf: Platform, ts: seq<Task>): nat
    requires Periodic(ts)
  {
    if ts == [] then 0 else UtilSum(pf, ts[..|ts| - 1]) + Util(pf, ts[|ts| - 1])
  }

  function DbfSum(pf: Platform, ts: seq<Task>, L: nat): nat
    requires Periodic(ts)
  {
    if ts == [] then 0 else DbfSum(pf, ts[..|ts| - 1], L) + DbfTask(pf, ts[|ts| - 1], L)
  }

  function Slack(pf: Platform, p: Task): int
    requires 0 < p.period
  {
    (p.period - p.deadline) * Util(pf, p)
  }

  /** The slack as the source computes it, in unsigned words. */
  function WordSlack(pf: Platform, p: Task): nat
    requires 0 < p.period
  {
    WordMul(WordSub(p.period, p.deadline), Util(pf, p))
  }

  /** The x of the test length before it is reduced to a word: slack between period and deadline
      weighted by utilization, negative for deadlines beyond the period. */
  function SlackSum(pf: Platform, ts: seq<Task>): int
    requires Periodic(ts)
  {
    if ts == [] then 0
    else
      var p := ts[|ts| - 1];
      SlackSum(pf, ts[..|ts| - 1]) + Slack(pf, p)
  }

  /** The x as the source accumulates it. */
  function SlackWord(pf: Platform, ts: seq<Task>): nat
    requires Periodic(ts)
  {
    SlackSum(pf, ts) % WORD
  }

  function MaxDeadline(ts: seq<Task>): (d: nat)
    ensures forall p :: p in ts ==> p.deadline <= d
  {
    if ts == [] then 0
    else
      var d := MaxDeadline(ts[..|ts| - 1]);
      assert ts == ts[..|ts| - 1] + [ts[|ts| - 1]];
      if d > ts[|ts| - 1].deadline then d else ts[|ts| - 1].deadline
  }

  /** The interval length up to which the test looks, from the three accumulators. */
  function Length(x: nat, u: nat, d: nat): (r: nat)
    ensures d <= r
  {
    if 100 <= u then d
    else if x / (100 - u) > d then x / (100 - u) else d
  }

  function TestLength(pf: Platform, ts: seq<Task>): nat
    requires Periodic(ts)
  {
    Length(SlackWord(pf, ts), UtilSum(pf, ts), MaxDeadline(ts))
  }

  function Overhead(pf: Platform, ts: seq<Task>, rt: Task, L: nat): nat
    requires Periodic(ts) && 0 < rt.period
  {
    CeilDiv(OverheadCpu(pf, ts, L) + OverheadTask(pf, rt, L), pf.tick)
  }

  function Checkpoint(q: Task, k: nat): nat {
    q.deadline + k * q.period
  }

  predicate Fits(pf: Platform, ts: seq<Task>, rt: Task, L: nat)
    requires Periodic(ts) && 0 < rt.period
  {
    DbfSum(pf, ts, L) + DbfTask(pf, rt, L) + Overhead(pf, ts, rt, L) <= L
  }

  /** Every deadline of `q` up to `Lmax` fits. */
  ghost predicate ChecksOut(pf: Platform, ts: seq<Task>, rt: Task, q: Task, Lmax: nat)
    requires Periodic(ts) && 0 < rt.period
  {
    forall k: nat :: Checkpoint(q, k) <= Lmax ==> Fits(pf, ts, rt, Checkpoint(q, k))
  }

  /** What acceptance of `rt` on a CPU that holds `ts` amounts to. */
  ghost predicate Accepts(pf: Platform, ts: seq<Task>, rt: Task)
    requires Periodic(ts) && 0 < rt.period
  {
    rt.wcet == 0 ||
    forall q :: q in ts + [rt] ==> ChecksOut(pf, ts, rt, q, TestLength(pf, ts + [rt]))
  }

  // ---------------------------------------------------------------- the loops of the plugin

  method UtilCpu(pf: Platform, list: seq<Task>, cpu: nat) returns (u: nat)
    requires Periodic(OnCpu(list, cpu))
    ensures u == UtilSum(pf, OnCpu(list, cpu))
  {
    u := 0;
    assert list[..|list|] == list;
    for i := 0 to |list|
      invariant Periodic(OnCpu(list[..i], cpu))
      invariant u == UtilSum(pf, OnCpu(list[..i], cpu))
    {
      OnCpuStep(list, i, cpu);
      if list[i].cpu == cpu {
        u := u + Util(pf, list[i]);
      }
    }
  }

  /** The walk of `dbf_len` over the global list. */
  method DbfLenWalk(pf: Platform, list: seq<Task>, cpu: nat) returns (x: nat, u: nat, d: nat)
    requires Periodic(OnCpu(list, cpu))
    ensures x == SlackWord(pf, OnCpu(list, cpu))
    ensures u == UtilSum(pf, OnCpu(list, cpu))
    ensures d == MaxDeadline(OnCpu(list, cpu))
  {
    x, u, d := 0, 0, 0;
    assert list[..|list|] == list;
    for i := 0 to |list|
      invariant Periodic(OnCpu(list[..i], cpu))
      invariant x == SlackWord(pf, OnCpu(list[..i], cpu))
      invariant u == UtilSum(pf, OnCpu(list[..i], cpu))
      invariant d == MaxDeadline(OnCpu(list[..i], cpu))
    {
      OnCpuStep(list, i, cpu);
      var p := list[i];
      if p.cpu == cpu {
        TotalsStep(pf, OnCpu(list[..i], cpu), p);
        x, u := AddWord(x, WordSlack(pf, p)), u + Util(pf, p);
        d := if d > p.deadline then d else p.deadline;
      }
    }
  }

  method DbfLen(pf: Platform, list: seq<Task>, cpu: nat, rt: Task) returns (len: nat)
    requires Periodic(OnCpu(list, cpu)) && 0 < rt.period
    ensures len == TestLength(pf, OnCpu(list, cpu) + [rt])
  {
    var x, u, d := DbfLenWalk(pf, list, cpu);
    TotalsStep(pf, OnCpu(list, cpu), rt);
    d := if d > rt.deadline then d else rt.deadline;
    len := Length(AddWord(x, WordSlack(pf, rt)), u + Util(pf, rt), d);
  }

  method DbfCpu(pf: Platform, list: seq<Task>, cpu: nat, L: nat) returns (sum: nat)
    requires Periodic(OnCpu(list, cpu))
    ensures sum == DbfSum(pf, OnCpu(list, cpu), L)
  {
    sum := 0;
    assert list[..|list|] == list;
    for i := 0 to |list|
      invariant Periodic(OnCpu(list[..i], cpu))
      invariant sum == DbfSum(pf, OnCpu(list[..i], cpu), L)
    {
      OnCpuStep(list, i, cpu);
      if list[i].cpu == cpu {
        sum := sum + DbfTask(pf, list[i], L);
      }
    }
  }

  /** One inner loop of the test: the deadlines of `q`. */
  method DbfTestTask(pf: Platform, list: seq<Task>, cpu: nat, rt: Task, q: Task, Lmax: nat) returns (ok: bool)
    requires Periodic(OnCpu(list, cpu)) && 0 < rt.period && 0 < q.period
    ensures ok <==> ChecksOut(pf, OnCpu(list, cpu), rt, q, Lmax)
  {
    var ts := OnCpu(list, cpu);
    var L := q.deadline;
    ghost var k: nat := 0;
    while L <= Lmax
      invariant L == Checkpoint(q, k)
      invariant forall j: nat :: j < k ==> Fits(pf, ts, rt, Checkpoint(q, j))
      decreases Lmax - L
    {
      var sum := DbfCpu(pf, list, cpu, L);
      if sum + DbfTask(pf, rt, L) + Overhead(pf, ts, rt, L) > L {
        return false;
      }
      CheckpointOrder(q, k, k + 1);
      L := L + q.period;
      k := k + 1;
    }
    forall j: nat | k <= j ensures Lmax < Checkpoint(q, j) {
      CheckpointOrder(q, k, j);
    }
    ok := true;
  }

  method DbfTest(pf: Platform, list: seq<Task>, cpu: nat, rt: Task) returns (ok: bool)
    requires Periodic(OnCpu(list, cpu)) && 0 < rt.period
    ensures ok <==> Accepts(pf, OnCpu(list, cpu), rt)
  {
    if rt.wcet == 0 {
      return true;
    }
    var Lmax := DbfLen(pf, list, cpu, rt);
    var ts := OnCpu(list, cpu);
    for i := 0 to |list|
      invariant forall j :: 0 <= j < i && list[j].cpu == cpu ==> ChecksOut(pf, ts, rt, list[j], Lmax)
    {
      if list[i].cpu != cpu {
        continue;
      }
      assert list[i] in ts;
      ok := DbfTestTask(pf, list, cpu, rt, list[i], Lmax);
      if !ok {
        assert list[i] in ts + [rt];
        return;
      }
    }
    ok := DbfTestTask(pf, list, cpu, rt, rt, Lmax);
    assert rt in ts + [rt];
  }

  /** The mask allows the CPU, the test accepts, and the CPU is not full. */
  ghost predicate Eligible(pf: Platform, list: seq<Task>, rt: Task, allowed: set<nat>, c: nat) {
    && c < pf.cpus && c in allowed && Periodic(OnCpu(list, c)) && 0 < rt.period
    && Accepts(pf, OnCpu(list, c), rt) && UtilSum(pf, OnCpu(list, c)) < 100
  }

  /** The eligible CPU with the least utilization, the first such on ties; `pf.cpus` if there is none. */
  ghost predicate WorstFit(pf: Platform, list: seq<Task>, rt: Task, allowed: set<nat>, dst: nat) {
    && dst <= pf.cpus && (dst < pf.cpus ==> Eligible(pf, list, rt, allowed, dst))
    && forall c: nat :: Eligible(pf, list, rt, allowed, c) ==>
                          && dst < pf.cpus
                          && UtilSum(pf, OnCpu(list, dst)) <= UtilSum(pf, OnCpu(list, c))
                          && (c < dst ==> UtilSum(pf, OnCpu(list, dst)) < UtilSum(pf, OnCpu(list, c)))
  }

  method CpuWorstFit(pf: Platform, list: seq<Task>, rt: Task, allowed: set<nat>) returns (dst: nat)
    requires forall c: nat :: c < pf.cpus ==> Periodic(OnCpu(list, c))
    requires 0 < rt.period
    ensures WorstFit(pf, list, rt, allowed, dst)
  {
    dst := pf.cpus;
    var best := 100;
    for cpu := 0 to pf.cpus
      invariant dst == pf.cpus || dst < cpu
      invariant best <= 100 && (dst == pf.cpus ==> best == 100)
      invariant dst < pf.cpus ==> Eligible(pf, list, rt, allowed, dst) && UtilSum(pf, OnCpu(list, dst)) == best
      invariant forall c: nat :: c < cpu && Eligible(pf, list, rt, allowed, c) ==>
                                   best <= UtilSum(pf, OnCpu(list, c)) &&
                                   (c < dst < pf.cpus ==> best < UtilSum(pf, OnCpu(list, c)))
    {
      if cpu !in allowed {
        continue;
      }
      var ok := DbfTest(pf, list, cpu, rt);
      if ok {
        var u := UtilCpu(pf, list, cpu);
        if u < best {
          best, dst := u, cpu;
        }
      }
    }
  }

  function AddWord(x: nat, y: nat): nat { (x + y) % WORD }

  /** Accumulating words loses nothing that the last reduction would not. */
  lemma SlackInWords(pf: Platform, p: Task, x: nat, sum: int)
    requires 0 < p.period && x == sum % WORD
    ensures AddWord(x, WordSlack(pf, p)) == (sum + Slack(pf, p)) % WORD
  {
    var a, w := p.period - p.deadline, WordSub(p.period, p.deadline);
    MulInWords(a, w, if a < 0 then a / WORD else 0, Util(pf, p));
    AddInWords(sum, a * Util(pf, p), x, WordSlack(pf, p));
  }

  lemma MulInWords(a: int, w: nat, k: int, u: nat)
    requires a == k * WORD + w
    ensures w * u % WORD == a * u % WORD
  {
    assert a * u == (k * u) * WORD + w * u;
    SameWord(a * u, w * u, k * u);
  }

  lemma AddInWords(a: int, b: int, x: nat, y: nat)
    requires x == a % WORD && y == b % WORD
    ensures (x + y) % WORD == (a + b) % WORD
  {
  }

  lemma SameWord(x: int, y: int, k: int)
    ensures x == k * WORD + y ==> x % WORD == y % WORD
  {
  }

  lemma TotalsStep(pf: Platform, ts: seq<Task>, p: Task)
    requires Periodic(ts) && 0 < p.period
    ensures Periodic(ts + [p])
    ensures SlackSum(pf, ts + [p]) == SlackSum(pf, ts) + Slack(pf, p)
    ensures SlackWord(pf, ts + [p]) == AddWord(SlackWord(pf, ts), WordSlack(pf, p))
    ensures UtilSum(pf, ts + [p]) == UtilSum(pf, ts) + Util(pf, p)
    ensures MaxDeadline(ts + [p]) == if MaxDeadline(ts) > p.deadline then MaxDeadline(ts) else p.deadline
  {
    assert (ts + [p])[..|ts|] == ts;
    SlackInWords(pf, p, SlackWord(pf, ts), SlackSum(pf, ts));
  }

  lemma CheckpointOrder(q: Task, j: nat, k: nat)
    requires j <= k
    ensures Checkpoint(q, j) <= Checkpoint(q, k)
    ensures k == j + 1 ==> Checkpoint(q, k) == Checkpoint(q, j) + q.period
  {
    assert (k - j) * q.period == k * q.period - j * q.period;
  }

  lemma OnCpuStep(list: seq<Task>, i: nat, cpu: nat)
    requires i < |list|
    ensures OnCpu(list[..i + 1], cpu) ==
            if list[i].cpu == cpu then OnCpu(list[..i], cpu) + [list[i]] else OnCpu(list[..i], cpu)
    ensures Periodic(OnCpu(list, cpu)) ==> Periodic(OnCpu(list[..i + 1], cpu))
  {
    assert list[..i + 1][..i] == list[..i];
  }
}

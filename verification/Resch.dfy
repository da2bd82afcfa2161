/** Tasks, the platform and the scheduling overhead shared by the analysis plugins. */
module Resch {

  type Pos = n: nat | 0 < n witness 1

  /** The word size of `unsigned long`, needed where a subtraction can wrap. */
  const WORD: nat := 0x1_0000_0000_0000_0000

  /** Build and boot parameters: microseconds per jiffy, the number of CPUs, the
      measured costs in microseconds, and whether C stands for the WCET or the
      average runtime. */
  datatype Platform = Platform(
    tick: Pos, cpus: nat, switchCost: nat, releaseCost: nat, migrationCost: nat, hardRt: bool)

  /** A task descriptor. Execution times are in microseconds, period and deadline in jiffies. */
  datatype Task = Task(
    rid: nat, prio: int, cpu: nat, migratory: bool,
    wcet: nat, runtime: nat, period: nat, deadline: nat)

  /** The global list runs from the highest priority down. */
  function PrioKey(p: Task): int { -p.prio }

  /** The task once a plugin has found a CPU for it: it stays there. */
  function Assigned(p: Task, cpu: nat): Task {
    p.(cpu := cpu, migratory := false)
  }

  /** Unsigned subtraction. */
  function WordSub(x: nat, y: nat): (r: nat)
    ensures r >= x - y
    ensures x >= y ==> r == x - y
  {
    if x >= y then x - y else (x - y) % WORD
  }

  /** Unsigned multiplication. */
  function WordMul(x: nat, y: nat): nat { x * y % WORD }

  function CeilDiv(x: nat, y: Pos): (r: nat)
    ensures x <= r * y < x + y
  {
    if x % y == 0 then x / y else x / y + 1
  }

  /** The tasks of the global list that `task_is_on_cpu` selects, in list order. */
  function OnCpu(list: seq<Task>, cpu: nat): (r: seq<Task>)
    ensures forall p :: p in r <==> p in list && p.cpu == cpu
  {
    if list == [] then []
    else
      var front := OnCpu(list[..|list| - 1], cpu);
      var p := list[|list| - 1];
      assert list == list[..|list| - 1] + [p];
      if p.cpu == cpu then front + [p] else front
  }

  lemma OnCpuConcat(a: seq<Task>, b: seq<Task>, c: nat)
    ensures OnCpu(a + b, c) == OnCpu(a, c) + OnCpu(b, c)
  {
    if b == [] {
      assert a + b == a;
    } else {
      OnCpuConcat(a, b[..|b| - 1], c);
      assert (a + b)[..|a + b| - 1] == a + b[..|b| - 1];
    }
  }

  lemma OnCpuAround(a: seq<Task>, p: Task, b: seq<Task>, c: nat)
    ensures OnCpu(a + b, c) == OnCpu(a, c) + OnCpu(b, c)
    ensures p.cpu == c ==> OnCpu(a + [p] + b, c) == OnCpu(a, c) + [p] + OnCpu(b, c)
    ensures p.cpu != c ==> OnCpu(a + [p] + b, c) == OnCpu(a, c) + OnCpu(b, c)
  {
    OnCpuConcat(a, b, c);
    OnCpuConcat(a, [p], c);
    OnCpuConcat(a + [p], b, c);
    assert OnCpu([p], c) == if p.cpu == c then [p] else [];
  }

  ghost predicate Periodic(ts: seq<Task>) {
    forall p :: p in ts ==> 0 < p.period
  }

  /** Overhead charged to the jobs of one task in an interval. */
  function OverheadTask(pf: Platform, p: Task, interval: nat): nat
    requires 0 < p.period
  {
    var jobs := CeilDiv(interval, p.period * pf.tick);
    jobs * (pf.switchCost + pf.releaseCost) + if p.migratory then jobs * pf.migrationCost else 0
  }

  function OverheadTasks(pf: Platform, ts: seq<Task>, interval: nat): nat
    requires Periodic(ts)
  {
    if ts == [] then 0
    else OverheadTasks(pf, ts[..|ts| - 1], interval) + OverheadTask(pf, ts[|ts| - 1], interval)
  }

  /** Overhead of a CPU that holds the tasks `ts`: all their jobs plus the scheduler ticks. */
  function OverheadCpu(pf: Platform, ts: seq<Task>, interval: nat): nat
    requires Periodic(ts)
  {
    OverheadTasks(pf, ts, interval) + CeilDiv(interval, pf.tick) * pf.switchCost / 2
  }
}

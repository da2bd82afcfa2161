/** Splitting a task across CPUs, and the migrations of its jobs. */
module FpPmSplit {
  import opened Resch
  import opened SortedList
  import opened Interference
  import opened SplitCapacity
  import opened SplitShares
  import opened FpPm
  import Arith
  import FpFf

  ghost predicate Periods(list: seq<Task>, tbl: Table, cpus: nat) {
    forall c: nat :: c < cpus ==> PeriodicOn(list, tbl, c)
  }

  /** The products of the capacity formula fit a word for every task of the list. */
  ghost predicate Small(pf: Platform, list: seq<Task>, P: Pos) {
    P < WORD && forall lp :: lp in list ==> InRange(Micros(pf, lp.deadline), P)
  }

  /** What each CPU is given at most: nothing where it is not available. */
  ghost function Caps(pf: Platform, list: seq<Task>, tbl: Table, P: Pos, avail: seq<bool>): (caps: seq<nat>)
    requires Periods(list, tbl, |avail|)
    ensures |caps| == |avail|
  {
    if avail == [] then []
    else
      var n := |avail| - 1;
      Caps(pf, list, tbl, P, avail[..n]) + [if avail[n] then Spare(pf, list, tbl, P, n) else 0]
  }

  lemma {:induction false} CapsAt(pf: Platform, list: seq<Task>, tbl: Table, P: Pos, avail: seq<bool>, c: nat)
    requires Periods(list, tbl, |avail|) && c < |avail|
    ensures Caps(pf, list, tbl, P, avail)[c] == if avail[c] then Spare(pf, list, tbl, P, c) else 0
  {
    if c < |avail| - 1 {
      CapsAt(pf, list, tbl, P, avail[..|avail| - 1], c);
    }
  }

  lemma CapacityIsWord(R: nat, D: nat, P: Pos)
    requires R <= D && InRange(D, P)
    ensures Capacity(R, D, P) < WORD
  {
    Arith.MulMono(1, D / P + 1, D);
    QuotientBelow(D - R, D / P + 1);
  }

  ghost predicate Words(rooms: seq<int>) {
    forall i :: 0 <= i < |rooms| ==> -1 <= rooms[i] < WORD
  }

  lemma {:induction false} FoldIsWord(rooms: seq<int>, s: nat)
    requires s < WORD && Words(rooms)
    ensures Fold(rooms, s) < WORD
  {
    if rooms != [] && rooms[0] != -1 {
      FoldIsWord(rooms[1..], if s > rooms[0] || s == 0 then rooms[0] else s);
    }
  }

  lemma RoomIsWord(pf: Platform, list: seq<Task>, tbl: Table, lp: Task, P: Pos, cpu: nat)
    requires PeriodicOn(list, tbl, cpu) && 0 < lp.period && InRange(Micros(pf, lp.deadline), P)
    ensures Room(pf, list, tbl, lp, P, cpu) < WORD
  {
    var R, D := Response(pf, list, tbl, lp, cpu), Micros(pf, lp.deadline);
    if R <= D {
      CapacityIsWord(R, D, P);
    }
  }

  lemma {:induction false} RoomsAreWords(pf: Platform, list: seq<Task>, ts: seq<Task>, tbl: Table, P: Pos, cpu: nat)
    requires PeriodicOn(list, tbl, cpu) && PeriodicOn(ts, tbl, cpu) && Small(pf, ts, P)
    ensures Words(Rooms(pf, list, ts, tbl, P, cpu))
  {
    if ts != [] {
      SuffixPeriodic(ts, 1, tbl, cpu);
      RoomsAreWords(pf, list, ts[1..], tbl, P, cpu);
      if Present(tbl, ts[0], cpu) {
        RoomIsWord(pf, list, tbl, ts[0], P, cpu);
      }
    }
  }

  lemma CapsOffered(pf: Platform, list: seq<Task>, tbl: Table, P: Pos, avail: seq<bool>)
    requires Periods(list, tbl, |avail|) && Small(pf, list, P)
    ensures Offered(Caps(pf, list, tbl, P, avail), avail)
  {
    var caps := Caps(pf, list, tbl, P, avail);
    forall c: nat | c < |caps| ensures caps[c] < WORD && (avail[c] || caps[c] == 0) {
      CapsAt(pf, list, tbl, P, avail, c);
      RoomsAreWords(pf, list, list, tbl, P, c);
      FoldIsWord(Rooms(pf, list, list, tbl, P, c), 0);
    }
  }

  /** The least CPU below `i` with a positive capacity, or the number of CPUs. */
  function FirstGiven(caps: seq<nat>, i: nat): (f: nat)
    requires i <= |caps|
    ensures f == |caps| || (f < i && 0 < caps[f])
    ensures forall c :: 0 <= c < i && c < f ==> caps[c] == 0
  {
    if i == 0 then |caps|
    else
      var f := FirstGiven(caps, i - 1);
      if f == |caps| && caps[i - 1] > 0 then i - 1 else f
  }

  function Undefined(n: nat): Pieces { Pieces(n, n, Zeros(n)) }

  /** What `split` leaves behind when it stops at CPU `k` (or nowhere). */
  ghost predicate SplitInto(caps: seq<nat>, need: nat, k: nat, p: Pieces)
    requires k <= |caps|
  {
    if k == |caps| then p == Undefined(|caps|)
    else
      && need <= Carried(caps, k + 1) <= caps[k] + need
      && p == Pieces(FirstGiven(caps, k + 1), k, Shares(caps, need, k))
  }

  /** The split has passed the CPUs below `c` and needs more. */
  ghost predicate Progress(caps: seq<nat>, avail: seq<bool>, need: nat, c: nat, sum: nat, p: Pieces)
    requires |caps| == |avail|
  {
    && c <= |caps| && sum == Carried(caps, c)
    && p == Pieces(FirstGiven(caps, c), |caps|, caps[..c] + Zeros(|caps| - c))
    && forall i :: 0 <= i < c ==> !Reaches(caps, avail, need, i)
  }

  lemma ProgressSkips(caps: seq<nat>, avail: seq<bool>, need: nat, c: nat, sum: nat, p: Pieces)
    requires Offered(caps, avail) && Progress(caps, avail, need, c, sum, p) && c < |caps| && !avail[c]
    ensures Progress(caps, avail, need, c + 1, sum, p)
  {
    CarriedStep(caps, c);
  }

  lemma ProgressGives(caps: seq<nat>, avail: seq<bool>, need: nat, c: nat, sum: nat, p: Pieces, q: Pieces)
    requires Offered(caps, avail) && Progress(caps, avail, need, c, sum, p) && c < |caps| && avail[c] && need < WORD
    requires q == Pieces(if p.first == |caps| && caps[c] > 0 then c else p.first, p.last, p.runtime[c := caps[c]])
    ensures
      var now := (sum + caps[c]) % WORD;
      if now < need then Progress(caps, avail, need, c + 1, now, q)
      else
        && now <= caps[c] + need && StopsAt(caps, avail, need, c)
        && SplitInto(caps, need, c, q.(last := c, runtime := q.runtime[c := caps[c] - (now - need)]))
  {
    CarriedStep(caps, c);
    var now := (sum + caps[c]) % WORD;
    if now < need {
      assert q.runtime == caps[..c + 1] + Zeros(|caps| - c - 1);
    } else {
      AtLast(caps, avail, need, c);
      assert q.runtime[c := caps[c] - (now - need)] == Shares(caps, need, c);
    }
  }

  /** The record of a split task, updated in place. */
  class SplitTask {
    var first: nat
    var last: nat
    const runtime: array<nat>
    /** Where the job is, and whether a timer will send it on. */
    var cpu: nat
    var armed: bool
    ghost var visited: seq<nat>

    ghost function View(): Pieces
      reads this, runtime
    {
      Pieces(first, last, runtime[..])
    }

    constructor (cpus: nat)
      ensures View() == Undefined(cpus) && !armed && fresh(runtime)
    {
      first, last, runtime := cpus, cpus, new nat[cpus](i => 0);
      cpu, armed, visited := cpus, false, [];
    }

    /** `clear_split_task`. */
    method Clear()
      modifies this`first, this`last, runtime
      ensures View() == Undefined(runtime.Length)
    {
      first, last := runtime.Length, runtime.Length;
      for c := 0 to runtime.Length
        invariant first == last == runtime.Length
        invariant forall i :: 0 <= i < c ==> runtime[i] == 0
      {
        runtime[c] := 0;
      }
      assert runtime[..] == Zeros(runtime.Length);
    }

    /** `split`: give the available CPUs, in order, what they can take until it is enough. */
    method Split(pf: Platform, list: seq<Task>, tbl: Table, rt: Task, avail: array<bool>) returns (dst: nat)
      requires avail.Length == runtime.Length && View() == Undefined(runtime.Length)
      requires Sorted(list, PrioKey) && Periods(list, tbl, avail.Length) && 0 < rt.period
      requires Small(pf, list, Micros(pf, rt.period)) && FpFf.C(pf, rt) < WORD
      modifies this`first, this`last, runtime
      ensures dst == first
      ensures
        var caps := Caps(pf, list, tbl, Micros(pf, rt.period), avail[..]);
        StopsAt(caps, avail[..], FpFf.C(pf, rt), last) && SplitInto(caps, FpFf.C(pf, rt), last, View())
    {
      var n, need, P := runtime.Length, FpFf.C(pf, rt), Micros(pf, rt.period);
      ghost var caps := Caps(pf, list, tbl, P, avail[..]);
      CapsOffered(pf, list, tbl, P, avail[..]);
      assert runtime[..] == caps[..0] + Zeros(n);
      var sum: nat := 0;
      for c := 0 to n
        invariant Progress(caps, avail[..], need, c, sum, View())
      {
        if !avail[c] {
          ProgressSkips(caps, avail[..], need, c, sum, View());
          continue;
        }
        var spare := SpareOf(pf, list, tbl, P, c, avail);
        sum := Take(caps, avail[..], need, c, sum, spare);
        if sum >= need {
          return first;
        }
      }
      Clear();
      return first;
    }

    /** One available CPU gives its share; the last one gives the rest only. */
    method Take(ghost caps: seq<nat>, ghost avail: seq<bool>, need: nat, c: nat, sum: nat, spare: nat)
      returns (now: nat)
      requires |caps| == |avail| && Offered(caps, avail) && need < WORD
      requires c < runtime.Length == |caps| && avail[c] && caps[c] == spare
      requires Progress(caps, avail, need, c, sum, View())
      modifies this`first, this`last, runtime
      ensures now < need ==> Progress(caps, avail, need, c + 1, now, View())
      ensures need <= now ==> last == c && StopsAt(caps, avail, need, c) && SplitInto(caps, need, c, View())
    {
      ghost var was := View();
      Give(c, spare);
      ProgressGives(caps, avail, need, c, sum, was, View());
      now := (sum + spare) % WORD;
      if now >= need {
        runtime[c] := runtime[c] - (now - need);
        last := c;
      }
    }

    /** Record the share of a CPU. */
    method Give(c: nat, spare: nat)
      requires c < runtime.Length
      modifies this`first, runtime
      ensures runtime[..] == old(runtime[..])[c := spare]
      ensures first == if old(first) == runtime.Length && spare > 0 then c else old(first)
    {
      runtime[c] := spare;
      if first == runtime.Length && spare > 0 {
        first := c;
      }
    }

    // -------------------------------------------------------------- migrations of a job

    /** A job on its way: a timer is set unless this is the last station. */
    ghost predicate Walking()
      reads this, runtime
    {
      OnWay(first, last, runtime[..], cpu, visited) && (armed <==> cpu != last)
    }

    /** `job_start` on the first CPU. */
    method JobStart()
      requires WellPlaced(first, last, runtime[..]) && cpu == first
      modifies this`armed, this`visited
      ensures Walking() && visited == [first]
    {
      armed, visited := first != last, [cpu];
      Starts(first, last, runtime[..]);
    }

    /** The timer fires (`migration_timer`), and the thread of the next CPU takes the job over
        (`migration_thread`). */
    method TimerFires()
      requires Walking() && armed
      modifies this`cpu, this`armed, this`visited
      ensures Walking() && NextAfter(runtime[..], old(cpu), cpu) && visited == old(visited) + [cpu]
    {
      var d := FindNext(runtime, cpu);
      Moves(first, last, runtime[..], cpu, visited, d);
      armed := false;
      if d < runtime.Length {
        cpu, visited := d, visited + [d];
        if last != d {
          armed := true;
        }
      }
    }

    /** `job_complete`: the timer is cancelled and the task goes back for its next job. */
    method JobComplete()
      requires Walking()
      modifies this`cpu, this`armed
      ensures cpu == first && !armed
    {
      if first != last {
        armed := false;
        if cpu != first {
          cpu := first;
        }
      }
    }
  }

  method SpareOf(pf: Platform, list: seq<Task>, tbl: Table, P: Pos, c: nat, avail: array<bool>) returns (s: nat)
    requires Sorted(list, PrioKey) && Periods(list, tbl, avail.Length) && c < avail.Length && avail[c]
    ensures s == Caps(pf, list, tbl, P, avail[..])[c]
  {
    CapsAt(pf, list, tbl, P, avail[..], c);
    s := ComputeSpare(pf, list, tbl, P, c);
  }

  /** The subtraction at the last CPU stays within the capacity. */
  lemma AtLast(caps: seq<nat>, avail: seq<bool>, need: nat, k: nat)
    requires Offered(caps, avail) && need < WORD && k < |caps| && Reaches(caps, avail, need, k)
    requires forall i :: 0 <= i < k ==> !Reaches(caps, avail, need, i)
    ensures need <= Carried(caps, k + 1) <= caps[k] + need
  {
    if need > 0 {
      LastShare(caps, avail, need, k);
    } else {
      ZeroBefore(caps, avail, k, k);
      CarriedStep(caps, k);
    }
  }

  /** Nothing is needed: no CPU before the last one is available. */
  lemma {:induction false} ZeroBefore(caps: seq<nat>, avail: seq<bool>, k: nat, i: nat)
    requires Offered(caps, avail) && i <= k < |caps|
    requires forall j :: 0 <= j < k ==> !Reaches(caps, avail, 0, j)
    ensures Carried(caps, i) == 0
  {
    if i > 0 {
      ZeroBefore(caps, avail, k, i - 1);
      CarriedStep(caps, i - 1);
      assert !Reaches(caps, avail, 0, i - 1);
    }
  }
}

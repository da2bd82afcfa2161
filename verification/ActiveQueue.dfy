/** The active queue of a CPU: a bitmap over per-priority lists, updated in place, that
    always reads as one sequence from the highest priority down. */
module ActiveQueue {
  import opened SortedList
  import opened Entries
  import opened Options
  import opened BitScan
  import opened ActiveOrder
  import ActiveFifo
  import PrioFifo
  import Arith
  import Bits

  const MAX_RT_PRIO: nat := 100
  const PRIO_MAX: nat := MAX_RT_PRIO - 2

  /** Lists run from the highest priority down: the index reverses the priority. */
  function PrioIndex(prio: int): int { PRIO_MAX - prio }

  class PrioArray {
    const W: nat
    const wraps: bool
    const bitmap: array<nat>
    const queue: array<seq<Entry>>
    var nrTasks: int
    /** The priority each task was queued with. */
    ghost var prios: map<nat, int>

    ghost predicate Shape() {
      && 0 < W && queue.Length == PRIO_MAX && PRIO_MAX <= bitmap.Length * W
    }

    /** The lists, as a value. */
    ghost function Lists(): Queues
      reads queue
    {
      queue[..]
    }

    /** A bit is set exactly for the lists that are not empty. */
    ghost predicate BitmapOk()
      requires Shape()
      reads bitmap, queue
    {
      && Words(bitmap[..], W)
      && forall k: nat :: IsSet(bitmap[..], W, k) <==> k < PRIO_MAX && queue[..][k] != []
    }

    /** The bitmap matches the lists, the counter is the total, no task is queued twice, and every task
        stands in the list of its priority. */
    ghost predicate Valid()
      reads this, bitmap, queue
    {
      && Shape() && BitmapOk() && nrTasks == |Flat(Lists())| && Distinct(Flat(Lists()))
      && Placed(Lists(), prios, PRIO_MAX)
    }

    /** The queue as one sequence, with the priorities. */
    ghost function View(): ActiveFifo.Queue
      reads this, queue
    {
      ActiveFifo.Queue(Flat(Lists()), prios)
    }

    lemma ViewDescends()
      requires Valid()
      ensures ActiveFifo.Descending(View())
    {
      PlacedDescends(Lists(), prios, PRIO_MAX);
    }

    constructor (W: nat, wraps: bool)
      requires W == 32 || W == 64
      ensures Valid() && this.W == W && this.wraps == wraps && fresh(bitmap) && fresh(queue)
      ensures Flat(Lists()) == [] && View() == ActiveFifo.Queue([], map[])
    {
      this.W, this.wraps, nrTasks, prios := W, wraps, 0, map[];
      bitmap := new nat[if W == 64 then 2 else 4](i => 0);
      queue := new seq<Entry>[PRIO_MAX](i => []);
      new;
      FlatEmpty(queue[..]);
      ByPriorityIf(queue[..], prios, PRIO_MAX);
      forall k: nat ensures !IsSet(bitmap[..], W, k) {
        Bits.ZeroBit(k % W);
      }
      assert Bits.Pow2(W) > 0;
    }

    /** List `k` changes from empty or not to not empty. */
    method StoreNonempty(k: nat, q: seq<Entry>)
      requires Shape() && BitmapOk() && k < PRIO_MAX && q != []
      modifies bitmap, queue
      ensures BitmapOk() && Lists() == old(Lists())[k := q]
    {
      WordOf(k);
      SetBitSets(bitmap[..], W, k);
      queue[k] := q;
      bitmap[k / W] := Bits.Or(bitmap[k / W], Bits.Pow2(k % W));
      assert bitmap[..] == SetBit(old(bitmap[..]), W, k);
    }

    /** Clear the bit of list `k`. */
    method DropBit(k: nat)
      requires Shape() && k < PRIO_MAX && Words(bitmap[..], W)
      modifies bitmap
      ensures Words(bitmap[..], W)
      ensures forall j: nat :: IsSet(bitmap[..], W, j) <==> j != k && IsSet(old(bitmap[..]), W, j)
    {
      WordOf(k);
      ClearBitClears(bitmap[..], W, k);
      PowerBelow(k % W, W);
      bitmap[k / W] := Bits.And(bitmap[k / W], Not(Bits.Pow2(k % W), W));
      assert bitmap[..] == ClearBit(old(bitmap[..]), W, k);
    }

    /** List `k` shrinks, and its bit is cleared when it is empty. */
    method StoreShrunk(k: nat, q: seq<Entry>)
      requires Shape() && BitmapOk() && k < PRIO_MAX && queue[k] != []
      modifies bitmap, queue
      ensures BitmapOk() && Lists() == old(Lists())[k := q]
    {
      queue[k] := q;
      if q == [] {
        DropBit(k);
      }
    }

    lemma WordOf(k: nat)
      requires Shape() && k < PRIO_MAX
      ensures k / W < bitmap.Length
    {
      Arith.DivShift(k, W, bitmap.Length);
    }

    // -------------------------------------------------------------- enqueue and dequeue

    /** The fixed-priority class appends to the list of the priority. */
    method EnqueueFp(e: Entry, prio: int)
      requires Valid() && 0 <= PrioIndex(prio) < PRIO_MAX && !Queued(Lists(), e.tid)
      modifies this, bitmap, queue
      ensures Valid() && nrTasks == old(nrTasks) + 1
      ensures
        var k := PrioIndex(prio);
        Lists() == old(Lists())[k := old(Lists())[k] + [e]]
      ensures ActiveFifo.EnqueuedLast(old(View()), View(), e, prio)
      ensures PrioFifo.Step(old(ActiveFifo.ById(View())), PrioFifo.Enqueue(e.tid, prio), ActiveFifo.ById(View()))
    {
      NoPriority(e.tid);
      var k := PrioIndex(prio);
      AppendedAt(Lists(), prios, PRIO_MAX, k, e);
      StoreNonempty(k, queue[k] + [e]);
      nrTasks, prios := nrTasks + 1, prios[e.tid := prio];
      ActiveFifo.EnqueuedIsStep(old(View()), View(), e, prio);
    }

    lemma NoPriority(t: nat)
      requires Valid()
      ensures t in prios <==> Queued(Lists(), t)
    {
      if Queued(Lists(), t) {
        assert Flat(Lists())[Find(Flat(Lists()), t)] in Flat(Lists());
      }
    }

    /** The EDF class inserts by deadline into the list of the priority. */
    method EnqueueEdf(e: Entry, prio: int)
      requires Valid() && 0 <= PrioIndex(prio) < PRIO_MAX && !Queued(Lists(), e.tid)
      modifies this, bitmap, queue
      ensures Valid() && nrTasks == old(nrTasks) + 1
      ensures
        var k := PrioIndex(prio);
        Lists() == old(Lists())[k := Insert(old(Lists())[k], e, DeadlineOf)]
      ensures ActiveFifo.EnqueuedByDeadline(old(View()), View(), e, prio)
    {
      var k := PrioIndex(prio);
      var p := FindInsertPos(queue[k], e, DeadlineOf);
      InsertedAt(Lists(), prios, PRIO_MAX, k, e);
      StoreNonempty(k, queue[k][..p] + [e] + queue[k][p..]);
      nrTasks, prios := nrTasks + 1, prios[e.tid := prio];
    }

    /** Both classes unlink the task from the list of its priority. */
    method Dequeue(t: nat, prio: int)
      requires Valid() && 0 <= PrioIndex(prio) < PRIO_MAX && Listed(queue[PrioIndex(prio)], t)
      modifies this, bitmap, queue
      ensures Valid() && nrTasks == old(nrTasks) - 1 && !Queued(Lists(), t)
      ensures
        var k := PrioIndex(prio);
        Lists() == old(Lists())[k := RemoveAt(old(Lists())[k], Find(old(Lists())[k], t))]
      ensures ActiveFifo.Left(old(View()), View(), t)
      ensures PrioFifo.Step(old(ActiveFifo.ById(View())), PrioFifo.Dequeue(t), ActiveFifo.ById(View()))
    {
      var k := PrioIndex(prio);
      var p := Find(queue[k], t);
      ListedInFlat(Lists(), k, p);
      NoPriority(t);
      RemovedAt(Lists(), prios, PRIO_MAX, k, p);
      StoreShrunk(k, RemoveAt(queue[k], p));
      nrTasks, prios := nrTasks - 1, prios - {t};
      ActiveFifo.LeftIsStep(old(View()), View(), t);
    }

    /** Unlink the task and answer its entry. */
    method Take(t: nat, prio: int) returns (e: Entry)
      requires Valid() && 0 <= PrioIndex(prio) < PRIO_MAX && Listed(queue[PrioIndex(prio)], t)
      modifies this, bitmap, queue
      ensures Valid() && nrTasks == old(nrTasks) - 1 && !Queued(Lists(), t) && e.tid == t
      ensures
        var k := PrioIndex(prio);
        && old(Lists())[k][Find(old(Lists())[k], t)] == e
        && Lists() == old(Lists())[k := RemoveAt(old(Lists())[k], Find(old(Lists())[k], t))]
      ensures ActiveFifo.Left(old(View()), View(), t)
    {
      var k := PrioIndex(prio);
      e := queue[k][Find(queue[k], t)];
      Dequeue(t, prio);
    }

    // -------------------------------------------------------------- queries

    lemma ScanFinds(k: nat, r: int)
      requires Shape() && BitmapOk() && k <= PRIO_MAX
      ensures FirstFrom(bitmap[..], W, k, r) ==> FirstNonempty(Lists(), k, r)
    {
      if FirstFrom(bitmap[..], W, k, r) {
        forall i | k <= i < PRIO_MAX && (r == -1 || i < r) ensures queue[..][i] == [] {
          assert !IsSet(bitmap[..], W, i);
        }
      }
    }

    /** `active_highest_prio_task`: a task such that nobody of higher priority is queued, and the first of
        those of its priority. */
    method Highest() returns (r: Option<Entry>)
      requires Valid()
      ensures r == At(Flat(Lists()), 0)
      ensures r.None? ==> prios == map[]
      ensures r.Some? ==> r.value.tid in prios && forall t :: t in prios ==> prios[t] <= prios[r.value.tid]
    {
      HighestStands();
      var k := FindFirst(bitmap[..], W);
      ScanFinds(0, k);
      HeadFrom(Lists(), 0, k);
      assert Offset(Lists(), 0) == 0;
      if k < 0 {
        return None;
      }
      r := Some(queue[k][0]);
    }

    /** The head of the sequence has the highest priority. */
    lemma HighestStands()
      requires Valid()
      ensures Flat(Lists()) == [] ==> prios == map[]
      ensures
        var s := Flat(Lists());
        s != [] ==> s[0].tid in prios && forall t :: t in prios ==> prios[t] <= prios[s[0].tid]
    {
      ViewDescends();
      ActiveFifo.HeadIsHighest(View());
    }

    /** Where the task stands in the sequence. */
    ghost function Rank(t: nat, k: nat): nat
      requires k < queue.Length && Listed(queue[k], t)
      reads queue
    {
      Offset(queue[..], k) + Find(queue[k], t)
    }

    /** The scan for the list after list `k` starts at a word boundary on a machine that reduces
        shift counts. */
    predicate Misled(k: nat) {
      wraps && 0 < W <= k + 1 && (k + 1) % W == 0
    }

    /** `active_next_prio_task` of a queued task. The task after the last one of a list is found by
        a scan from the next index. When that index is misread, the scan starts a whole word
        too early and answers a task that is not behind this one. */
    method Next(t: nat, prio: int) returns (r: Option<Entry>)
      requires Valid() && 0 <= PrioIndex(prio) < PRIO_MAX && Listed(queue[PrioIndex(prio)], t)
      ensures
        var k := PrioIndex(prio);
        var misled := Misled(k) && Find(queue[k], t) == |queue[k]| - 1;
        && (r == At(Flat(Lists()), Rank(t, k) + 1) <==> !misled)
        && (misled ==> r == At(Flat(Lists()), Offset(Lists(), k + 1 - W)))
    {
      var k := PrioIndex(prio);
      var p := Find(queue[k], t);
      FlatAt(Lists(), k, p);
      if p + 1 < |queue[k]| {
        FlatAt(Lists(), k, p + 1);
        return Some(queue[k][p + 1]);
      }
      var j := FindNext(bitmap[..], W, k + 1, wraps);
      MisreadIff(k);
      NextOffset(Lists(), k);
      if Misled(k) {
        OffsetMono(Lists(), j, k);
        assert IsSet(bitmap[..], W, j);
        Elsewhere(j, 0, Rank(t, k) + 1);
        ScanFinds(k + 1 - W, j);
        HeadFrom(Lists(), k + 1 - W, j);
      } else {
        ScanFinds(k + 1, j);
        HeadFrom(Lists(), k + 1, j);
      }
      if j < 0 {
        return None;
      }
      assert IsSet(bitmap[..], W, j);
      r := Some(queue[j][0]);
    }

    /** The word that ends with bit `k`. */
    lemma EndOfWord(k: nat) returns (i: nat)
      requires 0 < W <= k + 1 && (k + 1) % W == 0
      ensures i * W + W == k + 1
    {
      i := (k + 1) / W - 1;
      assert k + 1 == (k + 1) / W * W;
      assert i * W + W == (i + 1) * W;
    }

    /** A list that is not empty makes the word that ends with its bit nonzero. */
    lemma MisreadIff(k: nat)
      requires Shape() && BitmapOk() && k < PRIO_MAX && queue[k] != []
      ensures Misread(bitmap[..], W, k + 1, wraps) <==> Misled(k)
    {
      if Misled(k) {
        var i := EndOfWord(k);
        WordOf(k);
        Position(W, i, W - 1);
        assert queue[..][k] != [] && IsSet(bitmap[..], W, k);
        NonzeroBit(bitmap[i], W - 1);
        assert MisreadAt(bitmap[..], W, k + 1, wraps, i);
      }
      if Misread(bitmap[..], W, k + 1, wraps) {
        var i :| 0 <= i < bitmap.Length && MisreadAt(bitmap[..], W, k + 1, wraps, i);
        assert (i + 1) * W == i * W + W;
        Position(W, i + 1, 0);
      }
    }

    /** An entry stands at one place only. */
    lemma Elsewhere(j: nat, p: nat, n: int)
      requires Valid() && j < PRIO_MAX && p < |queue[j]| && Offset(Lists(), j) + p != n
      ensures At(Flat(Lists()), n) != Some(queue[j][p])
    {
      FlatAt(Lists(), j, p);
    }

    /** `active_prev_prio_task` of a queued task. */
    method Previous(t: nat, prio: int) returns (r: Option<Entry>)
      requires Valid() && 0 <= PrioIndex(prio) < PRIO_MAX && Listed(queue[PrioIndex(prio)], t)
      ensures r == At(Flat(Lists()), Rank(t, PrioIndex(prio)) - 1)
    {
      var k := PrioIndex(prio);
      var p := Find(queue[k], t);
      if p > 0 {
        FlatAt(Lists(), k, p - 1);
        return Some(queue[k][p - 1]);
      }
      var j := FindPrevious(bitmap[..], W, k - 1);
      assert LastNonempty(Lists(), k - 1, j) by {
        forall i | 0 <= i < PRIO_MAX && j < i <= k - 1 ensures queue[..][i] == [] {
          assert !IsSet(bitmap[..], W, i);
        }
      }
      ActiveOrder.LastUpTo(Lists(), k - 1, j);
      if j < 0 {
        return None;
      }
      r := Some(queue[j][|queue[j]| - 1]);
    }

    /** Some list before the `num`-th task is not empty and ends a word that will be read again. */
    ghost predicate Cycles(num: int)
      requires Shape()
      reads queue
    {
      exists k :: 0 <= k < PRIO_MAX && Repeats(k, num)
    }

    ghost predicate Repeats(k: nat, num: int)
      requires Shape() && k < PRIO_MAX
      reads queue
    {
      Misled(k) && queue[k] != [] && Offset(Lists(), k + 1) < num
    }

    /** `active_number_task`: the `num`-th task from the highest priority down, counted from one.
        Once the scan reaches a boundary that is misread it cycles below it and answers a task
        that stands earlier. */
    method Number(num: int) returns (r: Option<Entry>)
      requires Valid()
      ensures r == At(Flat(Lists()), num - 1) <==> !Cycles(num)
    {
      var i, k := 0, 0;
      ghost var bound := -1;
      while i < num
        invariant 0 <= i && 0 <= k <= PRIO_MAX && (i < num || num <= 0)
        invariant Scanning(num, i, k, bound)
        decreases num - i
      {
        var j := FindNext(bitmap[..], W, k, wraps);
        bound := Scanned(num, i, k, bound, j);
        if j < 0 {
          return None;
        }
        if num - i <= |queue[j]| {
          return Some(queue[j][num - i - 1]);
        }
        i, k := i + |queue[j]|, j + 1;
      }
      r := None;
    }

    /** The scan has passed `i` tasks and goes on from list `k`; once it has met a list that
        repeats (`bound`), it stays below. */
    ghost predicate Scanning(num: int, i: nat, k: nat, bound: int)
      requires Shape()
      reads queue
    {
      && k <= PRIO_MAX && (k > 0 ==> queue[k - 1] != [])
      && (bound == -1 ==> i == Offset(Lists(), k) && forall c :: 0 <= c < k - 1 ==> !Repeats(c, num))
      && (bound != -1 ==> k - 1 <= bound < PRIO_MAX && 0 <= bound && Repeats(bound, num))
    }

    lemma Scanned(num: int, i: nat, k: nat, bound: int, j: int) returns (b: int)
      requires Valid() && Scanning(num, i, k, bound) && i < num && (j == -1 || (0 <= j && IsSet(bitmap[..], W, j)))
      requires FirstFrom(bitmap[..], W, k, j) <==> !Misread(bitmap[..], W, k, wraps)
      requires Misread(bitmap[..], W, k, wraps) ==> 0 <= j < k
      ensures j == -1 ==> At(Flat(Lists()), num - 1) == None && !Cycles(num)
      ensures j != -1 ==>
                && 0 <= j < PRIO_MAX && queue[j] != []
                && (num - i <= |queue[j]| ==>
                      (Some(queue[j][num - i - 1]) == At(Flat(Lists()), num - 1) <==> !Cycles(num)))
                && (num - i > |queue[j]| ==> Scanning(num, i + |queue[j]|, j + 1, b))
    {
      b := bound;
      if k > 0 {
        MisreadIff(k - 1);
        if b == -1 && Misled(k - 1) {
          b := k - 1;
        }
      }
      if b == -1 {
        Onward(num, i, k, j);
      } else {
        Held(num, i, k, j, b);
      }
    }

    /** No boundary was misread yet: the scan counts the tasks in order. */
    lemma Onward(num: int, i: nat, k: nat, j: int)
      requires Valid() && Scanning(num, i, k, -1) && i < num && (k > 0 ==> !Misled(k - 1))
      requires FirstFrom(bitmap[..], W, k, j)
      ensures j == -1 ==> At(Flat(Lists()), num - 1) == None && !Cycles(num)
      ensures j != -1 ==>
                && 0 <= j < PRIO_MAX && queue[j] != []
                && (num - i <= |queue[j]| ==> Some(queue[j][num - i - 1]) == At(Flat(Lists()), num - 1) && !Cycles(num))
                && (num - i > |queue[j]| ==> Scanning(num, i + |queue[j]|, j + 1, -1))
    {
      ScanFinds(k, j);
      if j == -1 {
        HeadFrom(Lists(), k, j);
        AtMono(Flat(Lists()), i, num - 1);
      } else {
        SkipEmpty(Lists(), k, j);
        assert queue[..][j] != [];
        if num - i <= |queue[j]| {
          NextOffset(Lists(), j);
          FlatAt(Lists(), j, num - i - 1);
          NotBefore(j, num);
        } else {
          Passes(num, i, k, j);
        }
      }
    }

    lemma Passes(num: int, i: nat, k: nat, j: nat)
      requires Valid() && Scanning(num, i, k, -1) && (k > 0 ==> !Misled(k - 1))
      requires k <= j < PRIO_MAX && queue[j] != [] && Offset(Lists(), j) == i
      requires forall c :: k <= c < j ==> queue[..][c] == []
      ensures Scanning(num, i + |queue[j]|, j + 1, -1)
    {
      NextOffset(Lists(), j);
      forall c | 0 <= c < j ensures !Repeats(c, num) {
        assert k <= c ==> queue[..][c] == [];
      }
    }

    /** A list below a boundary that is misread does not hold the `num`-th task. */
    lemma Held(num: int, i: nat, k: nat, j: int, bound: nat)
      requires Valid() && i < num && k - 1 <= bound < PRIO_MAX && Repeats(bound, num)
      requires j == -1 || (0 <= j && IsSet(bitmap[..], W, j))
      requires FirstFrom(bitmap[..], W, k, j) <==> !Misread(bitmap[..], W, k, wraps)
      requires Misread(bitmap[..], W, k, wraps) ==> 0 <= j < k
      ensures 0 <= j <= bound && queue[j] != [] && Cycles(num)
      ensures num - i <= |queue[j]| ==> Some(queue[j][num - i - 1]) != At(Flat(Lists()), num - 1)
    {
      Below(k, j, bound);
      assert queue[..][j] != [];
      if num - i <= |queue[j]| {
        NextOffset(Lists(), j);
        OffsetMono(Lists(), j + 1, bound + 1);
        Elsewhere(j, num - i - 1, num - 1);
      }
    }

    /** Below a boundary that is misread the scan never gets past it. */
    lemma Below(k: nat, j: int, bound: nat)
      requires Shape() && BitmapOk() && k - 1 <= bound < PRIO_MAX && Misled(bound) && queue[bound] != []
      requires FirstFrom(bitmap[..], W, k, j) <==> !Misread(bitmap[..], W, k, wraps)
      requires Misread(bitmap[..], W, k, wraps) ==> 0 <= j < k
      ensures 0 <= j <= bound
    {
      if k == bound + 1 {
        MisreadIff(bound);
      } else {
        assert queue[..][bound] != [] && IsSet(bitmap[..], W, bound);
      }
    }

    /** A list at or after the one that holds the `num`-th task ends too late to be repeated. */
    lemma NotBefore(j: nat, num: int)
      requires Shape() && j < PRIO_MAX && num <= Offset(Lists(), j + 1)
      ensures forall c :: j <= c < PRIO_MAX ==> !Repeats(c, num)
    {
      forall c | j <= c < PRIO_MAX ensures !Repeats(c, num) {
        OffsetMono(Lists(), j + 1, c + 1);
      }
    }
  }

  /** Past a place with no entry there is none. */
  lemma AtMono(s: seq<Entry>, i: int, j: int)
    requires 0 <= i <= j
    ensures At(s, i) == None ==> At(s, j) == None
  {
  }

  /** The queue part of `fp_migrate_task`: an active task moves to the tail of the list of the same
      priority on the other CPU, and is then queued there only. */
  method Migrate(src: PrioArray, dst: PrioArray, t: nat, prio: int) returns (e: Entry)
    requires src.Valid() && dst.Valid() && src != dst && src.bitmap != dst.bitmap && src.queue != dst.queue
    requires 0 <= PrioIndex(prio) < PRIO_MAX && Listed(src.Lists()[PrioIndex(prio)], t)
    requires !Queued(dst.Lists(), t)
    modifies src, src.bitmap, src.queue, dst, dst.bitmap, dst.queue
    ensures src.Valid() && dst.Valid() && e.tid == t
    ensures !Queued(src.Lists(), t) && Queued(dst.Lists(), t)
    ensures src.nrTasks + dst.nrTasks == old(src.nrTasks + dst.nrTasks)
    ensures
      var k := PrioIndex(prio);
      && old(src.Lists())[k][Find(old(src.Lists())[k], t)] == e
      && src.Lists() == old(src.Lists())[k := RemoveAt(old(src.Lists())[k], Find(old(src.Lists())[k], t))]
      && dst.Lists() == old(dst.Lists())[k := old(dst.Lists())[k] + [e]]
    ensures ActiveFifo.Left(old(src.View()), src.View(), t)
    ensures ActiveFifo.EnqueuedLast(old(dst.View()), dst.View(), e, prio)
  {
    e := src.Take(t, prio);
    dst.EnqueueFp(e, prio);
    FlatAt(dst.Lists(), PrioIndex(prio), |dst.queue[PrioIndex(prio)]| - 1);
  }
}

/** The plugin as the kernel runs it: each critical section updates the lists, the busy
    flags and the task CPUs in place, and refines one operation of the state machine. */
module GlobalEdfPlugin {
  import opened SortedList
  import opened Entries
  import opened GlobalEdf

  class Plugin {
    var runList: seq<Entry>
    var waitList: seq<Entry>
    const cpuRun: array<bool>
    var cpuId: seq<nat>

    ghost function State(): GlobalEdf.State
      reads this, cpuRun
    {
      GlobalEdf.State(runList, waitList, cpuRun[..], cpuId)
    }

    constructor (cpus: nat, tasks: nat)
      requires 0 < cpus
      ensures fresh(cpuRun)
      ensures State() == GlobalEdf.State([], [], seq(cpus, i => false), seq(tasks, i => 0)) && Inv(State())
    {
      runList, waitList := [], [];
      cpuId := seq(tasks, i => 0);
      cpuRun := new bool[cpus](i => false);
      new;
      assert cpuRun[..] == seq(cpus, i => false);
    }

    method RunListInsert(e: Entry)
      modifies this`runList
      ensures runList == if Listed(old(runList), e.tid) then old(runList) else Insert(old(runList), e, DeadlineOf)
    {
      if !Listed(runList, e.tid) {
        var p := FindInsertPos(runList, e, DeadlineOf);
        runList := runList[..p] + [e] + runList[p..];
      }
    }

    method WaitListInsert(e: Entry)
      modifies this`waitList
      ensures waitList == if Listed(old(waitList), e.tid) then old(waitList) else Insert(old(waitList), e, DeadlineOf)
    {
      if !Listed(waitList, e.tid) {
        var p := FindInsertPos(waitList, e, DeadlineOf);
        waitList := waitList[..p] + [e] + waitList[p..];
      }
    }

    /** The first CPU that is not busy. */
    method FindFree() returns (c: nat)
      ensures c == FirstFree(cpuRun[..])
    {
      c := 0;
      while c < cpuRun.Length && cpuRun[c]
        invariant c <= cpuRun.Length
        invariant FirstFree(cpuRun[..]) == c + FirstFree(cpuRun[c..])
      {
        c := c + 1;
      }
    }

    /** The section after the label `run`: the job of `t` takes CPU `c`. */
    method RunOn(t: nat, d: nat, c: nat)
      requires t < |cpuId| && c < cpuRun.Length && !Listed(runList, t)
      modifies this`runList, this`cpuId, cpuRun
      ensures State() == Place(old(State()), Entry(t, d), c)
    {
      cpuRun[c] := true;
      RunListInsert(Entry(t, d));
      cpuId := cpuId[t := c];
    }

    /** The locked section of a job start. */
    method StartSection(t: nat, d: nat)
      requires Shape(State()) && t < |cpuId| && !Listed(runList, t) && !Listed(waitList, t)
      requires runList != [] ==> !Listed(waitList, runList[|runList| - 1].tid)
      modifies this`runList, this`waitList, this`cpuId, cpuRun
      ensures State() == GlobalEdf.JobStart(old(State()), t, d)
    {
      if !cpuRun[cpuId[t]] {
        RunOn(t, d, cpuId[t]);
        return;
      }
      var free := FindFree();
      if free < cpuRun.Length {
        RunOn(t, d, free);
      } else if runList != [] && runList[|runList| - 1].deadline > d {
        PreemptLast(t, d);
      } else {
        WaitListInsert(Entry(t, d));
      }
    }

    /** The last running job goes back to waiting and hands its CPU to task `t`. */
    method PreemptLast(t: nat, d: nat)
      requires Shape(State()) && t < |cpuId| && runList != []
      requires !Listed(runList, t) && !Listed(waitList, runList[|runList| - 1].tid)
      modifies this`runList, this`waitList, this`cpuId, cpuRun
      ensures
        var s := old(State());
        var p := s.run[|s.run| - 1];
        var left := s.(run := s.run[..|s.run| - 1], wait := Insert(s.wait, p, DeadlineOf));
        State() == Place(left, Entry(t, d), s.cpu[p.tid])
    {
      var p := runList[|runList| - 1];
      StillNotListed(runList, |runList| - 1, t);
      assert runList[..|runList| - 1] == RemoveAt(runList, |runList| - 1);
      runList := runList[..|runList| - 1];
      WaitListInsert(p);
      RunOn(t, d, cpuId[p.tid]);
    }

    /** A job of task `t` with absolute deadline `d` starts. */
    method JobStart(t: nat, d: nat)
      requires Inv(State()) && t < |cpuId| && !Listed(runList, t) && !Listed(waitList, t)
      modifies this`runList, this`waitList, this`cpuId, cpuRun
      ensures State() == GlobalEdf.JobStart(old(State()), t, d) && Inv(State())
    {
      JobStartKeepsInv(State(), t, d);
      assert runList != [] ==> !Listed(waitList, runList[|runList| - 1].tid) by {
        if runList != [] {
          NotBoth(State(), runList[|runList| - 1]);
        }
      }
      StartSection(t, d);
    }

    method RemoveJob(t: nat)
      requires Shape(State())
      modifies this`runList, this`waitList
      ensures State() == Removed(old(State()), t)
    {
      if Listed(waitList, t) {
        waitList := RemoveAt(waitList, Find(waitList, t));
      } else if Listed(runList, t) {
        runList := RemoveAt(runList, Find(runList, t));
      }
    }

    method HandOver(t: nat)
      requires Shape(State()) && t < |cpuId| && (waitList != [] ==> !Listed(runList, waitList[0].tid))
      modifies this`runList, this`waitList, this`cpuId, cpuRun
      ensures State() == Handover(old(State()), t)
    {
      if waitList == [] {
        cpuRun[cpuId[t]] := false;
      } else {
        var next := waitList[0];
        waitList := waitList[1..];
        RunListInsert(next);
        cpuId := cpuId[next.tid := cpuId[t]];
      }
    }

    /** The running job of task `t` completes. */
    method JobComplete(t: nat)
      requires Inv(State()) && t < |cpuId| && Listed(runList, t)
      modifies this`runList, this`waitList, this`cpuId, cpuRun
      ensures State() == GlobalEdf.JobComplete(old(State()), t) && Inv(State())
    {
      JobCompleteKeepsInv(State(), t);
      NextIsNew(State(), t);
      RemoveJob(t);
      HandOver(t);
    }
  }

  lemma EntryOf(es: seq<Entry>, t: nat) returns (e: Entry)
    requires Listed(es, t)
    ensures e in es && e.tid == t
  {
    e := es[Find(es, t)];
  }

  lemma NotBoth(s: GlobalEdf.State, p: Entry)
    requires Inv(s) && p in s.run
    ensures !Listed(s.wait, p.tid) && p.tid < |s.cpu| && s.cpu[p.tid] < |s.busy|
  {
    if Listed(s.wait, p.tid) {
      var w := EntryOf(s.wait, p.tid);
    }
  }

  lemma WaitsOnly(s: GlobalEdf.State, w: Entry)
    requires Inv(s) && w in s.wait
    ensures !Listed(s.run, w.tid)
  {
    if Listed(s.run, w.tid) {
      var r := EntryOf(s.run, w.tid);
    }
  }

  /** Whoever waits first, once the job of `t` has left, is not on the run list. */
  lemma NextIsNew(s: GlobalEdf.State, t: nat)
    requires Inv(s)
    ensures var r := Removed(s, t); r.wait != [] ==> !Listed(r.run, r.wait[0].tid)
  {
    var r := Removed(s, t);
    if r.wait != [] {
      RemovedMembers(s, t);
      assert r.wait[0] in r.wait && r.wait[0] in s.wait;
      WaitsOnly(s, r.wait[0]);
      forall i | 0 <= i < |r.run| ensures r.run[i].tid != r.wait[0].tid {
        assert r.run[i] in r.run && r.run[i] in s.run;
        NotListed(s.run, r.wait[0].tid);
      }
    }
  }

  lemma StillNotListed(es: seq<Entry>, k: nat, t: nat)
    requires k < |es| && !Listed(es, t)
    ensures !Listed(RemoveAt(es, k), t)
  {
    forall i | 0 <= i < |es| - 1 ensures RemoveAt(es, k)[i].tid != t {
      assert es[if i < k then i else i + 1].tid != t;
    }
  }
}

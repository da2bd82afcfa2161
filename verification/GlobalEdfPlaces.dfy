/** Which CPU a global EDF job gets, and who has to give way. */
module GlobalEdfPlaces {
  import opened SortedList
  import opened Entries
  import opened GlobalEdf

  /** Nobody but task `t` changes its CPU. */
  ghost predicate OthersStay(s: State, r: State, t: nat) {
    |r.cpu| == |s.cpu| && forall x :: 0 <= x < |s.cpu| && x != t ==> r.cpu[x] == s.cpu[x]
  }

  /** The job runs beside all those that ran, and nobody starts or stops waiting. */
  ghost predicate Joins(s: State, r: State, e: Entry) {
    r.wait == s.wait && forall x :: x in r.run <==> x == e || x in s.run
  }

  /** The job runs in place of `p`, which waits. */
  ghost predicate Displaces(s: State, r: State, e: Entry, p: Entry) {
    && (forall x :: x in r.run <==> x == e || (x in s.run && x != p))
    && (forall x :: x in r.wait <==> x == p || x in s.wait)
  }

  /** A started job stays on its CPU if that is idle, else it takes the first idle one. If there is none it
      takes the CPU of a job with the latest deadline of all running, if that is later than its own; that job
      waits. Otherwise it waits itself, and nothing else changes. */
  lemma StartPlaces(s: State, t: nat, d: nat)
    requires Inv(s) && t < |s.cpu| && !Listed(s.run, t) && !Listed(s.wait, t)
    ensures
      var r, e := JobStart(s, t, d), Entry(t, d);
      && OthersStay(s, r, t)
      && (!s.busy[s.cpu[t]] ==> Joins(s, r, e) && r.cpu[t] == s.cpu[t])
      && (s.busy[s.cpu[t]] && !AllBusy(s.busy) ==>
            Joins(s, r, e) && r.cpu[t] < |s.busy| && !s.busy[r.cpu[t]] && forall c :: 0 <= c < r.cpu[t] ==> s.busy[c])
      && (AllBusy(s.busy) && (exists x :: x in s.run && d < x.deadline) ==>
            exists p :: p in s.run && Displaces(s, r, e, p) && d < p.deadline && r.cpu[t] == s.cpu[p.tid] &&
                        forall x :: x in s.run ==> x.deadline <= p.deadline)
      && (AllBusy(s.busy) && (forall x :: x in s.run ==> x.deadline <= d) ==>
            r.run == s.run && r.cpu == s.cpu && forall x :: x in r.wait <==> x == e || x in s.wait)
  {
    var e := Entry(t, d);
    forall x
      ensures x in Insert(s.run, e, DeadlineOf) <==> x == e || x in s.run
      ensures x in Insert(s.wait, e, DeadlineOf) <==> x == e || x in s.wait
    {
      InsertMember(s.run, e, x);
      InsertMember(s.wait, e, x);
    }
    if AllBusy(s.busy) {
      assert FirstFree(s.busy) == |s.busy|;
      AllBusyRuns(s);
      var p := s.run[|s.run| - 1];
      assert p in s.run;
      if d < p.deadline {
        LastDisplaced(s, e, p);
      }
    } else {
      assert FirstFree(s.busy) < |s.busy|;
    }
  }

  lemma LastDisplaced(s: State, e: Entry, p: Entry)
    requires Inv(s) && e.tid < |s.cpu| && s.run != [] && p == s.run[|s.run| - 1] && AllBusy(s.busy)
    requires e.deadline < p.deadline && s.busy[s.cpu[e.tid]]
    ensures Displaces(s, JobStart(s, e.tid, e.deadline), e, p)
    ensures OthersStay(s, JobStart(s, e.tid, e.deadline), e.tid)
    ensures JobStart(s, e.tid, e.deadline).cpu[e.tid] == s.cpu[p.tid]
  {
    var front := s.run[..|s.run| - 1];
    LastNotBefore(s.run);
    assert s.run == front + [p];
    forall x ensures x in JobStart(s, e.tid, e.deadline).run <==> x == e || (x in s.run && x != p) {
      InsertMember(front, e, x);
    }
    forall x ensures x in JobStart(s, e.tid, e.deadline).wait <==> x == p || x in s.wait {
      InsertMember(s.wait, p, x);
    }
  }

  /** The earliest waiting job takes over exactly the CPU of the job that completes; with none waiting that CPU
      is idle. Everybody else stays where it is. */
  lemma CompletePlaces(s: State, t: nat)
    requires Inv(s) && t < |s.cpu| && Listed(s.run, t)
    ensures
      var r := JobComplete(s, t);
      && (s.wait == [] ==>
            r.cpu == s.cpu && r.wait == [] && !r.busy[s.cpu[t]] && forall x :: x in r.run <==> x in s.run && x.tid != t)
      && (s.wait != [] ==>
            var next := s.wait[0];
            && next.tid < |s.cpu| && OthersStay(s, r, next.tid) && r.cpu[next.tid] == s.cpu[t]
            && (forall x :: x in s.wait ==> next.deadline <= x.deadline)
            && r.wait == s.wait[1..]
            && forall x :: x in r.run <==> x == next || (x in s.run && x.tid != t))
  {
    RunningOnly(s, t);
    var k := Find(s.run, t);
    RemoveList(s.run, k);
    forall x | x in s.run && x.tid == t ensures x == s.run[k] {
      OneJob(s, t, x);
    }
    if s.wait != [] {
      var next := s.wait[0];
      var left := RemoveAt(s.run, k);
      forall x ensures x in Insert(left, next, DeadlineOf) <==> x == next || x in left {
        InsertMember(left, next, x);
      }
      HeadList(s.wait);
      assert s.wait == [next] + s.wait[1..];
    }
  }
}

/** The closed-form interference bound that FP-FF and FP-PM use. */
module Interference {
  import opened Resch
  import opened Arith

  /** Execution of a task with execution time `c` and period `p` in the worst interval of length `L`. */
  function Interf(c: nat, p: Pos, L: nat): nat {
    var F := L / p;
    InterfWith(c, p, L, F)
  }

  /** The two branches, for the quotient `F` of `L` by `p`. */
  function InterfWith(c: nat, p: Pos, L: nat, F: nat): nat
    requires F == L / p
  {
    DivBounds(L, p);
    assert F * (p - c) == F * p - F * c;
    if L >= p * F + c then c * (F + 1) else L - F * (p - c)
  }

  /** Instants before `L` at which a job released every period from 0 runs at once. */
  ghost function BusyInstants(c: nat, p: Pos, L: nat): nat {
    if L == 0 then 0 else BusyInstants(c, p, L - 1) + if (L - 1) % p < c then 1 else 0
  }

  /** Shape of the bound inside one period. */
  lemma Shape(c: nat, p: Pos, L: nat)
    ensures
      var F, x := L / p, L % p;
      Interf(c, p, L) == F * c + Min(c, x)
  {
    var F, x := L / p, L % p;
    DivBounds(L, p);
    assert L == F * p + x && p * F == F * p;
    assert F * (p - c) == F * p - F * c;
    assert c * (F + 1) == F * c + c;
  }

  lemma ModStep(L: nat, p: Pos)
    requires 0 < L
    ensures L % p == if (L - 1) % p == p - 1 then 0 else (L - 1) % p + 1
    ensures L / p == if (L - 1) % p == p - 1 then (L - 1) / p + 1 else (L - 1) / p
  {
    var F, x := (L - 1) / p, (L - 1) % p;
    DivBounds(L - 1, p);
    assert L - 1 == F * p + x;
    if x == p - 1 {
      assert L == (F + 1) * p;
      DivUnique(L, p, F + 1);
    } else {
      DivUnique(L, p, F);
    }
  }

  /** One more instant. */
  lemma OneStep(c: nat, p: Pos, L: nat)
    requires 0 < L
    ensures Interf(c, p, L - 1) <= Interf(c, p, L)
    ensures c <= p ==> Interf(c, p, L) == Interf(c, p, L - 1) + if (L - 1) % p < c then 1 else 0
  {
    Shape(c, p, L);
    Shape(c, p, L - 1);
    ModStep(L, p);
    Succ((L - 1) / p, c);
  }

  lemma Succ(F: int, c: int)
    ensures (F + 1) * c == F * c + c
  {
  }

  /** The closed form counts the busy instants. */
  lemma {:induction false} CountsBusyInstants(c: nat, p: Pos, L: nat)
    requires c <= p
    ensures Interf(c, p, L) == BusyInstants(c, p, L)
  {
    if L > 0 {
      CountsBusyInstants(c, p, L - 1);
      OneStep(c, p, L);
    } else {
      Shape(c, p, 0);
      DivUnique(0, p, 0);
    }
  }

  lemma {:induction false} Monotone(c: nat, p: Pos, L: nat, M: nat)
    requires L <= M
    ensures Interf(c, p, L) <= Interf(c, p, M)
  {
    if L < M {
      Monotone(c, p, L, M - 1);
      OneStep(c, p, M);
    }
  }

  lemma OnePeriod(L: nat, p: Pos)
    requires p <= L
    ensures (L - p) / p == L / p - 1 && (L - p) % p == L % p
  {
    DivShift(L, p, 1);
    var F := L / p;
    Succ(F - 1, p);
    assert L == F * p + L % p && L - p == (F - 1) * p + (L - p) % p;
  }

  /** The first job and whatever comes at least one period later. */
  lemma FirstJob(c: nat, p: Pos, L: nat)
    ensures L < p ==> Interf(c, p, L) == Min(c, L)
    ensures p <= L ==> Interf(c, p, L) == c + Interf(c, p, L - p)
  {
    Shape(c, p, L);
    if L < p {
      DivUnique(L, p, 0);
    } else {
      Shape(c, p, L - p);
      OnePeriod(L, p);
      Succ(L / p - 1, c);
    }
  }

  /** Releases of one task: the first not before 0, the others at least one period apart. */
  ghost predicate Sporadic(rs: seq<nat>, p: Pos) {
    forall k :: 0 < k < |rs| ==> rs[k - 1] + p <= rs[k]
  }

  /** What jobs of at most `c` released at `rs` can execute before `L`. */
  ghost function Executed(rs: seq<nat>, c: nat, L: nat): nat {
    if rs == [] then 0 else (if rs[0] < L then Min(c, L - rs[0]) else 0) + Executed(rs[1..], c, L)
  }

  lemma {:induction false} ExecutedBounded(rs: seq<nat>, c: nat, p: Pos, a: nat, L: nat)
    requires Sporadic(rs, p) && a <= L && (rs != [] ==> a <= rs[0])
    ensures Executed(rs, c, L) <= Interf(c, p, L - a)
  {
    if rs != [] {
      var r := rs[0];
      if r >= L {
        ExecutedNone(rs, c, p, L);
      } else {
        Monotone(c, p, L - r, L - a);
        FirstJob(c, p, L - r);
        if r + p <= L {
          ExecutedBounded(rs[1..], c, p, r + p, L);
        } else {
          ExecutedNone(rs[1..], c, p, L);
        }
      }
    }
  }

  lemma {:induction false} ExecutedNone(rs: seq<nat>, c: nat, p: Pos, L: nat)
    requires Sporadic(rs, p) && (rs != [] ==> L <= rs[0])
    ensures Executed(rs, c, L) == 0
  {
    if rs != [] {
      ExecutedNone(rs[1..], c, p, L);
    }
  }
}

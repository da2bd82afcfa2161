/** How much of a new task FP-PM lets a CPU take, and when that is the most the CPU can take. */
module SplitCapacity {
  import opened Resch
  import opened Arith
  import opened Interference

  /** A product of words that fits a word. */
  function Times(x: nat, y: nat): nat { x * y }

  function Quotient(x: nat, y: Pos): nat { x / y }

  /** The capacity computed for one task of the CPU with response bound `R` and deadline `D`,
      against a newcomer of period `P`. All terms are unsigned words. */
  function Capacity(R: nat, D: nat, P: Pos): nat
    requires R <= D
  {
    var F := D / P;
    if F == 0 then Quotient(D - R, F + 1)
    else if WordMul(F, D - R) >= WordMul(WordSub(Times(F, P), R), F + 1) then Quotient(D - R, F + 1)
    else WordSub(P, Quotient(R, F))
  }

  /** The products of the formula fit a word. */
  ghost predicate InRange(D: nat, P: Pos) {
    P < WORD && D * (D / P + 1) < WORD
  }

  /** A newcomer that executes `c` leaves the task within its deadline. */
  ghost predicate Fits(c: nat, R: nat, D: nat, P: Pos) {
    R + Interf(c, P, D) <= D
  }

  /** The task tolerates exactly the amounts up to `c`. */
  ghost predicate Largest(c: nat, R: nat, D: nat, P: Pos) {
    forall b: nat :: Fits(b, R, D, P) <==> b <= c
  }

  lemma InterfMono(b: nat, c: nat, P: Pos, L: nat)
    requires b <= c
    ensures Interf(b, P, L) <= Interf(c, P, L)
  {
    Shape(b, P, L);
    Shape(c, P, L);
    MulMono(b, c, L / P);
  }

  lemma IsLargest(c: nat, R: nat, D: nat, P: Pos)
    requires Fits(c, R, D, P) && !Fits(c + 1, R, D, P)
    ensures Largest(c, R, D, P)
  {
    forall b: nat ensures Fits(b, R, D, P) <==> b <= c {
      if b <= c {
        InterfMono(b, c, P, D);
      } else {
        InterfMono(c + 1, b, P, D);
      }
    }
  }

  lemma Bigger(F: nat, a: nat, b: nat)
    ensures F * (a + 1) == F * a + F
    ensures a < b ==> F * a + F <= F * b
  {
    if a < b { MulMono(a + 1, b, F); }
  }

  /** Where the newcomer's last job ends within the deadline. */
  lemma LowBranch(R: nat, D: nat, P: Pos)
    requires R <= D
    requires var F, x := D / P, D % P; F * P - F * x <= R && (F == 0 ==> 0 < R)
    ensures Largest((D - R) / (D / P + 1), R, D, P)
  {
    DivBounds(D - R, D / P + 1);
    LowLargest(R, D, P, (D - R) / (D / P + 1));
  }

  lemma LowLargest(R: nat, D: nat, P: Pos, c: nat)
    requires var F, x := D / P, D % P; F * P - F * x <= R && (F == 0 ==> 0 < R)
    requires R <= D && var F := D / P; c * (F + 1) <= D - R < c * (F + 1) + F + 1
    ensures Largest(c, R, D, P)
  {
    Whole(D, P);
    LowCore(D / P, D % P, P, c, R, D);
    Shape(c, P, D);
    Shape(c + 1, P, D);
    IsLargest(c, R, D, P);
  }

  lemma Whole(n: nat, d: Pos)
    ensures n == n / d * d + n % d
  {
  }

  lemma LowCore(F: nat, x: nat, P: nat, c: nat, R: nat, D: nat)
    requires D == F * P + x && c * (F + 1) <= D - R < c * (F + 1) + F + 1
    requires F * P - F * x <= R && (F == 0 ==> 0 < R)
    ensures R + F * c + Min(c, x) <= D < R + F * (c + 1) + Min(c + 1, x)
  {
    Bigger(c, F, 0);
    Bigger(F, c, 0);
    Bigger(F, x, c);
    LowLinear(F, x, F * P, F * x, F * c, c, R, D);
  }

  lemma LowLinear(F: nat, x: nat, FP: int, Fx: int, Fc: int, c: nat, R: nat, D: nat)
    requires D == FP + x && Fc + c <= D - R < Fc + c + F + 1 && FP - Fx <= R && (F == 0 ==> 0 < R && FP == 0 && Fc == 0)
    requires (x < c ==> Fx + F <= Fc) && (x == c ==> Fx == Fc)
    ensures R + Fc + Min(c, x) <= D < R + Fc + F + Min(c + 1, x)
  {
  }

  /** Where it does not, the division rounds the wrong way. */
  lemma HighBranch(R: nat, D: nat, P: Pos)
    requires P <= D && var F, x := D / P, D % P; R < F * P - F * x
    ensures
      var F := D / P;
      && 0 < F && R / F <= P && (R % F != 0 ==> R / F < P)
      && Largest(if R % F == 0 then P - R / F else P - R / F - 1, R, D, P)
  {
    var F, x := D / P, D % P;
    DivShift(D, P, 1);
    DivBounds(R, F);
    var q, r := R / F, R % F;
    HighCore(F, x, P, q, r, R, D);
    var c := if r == 0 then P - q else P - q - 1;
    Shape(c, P, D);
    Shape(c + 1, P, D);
    IsLargest(c, R, D, P);
  }

  lemma HighCore(F: nat, x: nat, P: nat, q: nat, r: nat, R: nat, D: nat)
    requires 0 < F && D == F * P + x && R == q * F + r && r < F && R < F * P - F * x
    ensures
      var c := if r == 0 then P - q else P - q - 1;
      x <= c && R + F * c + Min(c, x) <= D < R + F * (c + 1) + Min(c + 1, x)
  {
    var c := if r == 0 then P - q else P - q - 1;
    assert x <= P by { if P < x { MulMono(P, x, F); } }
    Distribute(F, P, x);
    if P - x <= q { MulMono(P - x, q, F); }
    Bigger(F, c, 0);
    Distribute(F, P, q);
    Bigger(F, P - q - 1, 0);
    HighLinear(F, x, F * P, F * q, F * c, c, r, R, D);
  }

  lemma HighLinear(F: nat, x: nat, FP: int, Fq: int, Fc: int, c: nat, r: nat, R: nat, D: nat)
    requires D == FP + x && R == Fq + r && x <= c && 0 <= r < F && Fc == if r == 0 then FP - Fq else FP - Fq - F
    ensures R + Fc + Min(c, x) <= D < R + Fc + F + Min(c + 1, x)
  {
  }

  /** What the comparison of the two products tests while no operand is negative. */
  lemma GuardTests(R: nat, D: nat, P: Pos)
    requires R <= D && P <= D && InRange(D, P) && R <= D / P * P
    ensures
      var F, x := D / P, D % P;
      WordMul(F, D - R) >= WordMul(WordSub(F * P, R), F + 1) <==> F * P - F * x <= R
  {
    var F, x := D / P, D % P;
    DivBounds(D, P);
    Whole(D, P);
    GuardCore(F, F * P, x, P, R, D);
    SmallWord(F * (D - R));
    SmallWord((F * P - R) * (F + 1));
  }

  lemma Plus(F: nat, a: nat, b: nat)
    ensures F * (a + b) == F * a + F * b
  {
  }

  lemma GuardCore(F: nat, m: nat, x: nat, P: nat, R: nat, D: nat)
    requires m == F * P && D == m + x && R <= D && R <= m && D * (F + 1) < WORD
    ensures 0 <= F * (D - R) < WORD && 0 <= (m - R) * (F + 1) < WORD
    ensures F * (D - R) >= (m - R) * (F + 1) <==> m - F * x <= R
  {
    var d := m - R;
    Plus(F, d, x);
    assert F * (D - R) == F * (d + x);
    assert d * (F + 1) == F * d + d;
    MulMono(D - R, D, F);
    MulMono(d, D, F + 1);
    assert D * (F + 1) == F * D + D;
  }

  lemma SmallWord(n: nat)
    requires n < WORD
    ensures n % WORD == n
  {
  }

  /** A bound past the newcomer's last release makes the subtraction wrap: the test always fails. */
  lemma GuardWraps(R: nat, D: nat, P: Pos)
    requires R <= D && P <= D && InRange(D, P) && D / P * P < R
    ensures WordMul(D / P, D - R) < WordMul(WordSub(D / P * P, R), D / P + 1)
  {
    var F, x := D / P, D % P;
    DivShift(D, P, 1);
    var m := F * P;
    OverBounds(F, m, x, R, D);
    SmallWord(F * (D - R));
    assert WordSub(m, R) == WORD - (R - m);
    WrappedProduct(R - m, F + 1);
  }

  lemma OverBounds(F: nat, m: nat, x: nat, R: nat, D: nat)
    requires 0 < F && D == m + x && m < R <= D && D * (F + 1) < WORD
    ensures 0 < (R - m) * (F + 1) && F * (D - R) + (R - m) * (F + 1) < WORD
  {
    var d := R - m;
    assert F * (D - R) == F * (x - d);
    Distribute(F, x, d);
    MulMono(x, D, F + 1);
    MulMono(d, x, 1);
    assert d * (F + 1) == F * d + d && x * (F + 1) == F * x + x;
    MulMono(1, d, F + 1);
  }

  lemma Distribute(F: nat, x: nat, d: nat)
    ensures F * (x - d) == F * x - F * d
  {
  }

  lemma WrappedProduct(d: nat, n: nat)
    requires 0 < d <= WORD && 0 < d * n < WORD
    ensures (WORD - d) * n % WORD == WORD - d * n
  {
    var y := WORD - d * n;
    assert (WORD - d) * n == (n - 1) * WORD + y;
    RemainderUnique((WORD - d) * n, n - 1, y);
  }

  lemma RemainderUnique(x: int, k: int, y: nat)
    requires x == k * WORD + y && y < WORD
    ensures x % WORD == y
  {
  }

  /** Then the true capacity is that of the other branch, and the computed one wraps as well. */
  lemma PastLastRelease(R: nat, D: nat, P: Pos)
    requires R <= D && P <= D && InRange(D, P) && D / P * P < R
    ensures
      var F := D / P;
      && 0 < F && P <= R / F && Capacity(R, D, P) == (if R / F == P then 0 else WORD - (R / F - P))
      && Largest((D - R) / (F + 1), R, D, P)
  {
    DivShift(D, P, 1);
    GuardWraps(R, D, P);
    MulMono(0, D % P, D / P);
    LowBranch(R, D, P);
    WrappedQuotient(R, D, P, D / P);
  }

  lemma WrappedQuotient(R: nat, D: nat, P: Pos, F: Pos)
    requires R <= D && F * P < R && D < WORD
    ensures P <= R / F && WordSub(P, R / F) == if R / F == P then 0 else WORD - (R / F - P)
  {
    DivShift(R, F, P);
    QuotientBelow(R, F);
    if P < R / F {
      SmallWord(WORD - (R / F - P));
      assert (P - R / F) % WORD == WORD - (R / F - P);
    }
  }

  /** The branch that divides last is taken, or the other one divides without remainder; past the
      newcomer's last release inside the deadline the subtraction must come out as zero. */
  ghost predicate Safe(R: nat, D: nat, P: Pos) {
    var F, x := D / P, D % P;
    if F == 0 then true
    else if R <= F * P then F * P - F * x <= R || R % F == 0
    else R / F == P
  }

  /** The computed capacity is never too large just when the inputs are safe, and is then the
      largest amount the task tolerates, but for two cases: nothing of the deadline is used, or the
      subtraction came out as zero although there was room. */
  lemma CapacityExactIff(R: nat, D: nat, P: Pos)
    requires R <= D && InRange(D, P)
    ensures Fits(Capacity(R, D, P), R, D, P) <==> Safe(R, D, P)
    ensures
      var F := D / P;
      Largest(Capacity(R, D, P), R, D, P) <==>
      && Safe(R, D, P)
      && (F == 0 ==> 0 < R)
      && (0 < F && F * P < R ==> (D - R) / (F + 1) == 0)
  {
    var F := D / P;
    if F == 0 {
      ShortDeadline(R, D, P);
    } else {
      DivShift(D, P, 1);
      if R > F * P {
        TooLargeWhenWrapped(R, D, P);
      } else {
        InsidePeriods(R, D, P);
      }
    }
  }

  /** The two branches where nothing wraps. */
  lemma InsidePeriods(R: nat, D: nat, P: Pos)
    requires R <= D && P <= D && InRange(D, P) && R <= D / P * P
    ensures Fits(Capacity(R, D, P), R, D, P) <==> Safe(R, D, P)
    ensures Largest(Capacity(R, D, P), R, D, P) <==> Safe(R, D, P)
  {
    DivShift(D, P, 1);
    GuardTests(R, D, P);
    var c := Capacity(R, D, P);
    if D / P * P - D / P * (D % P) <= R {
      LowBranch(R, D, P);
    } else {
      HighBranch(R, D, P);
      if R % (D / P) != 0 {
        OneLargest(c, c - 1, R, D, P);
      }
    }
  }

  lemma OneLargest(b: int, c: int, R: nat, D: nat, P: Pos)
    ensures 0 <= b && 0 <= c && b != c && Largest(c, R, D, P) ==> !Largest(b, R, D, P)
  {
    if 0 <= b && 0 <= c && Largest(c, R, D, P) && Largest(b, R, D, P) {
      assert Fits(b, R, D, P) && Fits(c, R, D, P);
    }
  }

  lemma ShortDeadline(R: nat, D: nat, P: Pos)
    requires R <= D && D / P == 0
    ensures Largest(Capacity(R, D, P), R, D, P) <==> 0 < R
    ensures Fits(Capacity(R, D, P), R, D, P)
  {
    DivShift(D, P, 1);
    Shape(D, P, D);
    if R == 0 {
      Shape(D + 1, P, D);
      assert Fits(D + 1, R, D, P);
    } else {
      LowBranch(R, D, P);
    }
  }

  lemma TooLargeWhenWrapped(R: nat, D: nat, P: Pos)
    requires R <= D && P <= D && InRange(D, P) && D / P * P < R
    ensures
      var F := D / P;
      && (Fits(Capacity(R, D, P), R, D, P) <==> R / F == P)
      && (Largest(Capacity(R, D, P), R, D, P) <==> R / F == P && (D - R) / (F + 1) == 0)
  {
    PastLastRelease(R, D, P);
    SmallQuotients(R, D, P);
    WrappedLargest(R, D, P, Capacity(R, D, P), (D - R) / (D / P + 1), R / (D / P));
  }

  /** The wrapped capacity `b` against the largest amount `c`. */
  lemma WrappedLargest(R: nat, D: nat, P: Pos, b: nat, c: nat, q: nat)
    requires Largest(c, R, D, P) && c <= D && P <= q <= D && 2 * D < WORD
    requires b == if q == P then 0 else WORD - (q - P)
    ensures Fits(b, R, D, P) <==> q == P
    ensures Largest(b, R, D, P) <==> q == P && c == 0
  {
    assert Fits(b, R, D, P) <==> b <= c;
    OneLargest(b, c, R, D, P);
  }

  lemma SmallQuotients(R: nat, D: nat, P: Pos)
    requires R <= D && P <= D && InRange(D, P)
    ensures
      var F := D / P;
      0 < F && 0 <= (D - R) / (F + 1) <= D && R / F <= D && 2 * D < WORD
  {
    DivShift(D, P, 1);
    QuotientBelow(D - R, D / P + 1);
    QuotientBelow(R, D / P);
    MulMono(2, D / P + 1, D);
  }

  lemma QuotientBelow(n: nat, d: nat)
    requires 0 < d
    ensures n / d <= n
  {
    DivBounds(n, d);
    MulMono(1, d, n / d);
  }

  /** Where the other branch has a remainder, the computed capacity is one too large. */
  lemma OneTooLarge(R: nat, D: nat, P: Pos)
    requires InRange(D, P) && P <= D
    requires var F, x := D / P, D % P; R < F * P - F * x && R % F != 0
    ensures R <= D && 0 < Capacity(R, D, P) && Largest(Capacity(R, D, P) - 1, R, D, P)
  {
    DivShift(D, P, 1);
    DivBounds(D, P);
    MulMono(0, D % P, D / P);
    GuardTests(R, D, P);
    HighBranch(R, D, P);
  }

  /** A task with bound 4 and deadline 5 has no room for a newcomer of period 3, but the capacity is
      the largest word. */
  lemma CapacityWraps()
    ensures Capacity(4, 5, 3) == WORD - 1 && Largest(0, 4, 5, 3)
  {
    PastLastRelease(4, 5, 3);
  }

  // ---------------------------------------------------------------- what a task can bear

  /** The largest amount a task with bound `R` bears, in closed form. */
  function TrueRoom(R: nat, D: nat, P: Pos): int
    requires R <= D
  {
    var F, x := D / P, D % P;
    if F == 0 || F * P - F * x <= R then Quotient(D - R, F + 1)
    else if R % F == 0 then P - R / F
    else P - R / F - 1
  }

  /** A task bears what is within its room; one that uses nothing of a deadline shorter than the
      newcomer's period bears anything. */
  predicate Bears(s: nat, R: nat, D: nat, P: Pos) {
    R <= D && ((R == 0 && D < P) || s <= TrueRoom(R, D, P))
  }

  /** Exactly those amounts leave the task within its deadline, for all bounds, deadlines and periods. */
  lemma FitsIff(s: nat, R: nat, D: nat, P: Pos)
    ensures Fits(s, R, D, P) <==> Bears(s, R, D, P)
  {
    DivShift(D, P, 1);
    if R == 0 && D < P {
      DivUnique(D, P, 0);
      Shape(s, P, D);
    } else if R <= D {
      RoomIsLargest(R, D, P);
    }
  }

  lemma RoomIsLargest(R: nat, D: nat, P: Pos)
    requires R <= D && (D / P == 0 ==> 0 < R)
    ensures 0 <= TrueRoom(R, D, P) && Largest(TrueRoom(R, D, P), R, D, P)
  {
    if D / P == 0 {
      NoProduct(D / P, P, D % P);
      LowBranch(R, D, P);
    } else {
      RoomFromOnePeriod(R, D, P);
    }
  }

  lemma RoomFromOnePeriod(R: nat, D: nat, P: Pos)
    requires R <= D && 0 < D / P
    ensures 0 <= TrueRoom(R, D, P) && Largest(TrueRoom(R, D, P), R, D, P)
  {
    DivShift(D, P, 1);
    if D / P * P - D / P * (D % P) <= R {
      LowBranch(R, D, P);
    } else {
      HighBranch(R, D, P);
    }
  }

  lemma NoProduct(F: nat, P: nat, x: nat)
    ensures F == 0 ==> F * P - F * x == 0
  {
  }
}

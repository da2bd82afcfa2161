/** The few facts about products and quotients that the analyses rest on. */
module Arith {

  function Min(a: nat, b: nat): nat { if a < b then a else b }

  function Max(a: nat, b: nat): nat { if a < b then b else a }

  lemma MulMono(a: int, b: int, c: nat)
    requires a <= b
    ensures a * c <= b * c
  {
  }

  lemma DivBounds(x: nat, y: nat)
    requires 0 < y
    ensures x / y * y <= x < x / y * y + y
  {
  }

  lemma DivUnique(x: nat, y: nat, q: nat)
    requires 0 < y && q * y <= x < q * y + y
    ensures x / y == q
  {
    DivBounds(x, y);
    var r := x / y;
    if r < q {
      MulMono(r + 1, q, y);
    } else if r > q {
      MulMono(q + 1, r, y);
    }
  }

  lemma DivMono(x: nat, x': nat, y: nat)
    requires 0 < y && x <= x'
    ensures x / y <= x' / y
  {
    DivBounds(x, y);
    DivBounds(x', y);
    if x' / y < x / y {
      MulMono(x' / y + 1, x / y, y);
    }
  }

  lemma NestedBounds(x: nat, y: nat, q: nat, t: nat, p: nat)
    requires y * t <= x < y * t + t && q * p <= y < q * p + p
    ensures q * (p * t) <= x < q * (p * t) + p * t
  {
    MulMono(q * p, y, t);
    MulMono(y + 1, q * p + p, t);
    assert (q * p) * t == q * (p * t);
    assert (q * p + p) * t == (q * p) * t + p * t;
    assert (y + 1) * t == y * t + t;
  }

  lemma DivDiv(x: nat, t: nat, p: nat)
    requires 0 < t && 0 < p
    ensures 0 < p * t && x / (p * t) == x / t / p
  {
    var y := x / t;
    DivBounds(x, t);
    DivBounds(y, p);
    NestedBounds(x, y, y / p, t, p);
    DivUnique(x, p * t, y / p);
  }

  lemma DivShift(x: nat, t: nat, k: nat)
    requires 0 < t
    ensures k <= x / t <==> k * t <= x
    ensures k * t <= x ==> (x - k * t) / t == x / t - k
  {
    DivBounds(x, t);
    var q := x / t;
    if k <= q {
      MulMono(k, q, t);
      assert (q - k) * t == q * t - k * t;
      DivUnique(x - k * t, t, q - k);
    } else {
      MulMono(q + 1, k, t);
      assert (q + 1) * t == q * t + t;
    }
  }

  lemma ScaledSum(x: nat, a: nat, y: nat, b: nat, t: nat)
    requires x <= a * t && y <= b * t
    ensures x + y <= (a + b) * t
  {
  }

  lemma ScaledEqual(x: nat, a: nat, y: nat, b: nat, t: nat)
    requires x == a * t && y == b * t
    ensures x + y == (a + b) * t
  {
  }

  /** The cell of a ring of `n` cells that counter `x` falls on: `x % n`, by repeated subtraction,
      which keeps products of unknowns out of the proofs about rings. */
  function Slot(x: nat, n: nat): (r: nat)
    requires 0 < n
    ensures r < n
  {
    if x < n then x else Slot(x - n, n)
  }

  lemma ModShift(x: nat, n: nat)
    requires 0 < n <= x
    ensures (x - n) % n == x % n
  {
    DivShift(x, n, 1);
    MulStep(x / n, n);
  }

  lemma MulStep(q: int, n: int)
    ensures q * n == (q - 1) * n + n
  {
  }

  lemma {:induction false} SlotIsMod(x: nat, n: nat)
    requires 0 < n
    ensures Slot(x, n) == x % n
  {
    if n <= x {
      SlotIsMod(x - n, n);
      ModShift(x, n);
    }
  }

  /** Position `k` further in the ring. */
  lemma {:induction false} SlotAdd(x: nat, k: nat, n: nat)
    requires 0 < n && k <= n
    ensures Slot(x + k, n) == if Slot(x, n) + k < n then Slot(x, n) + k else Slot(x, n) + k - n
  {
    if n <= x {
      SlotAdd(x - n, k, n);
      assert x + k - n == x - n + k;
    } else if n <= x + k {
      assert x + k - n <= n;
    }
  }

  /** Counters less than a ring apart stand on different cells. */
  lemma SlotDiffer(a: nat, b: nat, n: nat)
    requires 0 < n && a < b < a + n
    ensures Slot(a, n) != Slot(b, n)
  {
    SlotAdd(a, b - a, n);
  }
}

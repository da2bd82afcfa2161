/** Bitwise operations of the C source on natural numbers. */
module Bits {
  import opened Arith

  function Pow2(n: nat): (r: nat)
    ensures 0 < r
  {
    if n == 0 then 1 else 2 * Pow2(n - 1)
  }

  predicate Bit(x: nat, i: nat) {
    if i == 0 then x % 2 == 1 else Bit(x / 2, i - 1)
  }

  function And(x: nat, y: nat): nat {
    if x == 0 || y == 0 then 0 else 2 * And(x / 2, y / 2) + if x % 2 == 1 && y % 2 == 1 then 1 else 0
  }

  function Or(x: nat, y: nat): nat {
    if x == 0 then y else if y == 0 then x
    else 2 * Or(x / 2, y / 2) + if x % 2 == 1 || y % 2 == 1 then 1 else 0
  }

  lemma {:induction false} AndBit(x: nat, y: nat, i: nat)
    ensures Bit(And(x, y), i) <==> Bit(x, i) && Bit(y, i)
    decreases i
  {
    if x == 0 || y == 0 {
      ZeroBit(i);
    } else if i > 0 {
      AndBit(x / 2, y / 2, i - 1);
    }
  }

  lemma {:induction false} OrBit(x: nat, y: nat, i: nat)
    ensures Bit(Or(x, y), i) <==> Bit(x, i) || Bit(y, i)
    decreases i
  {
    if x == 0 || y == 0 {
      ZeroBit(i);
    } else if i > 0 {
      OrBit(x / 2, y / 2, i - 1);
    }
  }

  lemma ZeroBit(i: nat)
    ensures !Bit(0, i)
  {
  }

  /** `x & (2^n - 1)` is the remainder modulo `2^n`. */
  lemma {:induction false} AndMask(x: nat, n: nat)
    ensures And(x, Pow2(n) - 1) == x % Pow2(n)
  {
    if n > 0 {
      var p := Pow2(n - 1);
      AndMask(x / 2, n - 1);
      AndOdd(x, p);
      HalfMod(x, p);
    }
  }

  /** One step of masking with an odd mask. */
  lemma AndOdd(x: nat, p: nat)
    requires 0 < p
    ensures And(x, 2 * p - 1) == 2 * And(x / 2, p - 1) + x % 2
  {
    assert (2 * p - 1) / 2 == p - 1 && (2 * p - 1) % 2 == 1;
  }

  lemma SmallMod(x: nat, m: nat)
    requires x < m
    ensures x % m == x
  {
  }

  lemma HalfMod(x: nat, p: nat)
    requires 0 < p
    ensures x % (2 * p) == 2 * (x / 2 % p) + x % 2
  {
    var h := x / 2;
    DivBounds(h, p);
    var q := h / p;
    assert h == q * p + h % p;
    assert q * (2 * p) == 2 * (q * p);
    DivUnique(x, 2 * p, q);
    assert x == x / (2 * p) * (2 * p) + x % (2 * p);
  }

  /** Or-ing in a field above `n` bits adds it. */
  lemma {:induction false} OrField(a: nat, b: nat, n: nat)
    requires a < Pow2(n)
    ensures Or(a, b * Pow2(n)) == a + b * Pow2(n)
  {
    if n > 0 && a != 0 && b != 0 {
      var p := Pow2(n - 1);
      OrField(a / 2, b, n - 1);
      assert b * (2 * p) == 2 * (b * p);
      assert b * Pow2(n) != 0 by { MulMono(1, b, 2 * p); }
      assert (2 * (b * p)) / 2 == b * p;
    }
  }
}

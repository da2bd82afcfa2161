/** The bitmap scans of the core: words of `W` bits, searched from either end. */
module BitScan {
  import opened Arith
  import opened Bits

  /** Index of the lowest set bit (`__ffs`). */
  function LowestBit(w: nat): (r: nat)
    requires 0 < w
    ensures Bit(w, r) && forall k: nat :: k < r ==> !Bit(w, k)
  {
    if w % 2 == 1 then 0 else
    var r := LowestBit(w / 2);
    assert forall k: nat :: 0 < k < r + 1 ==> Bit(w, k) == Bit(w / 2, k - 1);
    r + 1
  }

  /** Index of the highest set bit (`__fls`). */
  function HighestBit(w: nat): (r: nat)
    requires 0 < w
    ensures Bit(w, r)
  {
    if w == 1 then 0 else 1 + HighestBit(w / 2)
  }

  lemma {:induction false} AboveHighest(w: nat, k: nat)
    requires 0 < w && HighestBit(w) < k
    ensures !Bit(w, k)
    decreases w
  {
    if w == 1 {
      ZeroBit(k - 1);
    } else {
      AboveHighest(w / 2, k - 1);
    }
  }

  lemma {:induction false} NonzeroBit(w: nat, k: nat)
    requires Bit(w, k)
    ensures 0 < w
  {
    if w == 0 {
      ZeroBit(k);
    }
  }

  /** A word of `n` bits has no bit at or above `n`. */
  lemma {:induction false} BitBelow(w: nat, n: nat, k: nat)
    requires w < Pow2(n) && Bit(w, k)
    ensures k < n
    decreases n
  {
    if n == 0 {
      ZeroBit(k);
    } else if k > 0 {
      BitBelow(w / 2, n - 1, k - 1);
    }
  }

  /** `2^n - 1` has exactly the bits below `n`. */
  lemma {:induction false} OnesBit(n: nat, k: nat)
    ensures Bit(Pow2(n) - 1, k) <==> k < n
    decreases n
  {
    if n == 0 {
      ZeroBit(k);
    } else if k > 0 {
      assert (Pow2(n) - 1) / 2 == Pow2(n - 1) - 1;
      OnesBit(n - 1, k - 1);
    }
  }

  /** Complement within `n` bits. */
  function Not(w: nat, n: nat): nat
    requires w < Pow2(n)
  {
    Pow2(n) - 1 - w
  }

  lemma {:induction false} NotBit(w: nat, n: nat, k: nat)
    requires w < Pow2(n)
    ensures Bit(Not(w, n), k) <==> k < n && !Bit(w, k)
    decreases n
  {
    if n == 0 {
      ZeroBit(k);
    } else if k > 0 {
      assert Not(w, n) / 2 == Not(w / 2, n - 1);
      NotBit(w / 2, n - 1, k - 1);
    }
  }

  /** `~0UL << c` on words of `W` bits. A shift by the whole width is not defined by the language:
      it gives zero, or all ones on machines that reduce the count modulo the width. */
  function OnesFrom(c: nat, W: nat, wraps: bool): nat
    requires c <= W
  {
    if c == W then (if wraps then Pow2(W) - 1 else 0) else Pow2(W - c) * Pow2(c) - Pow2(c)
  }

  lemma {:induction false} ShiftedOnesBit(n: nat, c: nat, k: nat)
    ensures 0 <= Pow2(n) * Pow2(c) - Pow2(c)
    ensures Bit(Pow2(n) * Pow2(c) - Pow2(c), k) <==> c <= k < n + c
    decreases c
  {
    MulMono(1, Pow2(n), Pow2(c));
    if c == 0 {
      OnesBit(n, k);
    } else {
      var p := Pow2(c - 1);
      assert Pow2(n) * (2 * p) == 2 * (Pow2(n) * p);
      var half := Pow2(n) * p - p;
      MulMono(1, Pow2(n), p);
      assert Pow2(n) * Pow2(c) - Pow2(c) == 2 * half;
      if k > 0 {
        ShiftedOnesBit(n, c - 1, k - 1);
      }
    }
  }

  lemma OnesFromBit(c: nat, W: nat, k: nat)
    requires c <= W && k < W
    ensures Bit(OnesFrom(c, W, false), k) <==> c <= k
    ensures c == W ==> Bit(OnesFrom(c, W, true), k)
    ensures c < W ==> OnesFrom(c, W, true) == OnesFrom(c, W, false)
  {
    if c == W {
      ZeroBit(k);
      OnesBit(W, k);
    } else {
      ShiftedOnesBit(W - c, c, k);
    }
  }

  // ---------------------------------------------------------------- bitmaps

  ghost predicate Words(b: seq<nat>, W: nat) {
    0 < W && forall i :: 0 <= i < |b| ==> b[i] < Pow2(W)
  }

  /** Bit `j` of word `i`. */
  ghost predicate SetAt(b: seq<nat>, i: nat, j: nat) {
    i < |b| && Bit(b[i], j)
  }

  ghost predicate IsSet(b: seq<nat>, W: nat, k: nat)
    requires 0 < W
  {
    SetAt(b, k / W, k % W)
  }

  lemma Position(W: nat, i: nat, j: nat)
    requires j < W
    ensures (i * W + j) / W == i && (i * W + j) % W == j
  {
    DivUnique(i * W + j, W, i);
  }

  /** `r` is the first set bit at or after `from`, or -1 if there is none. */
  ghost predicate FirstFrom(b: seq<nat>, W: nat, from: nat, r: int)
    requires 0 < W
  {
    && (forall k: nat :: from <= k && (r == -1 || k < r) ==> !IsSet(b, W, k))
    && (r == -1 || (from <= r && IsSet(b, W, r)))
  }

  /** `r` is the last set bit at or before `to`, or -1 if there is none. */
  ghost predicate LastUpTo(b: seq<nat>, W: nat, to: int, r: int)
    requires 0 < W
  {
    && (forall k: nat :: r < k <= to ==> !IsSet(b, W, k))
    && (r == -1 || (0 <= r <= to && IsSet(b, W, r)))
  }

  lemma InWord(b: seq<nat>, W: nat, i: nat, k: nat)
    requires 0 < W && i * W <= k < i * W + W
    ensures IsSet(b, W, k) <==> SetAt(b, i, k - i * W)
  {
    Position(W, i, k - i * W);
  }

  lemma Beyond(b: seq<nat>, W: nat, k: nat)
    requires 0 < W && |b| * W <= k
    ensures !IsSet(b, W, k)
  {
    DivShift(k, W, |b|);
  }

  /** Every nonzero word has a bit that counts. */
  lemma SomeBit(b: seq<nat>, W: nat, i: nat)
    requires Words(b, W) && i < |b| && b[i] != 0
    ensures LowestBit(b[i]) < W && HighestBit(b[i]) < W
  {
    BitBelow(b[i], W, LowestBit(b[i]));
    BitBelow(b[i], W, HighestBit(b[i]));
  }

  /** `resch_ffs`: the first set bit. */
  method FindFirst(b: seq<nat>, W: nat) returns (r: int)
    requires Words(b, W)
    ensures FirstFrom(b, W, 0, r)
  {
    for i := 0 to |b|
      invariant forall k: nat :: k < i * W ==> !IsSet(b, W, k)
    {
      if b[i] != 0 {
        FirstOfWord(b, W, i);
        return LowestBit(b[i]) + i * W;
      }
      forall k: nat | i * W <= k < i * W + W ensures !IsSet(b, W, k) {
        InWord(b, W, i, k);
        ZeroBit(k - i * W);
      }
      assert (i + 1) * W == i * W + W;
    }
    forall k: nat | |b| * W <= k ensures !IsSet(b, W, k) {
      Beyond(b, W, k);
    }
    r := -1;
  }

  /** `resch_ffz`: the first zero bit. */
  method FindFirstZero(b: seq<nat>, W: nat) returns (r: int)
    requires Words(b, W)
    ensures r == -1 ==> forall k: nat :: k < |b| * W ==> IsSet(b, W, k)
    ensures r != -1 ==> 0 <= r < |b| * W && !IsSet(b, W, r) && forall k: nat :: k < r ==> IsSet(b, W, k)
  {
    for i := 0 to |b|
      invariant forall k: nat :: k < i * W ==> IsSet(b, W, k)
    {
      var w := Not(b[i], W);
      ZeroInWord(b, W, i);
      if w != 0 {
        MulMono(i + 1, |b|, W);
        assert (i + 1) * W == i * W + W;
        return LowestBit(w) + i * W;
      }
      assert (i + 1) * W == i * W + W;
    }
    r := -1;
  }

  /** The first zero bit of a word, if there is one. */
  lemma ZeroInWord(b: seq<nat>, W: nat, i: nat)
    requires Words(b, W) && i < |b|
    ensures
      var w := Not(b[i], W);
      var r := i * W + if w != 0 then LowestBit(w) else W;
      && (w != 0 ==> LowestBit(w) < W && !IsSet(b, W, r))
      && forall k: nat :: i * W <= k < r ==> IsSet(b, W, k)
  {
    var w := Not(b[i], W);
    var r := i * W + if w != 0 then LowestBit(w) else W;
    if w != 0 {
      NotBit(b[i], W, LowestBit(w));
      InWord(b, W, i, r);
    }
    forall k: nat | i * W <= k < r ensures IsSet(b, W, k) {
      NotBit(b[i], W, k - i * W);
      ZeroBit(k - i * W);
      InWord(b, W, i, k);
    }
  }

  /** `resch_fls`: the last set bit. */
  method FindLast(b: seq<nat>, W: nat) returns (r: int)
    requires Words(b, W)
    ensures LastUpTo(b, W, |b| * W, r)
  {
    Beyond(b, W, |b| * W);
    var i := |b|;
    while i > 0
      invariant 0 <= i <= |b|
      invariant forall k: nat :: i * W <= k <= |b| * W ==> !IsSet(b, W, k)
    {
      i := i - 1;
      assert (i + 1) * W == i * W + W;
      if b[i] != 0 {
        SomeBit(b, W, i);
        r := HighestBit(b[i]) + i * W;
        InWord(b, W, i, r);
        forall k: nat | r < k < i * W + W ensures !IsSet(b, W, k) {
          InWord(b, W, i, k);
          AboveHighest(b[i], k - i * W);
        }
        MulMono(i + 1, |b|, W);
        return;
      }
      forall k: nat | i * W <= k < i * W + W ensures !IsSet(b, W, k) {
        InWord(b, W, i, k);
        ZeroBit(k - i * W);
      }
    }
    r := -1;
  }

  /** The scan reads word `i` unmasked although it ends at the offset: on a machine that reduces the
      shift count modulo the width, when the word is not zero. */
  predicate MisreadAt(b: seq<nat>, W: nat, offset: nat, wraps: bool, i: nat)
    requires i < |b|
  {
    wraps && i * W + W == offset && b[i] != 0
  }

  predicate Misread(b: seq<nat>, W: nat, offset: nat, wraps: bool) {
    exists i :: 0 <= i < |b| && MisreadAt(b, W, offset, wraps, i)
  }

  /** The word `i` as `resch_fns` reads it. */
  function Masked(b: seq<nat>, W: nat, i: nat, offset: nat, wraps: bool): nat
    requires 0 < W && i < |b| && offset <= i * W + W
  {
    if i * W < offset then And(b[i], OnesFrom(offset - i * W, W, wraps)) else b[i]
  }

  lemma MaskedBit(b: seq<nat>, W: nat, i: nat, offset: nat, wraps: bool, k: nat)
    requires Words(b, W) && i < |b| && offset <= i * W + W && i * W <= k < i * W + W
    requires offset == i * W + W ==> !wraps
    ensures Bit(Masked(b, W, i, offset, wraps), k - i * W) <==> offset <= k && IsSet(b, W, k)
  {
    InWord(b, W, i, k);
    if i * W < offset {
      var c := offset - i * W;
      AndBit(b[i], OnesFrom(c, W, wraps), k - i * W);
      OnesFromBit(c, W, k - i * W);
    }
  }

  lemma MaskedBound(b: seq<nat>, W: nat, i: nat, offset: nat, wraps: bool, j: nat)
    requires Words(b, W) && i < |b| && offset <= i * W + W && Bit(Masked(b, W, i, offset, wraps), j)
    ensures j < W
  {
    if i * W < offset {
      AndBit(b[i], OnesFrom(offset - i * W, W, wraps), j);
    }
    BitBelow(b[i], W, j);
  }

  /** On a full-width shift that wraps, the whole word below the offset is read. */
  lemma WrappedWord(b: seq<nat>, W: nat, i: nat)
    requires Words(b, W) && i < |b|
    ensures And(b[i], OnesFrom(W, W, true)) == b[i]
  {
    AndMask(b[i], W);
    SmallMod(b[i], Pow2(W));
  }

  /** One word of the scan: it is skipped before the offset and masked around it. */
  method NextInWord(b: seq<nat>, W: nat, i: nat, offset: nat, wraps: bool) returns (r: int)
    requires Words(b, W) && i < |b|
    ensures r == -1 ==>
              && !MisreadAt(b, W, offset, wraps, i)
              && forall k: nat :: offset <= k && i * W <= k < i * W + W ==> !IsSet(b, W, k)
    ensures r != -1 && MisreadAt(b, W, offset, wraps, i) ==>
              W <= offset && 0 <= r < offset && FirstFrom(b, W, offset - W, r)
    ensures r != -1 && !MisreadAt(b, W, offset, wraps, i) ==>
              && i * W <= r && offset <= r && IsSet(b, W, r) && offset < i * W + W
              && forall k: nat :: offset <= k < r && i * W <= k ==> !IsSet(b, W, k)
  {
    if i * W + W < offset {
      return -1;
    }
    var tmp := Masked(b, W, i, offset, wraps);
    if wraps && i * W + W == offset {
      WrappedWord(b, W, i);
      if tmp == 0 {
        return -1;
      }
      WrappedFirst(b, W, i, offset);
      return LowestBit(tmp) + i * W;
    }
    if tmp == 0 {
      NothingMasked(b, W, i, offset, wraps);
      return -1;
    }
    r := FoundIn(b, W, i, offset, wraps);
  }

  /** `resch_fns`: the first set bit at or after the offset, exactly when no word is misread. */
  method FindNext(b: seq<nat>, W: nat, offset: int, wraps: bool) returns (r: int)
    requires Words(b, W)
    ensures offset < 0 ==> r == -1
    ensures 0 <= offset ==> (FirstFrom(b, W, offset, r) <==> !Misread(b, W, offset, wraps))
    ensures r == -1 || (0 <= r && IsSet(b, W, r))
    ensures 0 <= offset && Misread(b, W, offset, wraps) ==>
              W <= offset && 0 <= r < offset && FirstFrom(b, W, offset - W, r)
  {
    forall k: nat | |b| * W <= k ensures !IsSet(b, W, k) {
      Beyond(b, W, k);
    }
    if offset < 0 || |b| * W < offset {
      forall j | 0 <= j < |b| ensures j * W + W < offset || offset < 0 {
        WordOrder(W, j, |b|);
      }
      return -1;
    }
    for i := 0 to |b|
      invariant forall k: nat :: offset <= k < i * W ==> !IsSet(b, W, k)
      invariant forall j :: 0 <= j < i ==> !MisreadAt(b, W, offset, wraps, j)
    {
      assert (i + 1) * W == i * W + W;
      r := NextInWord(b, W, i, offset, wraps);
      if r != -1 {
        forall j | i < j < |b| && offset < i * W + W ensures !MisreadAt(b, W, offset, wraps, j) {
          WordOrder(W, i, j);
        }
        return;
      }
    }
    r := -1;
  }

  /** The first set bit of a word is the first one from where the word begins. */
  lemma FirstOfWord(b: seq<nat>, W: nat, i: nat)
    requires Words(b, W) && i < |b| && b[i] != 0
    ensures LowestBit(b[i]) < W && FirstFrom(b, W, i * W, LowestBit(b[i]) + i * W)
  {
    SomeBit(b, W, i);
    var r := LowestBit(b[i]) + i * W;
    InWord(b, W, i, r);
    forall k: nat | i * W <= k < r ensures !IsSet(b, W, k) {
      InWord(b, W, i, k);
    }
  }

  lemma WrappedFirst(b: seq<nat>, W: nat, i: nat, offset: nat)
    requires Words(b, W) && i < |b| && b[i] != 0 && i * W + W == offset
    ensures W <= offset && LowestBit(b[i]) + i * W < offset
    ensures FirstFrom(b, W, offset - W, LowestBit(b[i]) + i * W)
  {
    FirstOfWord(b, W, i);
    assert offset - W == i * W;
  }

  lemma NothingMasked(b: seq<nat>, W: nat, i: nat, offset: nat, wraps: bool)
    requires Words(b, W) && i < |b| && offset <= i * W + W && (offset == i * W + W ==> !wraps)
    requires Masked(b, W, i, offset, wraps) == 0
    ensures forall k: nat :: offset <= k && i * W <= k < i * W + W ==> !IsSet(b, W, k)
  {
    forall k: nat | i * W <= k < i * W + W && offset <= k ensures !IsSet(b, W, k) {
      MaskedBit(b, W, i, offset, wraps, k);
      ZeroBit(k - i * W);
    }
  }

  lemma WordOrder(W: nat, i: nat, j: nat)
    requires i < j
    ensures i * W + W <= j * W
  {
    MulMono(i + 1, j, W);
    assert (i + 1) * W == i * W + W;
  }

  /** The answer from a word whose masked reading is not zero. */
  method FoundIn(b: seq<nat>, W: nat, i: nat, offset: nat, wraps: bool) returns (r: nat)
    requires Words(b, W) && i < |b| && offset <= i * W + W && (offset == i * W + W ==> !wraps)
    requires Masked(b, W, i, offset, wraps) != 0
    ensures i * W <= r && offset <= r && IsSet(b, W, r)
    ensures forall k: nat :: offset <= k < r && i * W <= k ==> !IsSet(b, W, k)
  {
    var tmp := Masked(b, W, i, offset, wraps);
    r := LowestBit(tmp) + i * W;
    MaskedBound(b, W, i, offset, wraps, LowestBit(tmp));
    MaskedBit(b, W, i, offset, wraps, r);
    forall k: nat | i * W <= k < r ensures offset <= k ==> !IsSet(b, W, k) {
      MaskedBit(b, W, i, offset, wraps, k);
    }
  }

  /** The word `i` as `resch_fps` reads it: `~0UL >> (W - 1 - (offset - i * W))` keeps the bits up to the offset. */
  function MaskedTo(b: seq<nat>, W: nat, i: nat, offset: nat): nat
    requires i < |b| && i * W <= offset
  {
    if i * W + W > offset then And(b[i], Pow2(offset - i * W + 1) - 1) else b[i]
  }

  lemma MaskedToBit(b: seq<nat>, W: nat, i: nat, offset: nat, k: nat)
    requires 0 < W && i < |b| && i * W <= offset && i * W <= k < i * W + W
    ensures Bit(MaskedTo(b, W, i, offset), k - i * W) <==> k <= offset && IsSet(b, W, k)
  {
    InWord(b, W, i, k);
    if i * W + W > offset {
      AndBit(b[i], Pow2(offset - i * W + 1) - 1, k - i * W);
      OnesBit(offset - i * W + 1, k - i * W);
    }
  }

  method FoundLastIn(b: seq<nat>, W: nat, i: nat, offset: nat) returns (r: nat)
    requires Words(b, W) && i < |b| && i * W <= offset && MaskedTo(b, W, i, offset) != 0
    ensures i * W <= r <= offset && IsSet(b, W, r)
    ensures forall k: nat :: r < k <= offset && k < i * W + W ==> !IsSet(b, W, k)
  {
    var tmp := MaskedTo(b, W, i, offset);
    var j := HighestBit(tmp);
    if i * W + W > offset {
      AndBit(b[i], Pow2(offset - i * W + 1) - 1, j);
    }
    BitBelow(b[i], W, j);
    r := j + i * W;
    MaskedToBit(b, W, i, offset, r);
    forall k: nat | r < k < i * W + W ensures k <= offset ==> !IsSet(b, W, k) {
      MaskedToBit(b, W, i, offset, k);
      AboveHighest(tmp, k - i * W);
    }
  }

  /** `resch_fps`: the last set bit at or before the offset. */
  method FindPrevious(b: seq<nat>, W: nat, offset: int) returns (r: int)
    requires Words(b, W)
    ensures offset < 0 || |b| * W < offset ==> r == -1
    ensures offset <= |b| * W ==> LastUpTo(b, W, offset, r)
  {
    if offset < 0 || |b| * W < offset {
      return -1;
    }
    Beyond(b, W, |b| * W);
    var i := |b|;
    while i > 0
      invariant 0 <= i <= |b|
      invariant forall k: nat :: i * W <= k <= offset ==> !IsSet(b, W, k)
    {
      i := i - 1;
      assert (i + 1) * W == i * W + W;
      if i * W > offset {
        continue;
      }
      if MaskedTo(b, W, i, offset) != 0 {
        r := FoundLastIn(b, W, i, offset);
        return;
      }
      forall k: nat | i * W <= k < i * W + W ensures k <= offset ==> !IsSet(b, W, k) {
        ZeroBit(k - i * W);
        MaskedToBit(b, W, i, offset, k);
      }
    }
    r := -1;
  }

  // ---------------------------------------------------------------- setting and clearing

  lemma {:induction false} PowerBit(j: nat, k: nat)
    ensures Bit(Pow2(j), k) <==> k == j
    decreases j
  {
    if j == 0 {
      if k > 0 { ZeroBit(k - 1); }
    } else if k > 0 {
      PowerBit(j - 1, k - 1);
    }
  }

  lemma {:induction false} PowerBelow(j: nat, n: nat)
    requires j < n
    ensures Pow2(j) < Pow2(n)
  {
    if j < n - 1 {
      PowerBelow(j, n - 1);
    }
  }

  lemma {:induction false} OrBelow(x: nat, y: nat, n: nat)
    requires x < Pow2(n) && y < Pow2(n)
    ensures Or(x, y) < Pow2(n)
    decreases n
  {
    if x != 0 && y != 0 {
      OrBelow(x / 2, y / 2, n - 1);
    }
  }

  lemma {:induction false} AndBelow(x: nat, y: nat)
    ensures And(x, y) <= x
  {
    if x != 0 && y != 0 {
      AndBelow(x / 2, y / 2);
    }
  }

  /** `__set_bit`. */
  function SetBit(b: seq<nat>, W: nat, k: nat): seq<nat>
    requires 0 < W && k / W < |b|
  {
    b[k / W := Or(b[k / W], Pow2(k % W))]
  }

  /** `__clear_bit`. */
  function ClearBit(b: seq<nat>, W: nat, k: nat): seq<nat>
    requires Words(b, W) && k / W < |b|
  {
    PowerBelow(k % W, W);
    b[k / W := And(b[k / W], Not(Pow2(k % W), W))]
  }

  lemma SamePlace(W: nat, j: nat, k: nat)
    requires 0 < W
    ensures j / W == k / W && j % W == k % W <==> j == k
  {
    assert j == j / W * W + j % W && k == k / W * W + k % W;
  }

  lemma AddedBit(b: seq<nat>, W: nat, k: nat, j: nat)
    requires Words(b, W) && k / W < |b|
    ensures IsSet(SetBit(b, W, k), W, j) <==> j == k || IsSet(b, W, j)
  {
    SamePlace(W, j, k);
    if j / W == k / W {
      OrBit(b[k / W], Pow2(k % W), j % W);
      PowerBit(k % W, j % W);
    }
  }

  lemma SetBitSets(b: seq<nat>, W: nat, k: nat)
    requires Words(b, W) && k / W < |b|
    ensures Words(SetBit(b, W, k), W)
    ensures forall j: nat :: IsSet(SetBit(b, W, k), W, j) <==> j == k || IsSet(b, W, j)
  {
    PowerBelow(k % W, W);
    OrBelow(b[k / W], Pow2(k % W), W);
    forall j: nat ensures IsSet(SetBit(b, W, k), W, j) <==> j == k || IsSet(b, W, j) {
      AddedBit(b, W, k, j);
    }
  }

  lemma ClearedBit(b: seq<nat>, W: nat, k: nat, j: nat)
    requires Words(b, W) && k / W < |b|
    ensures IsSet(ClearBit(b, W, k), W, j) <==> j != k && IsSet(b, W, j)
  {
    PowerBelow(k % W, W);
    SamePlace(W, j, k);
    AndBit(b[k / W], Not(Pow2(k % W), W), j % W);
    NotBit(Pow2(k % W), W, j % W);
    PowerBit(k % W, j % W);
  }

  lemma ClearBitClears(b: seq<nat>, W: nat, k: nat)
    requires Words(b, W) && k / W < |b|
    ensures Words(ClearBit(b, W, k), W)
    ensures forall j: nat :: IsSet(ClearBit(b, W, k), W, j) <==> j != k && IsSet(b, W, j)
  {
    PowerBelow(k % W, W);
    AndBelow(b[k / W], Not(Pow2(k % W), W));
    forall j: nat ensures IsSet(ClearBit(b, W, k), W, j) <==> j != k && IsSet(b, W, j) {
      ClearedBit(b, W, k, j);
    }
  }
}

/** Power-of-two arithmetic shared by the memory modules: shifts, naturally aligned blocks, and the
    buddy of a block. Each operation is defined one bit at a time, so that the proofs about it follow
    the bits; `ShiftIsDivision` and `AlignedIsModulo` give the usual arithmetic readings. */
module Dyadic {

  function Pow2(k: nat): (r: nat)
    ensures r > 0
  {
    if k == 0 then 1 else 2 * Pow2(k - 1)
  }

  /** `x >> k` */
  function Shr(x: nat, k: nat): (r: nat)
    decreases k
  {
    if k == 0 then x else Shr(x / 2, k - 1)
  }

  /** `x & ((1 << k) - 1) == 0` */
  predicate Aligned(x: nat, k: nat)
    decreases k
  {
    k == 0 || (x % 2 == 0 && Aligned(x / 2, k - 1))
  }

  /** `x ^ (1 << k)`: for an aligned block, the other half of the next larger block. */
  function Buddy(x: nat, k: nat): (r: nat)
    decreases k
  {
    if k > 0 then 2 * Buddy(x / 2, k - 1) + x % 2
    else if x % 2 == 0 then x + 1
    else x - 1
  }

  function Min(a: nat, b: nat): nat { if a < b then a else b }

  function Max(a: nat, b: nat): nat { if a < b then b else a }

  function DivCeil(a: nat, b: nat): nat
    requires b > 0
  {
    (a + b - 1) / b
  }

  lemma {:induction false} Pow2Monotone(j: nat, k: nat)
    requires j <= k
    ensures Pow2(j) <= Pow2(k)
    ensures j < k ==> 2 * Pow2(j) <= Pow2(k)
  {
    if j < k {
      Pow2Monotone(j, k - 1);
    }
  }

  /** Order of multiples follows order of the factors. */
  lemma MulOrder(p: int, q: int, d: nat)
    ensures p <= q ==> p * d <= q * d
    ensures p < q ==> p * d + d <= q * d
  {
    if p < q {
      assert (q - p - 1) * d >= 0;
      assert (q - p - 1) * d == q * d - p * d - d;
    }
  }

  /** Division is determined by its quotient and remainder. */
  lemma DivisionUnique(x: int, d: nat, q: int, r: int)
    requires d > 0 && x == q * d + r && 0 <= r < d
    ensures x / d == q && x % d == r
  {
    MulOrder(x / d, q, d);
    MulOrder(q, x / d, d);
  }

  lemma DivCeilBounds(a: nat, b: nat)
    requires b > 0
    ensures DivCeil(a, b) * b >= a
    ensures DivCeil(a, b) > 0 ==> (DivCeil(a, b) - 1) * b < a
    ensures forall q: nat :: q * b >= a ==> DivCeil(a, b) <= q
  {
    var c := DivCeil(a, b);
    assert (c - 1) * b == c * b - b;
    forall q: nat | q * b >= a ensures c <= q {
      MulOrder(q, c - 1, b);
    }
  }

  lemma MulDouble(q: int, d: int)
    ensures q * (2 * d) == 2 * (q * d)
  {
  }

  lemma {:induction false} ShiftBounds(x: nat, k: nat)
    ensures Shr(x, k) * Pow2(k) <= x < Shr(x, k) * Pow2(k) + Pow2(k)
  {
    if k > 0 {
      ShiftBounds(x / 2, k - 1);
      MulDouble(Shr(x, k), Pow2(k - 1));
    }
  }

  lemma ShiftIsDivision(x: nat, k: nat)
    ensures Shr(x, k) == x / Pow2(k)
  {
    ShiftBounds(x, k);
    DivisionUnique(x, Pow2(k), Shr(x, k), x - Shr(x, k) * Pow2(k));
  }

  lemma {:induction false} AlignedIsMultiple(x: nat, k: nat)
    ensures Aligned(x, k) <==> x == Shr(x, k) * Pow2(k)
  {
    if k > 0 {
      AlignedIsMultiple(x / 2, k - 1);
      ShiftBounds(x / 2, k - 1);
      MulDouble(Shr(x, k), Pow2(k - 1));
    }
  }

  lemma AlignedIsModulo(x: nat, k: nat)
    ensures Aligned(x, k) <==> x % Pow2(k) == 0
  {
    AlignedIsMultiple(x, k);
    ShiftIsDivision(x, k);
  }

  lemma {:induction false} MultipleAligned(q: nat, k: nat)
    ensures Aligned(q * Pow2(k), k) && Shr(q * Pow2(k), k) == q
  {
    if k > 0 {
      MultipleAligned(q, k - 1);
      MulDouble(q, Pow2(k - 1));
    }
  }

  /** Alignment to a larger power of two implies alignment to a smaller one. */
  lemma {:induction false} AlignedWeaken(x: nat, j: nat, k: nat)
    requires j <= k && Aligned(x, k)
    ensures Aligned(x, j)
  {
    if j > 0 {
      AlignedWeaken(x / 2, j - 1, k - 1);
    }
  }

  lemma {:induction false} AlignedSum(x: nat, y: nat, k: nat)
    requires Aligned(x, k) && Aligned(y, k)
    ensures Aligned(x + y, k)
  {
    if k > 0 {
      AlignedSum(x / 2, y / 2, k - 1);
      assert (x + y) / 2 == x / 2 + y / 2;
    }
  }

  /** Two aligned blocks, the first no larger, are nested or disjoint. */
  lemma {:induction false} NestedOrDisjoint(a: nat, j: nat, b: nat, k: nat)
    requires j <= k && Aligned(a, j) && Aligned(b, k)
    ensures (b <= a && a + Pow2(j) <= b + Pow2(k)) || a + Pow2(j) <= b || b + Pow2(k) <= a
  {
    if j > 0 {
      NestedOrDisjoint(a / 2, j - 1, b / 2, k - 1);
    }
  }

  /** A block and its buddy are distinct, equally aligned, and together are one block of the next order. */
  lemma {:induction false} BuddyProperties(x: nat, k: nat)
    requires Aligned(x, k)
    ensures Aligned(Buddy(x, k), k)
    ensures Buddy(Buddy(x, k), k) == x
    ensures Aligned(Min(x, Buddy(x, k)), k + 1)
    ensures Buddy(x, k) == x + Pow2(k) || x == Buddy(x, k) + Pow2(k)
  {
    if k > 0 {
      BuddyProperties(x / 2, k - 1);
      assert Min(x, Buddy(x, k)) / 2 == Min(x / 2, Buddy(x / 2, k - 1));
    }
  }

  /** The lower half of a block of order k + 1 has the upper half as its buddy. */
  lemma {:induction false} HalvesAreBuddies(x: nat, k: nat)
    requires Aligned(x, k + 1)
    ensures Aligned(x, k) && Aligned(x + Pow2(k), k)
    ensures Buddy(x, k) == x + Pow2(k) && Buddy(x + Pow2(k), k) == x
  {
    if k > 0 {
      HalvesAreBuddies(x / 2, k - 1);
      assert (x + Pow2(k)) / 2 == x / 2 + Pow2(k - 1);
    }
  }
}

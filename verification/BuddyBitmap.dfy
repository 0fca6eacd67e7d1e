/** Which blocks are free, as bits in 64-bit words: a bit for every place at which a block of an order can start. */
module BuddyBitmap {
  import opened Prelude
  import opened Dyadic
  import opened BuddySpec

  // ---- one word -----------------------------------------------------------------
  //
  // A `u64` word is a `Word`. Its single-bit operations are written one bit at a
  // time, like the shifts of `Dyadic`.

  /** `(w >> i) & 1 != 0` */
  predicate TestBit(w: nat, i: nat) {
    Shr(w, i) % 2 == 1
  }

  /** `w | (1 << i)` when `on`, else `w & !(1 << i)` */
  function PutBit(w: nat, i: nat, on: bool): nat
    decreases i
  {
    if i > 0 then 2 * PutBit(w / 2, i - 1, on) + w % 2
    else 2 * (w / 2) + if on then 1 else 0
  }

  lemma {:induction false} PutBitTest(w: nat, i: nat, on: bool, j: nat)
    ensures TestBit(PutBit(w, i, on), j) <==> if i == j then on else TestBit(w, j)
    decreases i
  {
    var w' := PutBit(w, i, on);
    if i > 0 && j > 0 {
      PutBitTest(w / 2, i - 1, on, j - 1);
      assert w' / 2 == PutBit(w / 2, i - 1, on);
    } else if j > 0 {
      assert w' / 2 == w / 2;
    }
  }

  lemma {:induction false} PutBitInWord(w: nat, i: nat, on: bool, k: nat)
    requires w < Pow2(k) && i < k
    ensures PutBit(w, i, on) < Pow2(k)
    decreases i
  {
    if i > 0 {
      PutBitInWord(w / 2, i - 1, on, k - 1);
    }
  }

  lemma WordWidth()
    ensures Pow2(64) == 0x1_0000_0000_0000_0000
  {
    assert Pow2(8) == 256;
    assert Pow2(16) == 65536;
    assert Pow2(24) == 0x100_0000;
    assert Pow2(32) == 0x1_0000_0000;
    assert Pow2(40) == 0x100_0000_0000;
    assert Pow2(48) == 0x1_0000_0000_0000;
    assert Pow2(56) == 0x100_0000_0000_0000;
  }

  // ---- the packed map -------------------------------------------------------------

  predicate BitAt(words: seq<Word>, b: nat)
    requires b < 64 * |words|
  {
    TestBit(words[b / 64], b % 64)
  }

  function PutBitAt(words: seq<Word>, b: nat, on: bool): (r: seq<Word>)
    requires b < 64 * |words|
  {
    WordWidth();
    PutBitInWord(words[b / 64], b % 64, on, 64);
    words[b / 64 := PutBit(words[b / 64], b % 64, on)]
  }

  lemma PutBitAtTest(words: seq<Word>, b: nat, on: bool, c: nat)
    requires b < 64 * |words| && c < 64 * |words|
    ensures BitAt(PutBitAt(words, b, on), c) <==> if b == c then on else BitAt(words, c)
  {
    if b / 64 == c / 64 {
      PutBitTest(words[b / 64], b % 64, on, c % 64);
    }
  }

  // ---- bit numbering ----------------------------------------------------------------

  /** Bits used by the orders below `k` when `n` frames are managed. */
  function BitBase(n: nat, k: nat): nat {
    if k == 0 then 0 else BitBase(n, k - 1) + DivCeil(n, Pow2(k - 1))
  }

  function BitIndex(n: nat, k: nat, x: nat): nat {
    BitBase(n, k) + Shr(x, k)
  }

  lemma {:induction false} BitBaseMonotone(n: nat, j: nat, k: nat)
    ensures j <= k ==> BitBase(n, j) <= BitBase(n, k)
    decreases k
  {
    if j < k { BitBaseMonotone(n, j, k - 1); }
  }

  /** A bit of order `k` stays inside the region of order `k`. */
  lemma BitIndexInRegion(n: nat, k: nat, x: nat)
    requires x < n
    ensures BitBase(n, k) <= BitIndex(n, k, x) < BitBase(n, k + 1)
  {
    ShiftBounds(x, k);
    DivCeilBounds(n, Pow2(k));
    MulOrder(DivCeil(n, Pow2(k)), Shr(x, k), Pow2(k));
  }

  /** No two blocks share a bit. */
  lemma BitIndexInjective(n: nat, k: nat, x: nat, j: nat, y: nat)
    requires x < n && y < n && Aligned(x, k) && Aligned(y, j)
    requires BitIndex(n, k, x) == BitIndex(n, j, y)
    ensures k == j && x == y
  {
    BitIndexInRegion(n, k, x);
    BitIndexInRegion(n, j, y);
    BitBaseMonotone(n, k + 1, j);
    BitBaseMonotone(n, j + 1, k);
    AlignedIsMultiple(x, k);
    AlignedIsMultiple(y, j);
  }

  /** Every bit lies inside storage sized for `total >= n` frames. */
  lemma BitIndexInStorage(n: nat, k: nat, x: nat)
    requires x < n && k <= MAX_ORDER
    ensures BitIndex(n, k, x) < BitBase(n, MAX_ORDER + 1)
  {
    BitIndexInRegion(n, k, x);
    BitBaseMonotone(n, k + 1, MAX_ORDER + 1);
  }

  lemma {:induction false} BitBaseGrows(n: nat, total: nat, k: nat)
    requires n <= total
    ensures BitBase(n, k) <= BitBase(total, k)
  {
    if k > 0 {
      BitBaseGrows(n, total, k - 1);
      DivCeilBounds(total, Pow2(k - 1));
      DivCeilBounds(n, Pow2(k - 1));
      assert DivCeil(total, Pow2(k - 1)) * Pow2(k - 1) >= n;
    }
  }

  /** Bit (k, x) is set exactly when the aligned block at `x` is on list `k`. */
  ghost predicate BitsAgree(n: nat, words: seq<Word>, lists: Lists)
    requires |lists| == MAX_ORDER + 1 && BitBase(n, MAX_ORDER + 1) <= 64 * |words|
  {
    forall k, x {:trigger BitSet(n, words, k, x)} | 0 <= k <= MAX_ORDER && 0 <= x < n && Aligned(x, k) ::
      BitSet(n, words, k, x) <==> x in lists[k]
  }

  predicate BitSet(n: nat, words: seq<Word>, k: nat, x: nat)
    requires k <= MAX_ORDER && x < n && BitBase(n, MAX_ORDER + 1) <= 64 * |words|
  {
    BitIndexInStorage(n, k, x);
    BitAt(words, BitIndex(n, k, x))
  }

  /** Writing the bit of one block leaves the bits of all the others. */
  lemma WriteBit(n: nat, words: seq<Word>, lists: Lists, lists': Lists, k: nat, x: nat, on: bool)
    requires |lists| == |lists'| == MAX_ORDER + 1 && BitBase(n, MAX_ORDER + 1) <= 64 * |words|
    requires k <= MAX_ORDER && x < n && Aligned(x, k)
    requires BitsAgree(n, words, lists)
    requires forall j | 0 <= j <= MAX_ORDER && j != k :: lists'[j] == lists[j]
    requires forall y | y != x :: y in lists'[k] <==> y in lists[k]
    requires x in lists'[k] <==> on
    ensures BitIndex(n, k, x) < 64 * |words|
    ensures BitsAgree(n, PutBitAt(words, BitIndex(n, k, x), on), lists')
  {
    BitIndexInStorage(n, k, x);
    var words' := PutBitAt(words, BitIndex(n, k, x), on);
    forall j, y | 0 <= j <= MAX_ORDER && 0 <= y < n && Aligned(y, j)
      ensures BitSet(n, words', j, y) <==> y in lists'[j]
    {
      BitIndexInStorage(n, j, y);
      PutBitAtTest(words, BitIndex(n, k, x), on, BitIndex(n, j, y));
      assert BitSet(n, words, j, y) <==> y in lists[j];
      if BitIndex(n, k, x) == BitIndex(n, j, y) { BitIndexInjective(n, k, x, j, y); }
    }
  }
}

/** Powers of two, right shifts and alignment. */
module Powers {

  const TWO31: nat := 0x8000_0000
  const TWO32: nat := 0x1_0000_0000
  const TWO64: nat := 0x1_0000_0000_0000_0000

  function Pow2(k: nat): (r: nat)
    ensures r >= 1
  {
    if k == 0 then 1 else 2 * Pow2(k - 1)
  }

  /** x >> k. */
  function Shr(x: nat, k: nat): nat {
    if k == 0 then x else Shr(x / 2, k - 1)
  }

  /** The low k bits of x are zero. */
  predicate Aligned(x: nat, k: nat) {
    k == 0 || (x % 2 == 0 && Aligned(x / 2, k - 1))
  }

  predicate BitSet(x: nat, k: nat) {
    Shr(x, k) % 2 == 1
  }

  lemma {:induction false} Pow2Monotone(j: nat, k: nat)
    requires j <= k
    ensures Pow2(j) <= Pow2(k)
    ensures j < k ==> 2 * Pow2(j) <= Pow2(k)
  {
    if j == k {
    } else {
      Pow2Monotone(j, k - 1);
    }
  }

  /** A shift is division by the power, and alignment is divisibility by it. */
  lemma {:induction false} ShrDivides(x: nat, k: nat)
    ensures Shr(x, k) * Pow2(k) <= x < Shr(x, k) * Pow2(k) + Pow2(k)
    ensures Aligned(x, k) <==> x == Shr(x, k) * Pow2(k)
  {
    if k == 0 {
    } else {
      ShrDivides(x / 2, k - 1);
      DoubleProduct(Shr(x, k), Pow2(k - 1));
    }
  }

  lemma DoubleProduct(q: nat, m: nat)
    ensures q * (2 * m) == 2 * (q * m)
  {
  }

  lemma {:induction false} AlignedDown(x: nat, j: nat, k: nat)
    requires j <= k && Aligned(x, k)
    ensures Aligned(x, j)
  {
    if j == 0 {
    } else {
      AlignedDown(x / 2, j - 1, k - 1);
    }
  }

  lemma {:induction false} ZeroAligned(k: nat)
    ensures Aligned(0, k)
  {
    if k == 0 {
    } else {
      ZeroAligned(k - 1);
    }
  }

  lemma {:induction false} Pow2Aligned(j: nat, k: nat)
    requires j <= k
    ensures Aligned(Pow2(k), j)
  {
    if j == 0 {
    } else {
      assert Pow2(k) / 2 == Pow2(k - 1);
      Pow2Aligned(j - 1, k - 1);
    }
  }

  lemma {:induction false} AlignedSum(x: nat, y: nat, k: nat)
    requires Aligned(x, k) && Aligned(y, k)
    ensures Aligned(x + y, k)
    ensures x <= y ==> Aligned(y - x, k)
  {
    if k == 0 {
    } else {
      AlignedSum(x / 2, y / 2, k - 1);
      assert (x + y) / 2 == x / 2 + y / 2;
      assert x <= y ==> (y - x) / 2 == y / 2 - x / 2;
    }
  }

  /** Distinct multiples of 2^k are at least 2^k apart. */
  lemma {:induction false} AlignedGap(x: nat, y: nat, k: nat)
    requires Aligned(x, k) && Aligned(y, k) && x < y
    ensures x + Pow2(k) <= y
  {
    if k == 0 {
    } else {
      AlignedGap(x / 2, y / 2, k - 1);
    }
  }

  /** Distinct multiples of 2^k stay distinct when shifted. */
  lemma {:induction false} ShrInjective(x: nat, y: nat, k: nat)
    requires Aligned(x, k) && Aligned(y, k) && Shr(x, k) == Shr(y, k)
    ensures x == y
  {
    if k == 0 {
    } else {
      ShrInjective(x / 2, y / 2, k - 1);
    }
  }

  lemma {:induction false} ShrBound(x: nat, k: nat, n: nat)
    requires k <= n && x < Pow2(n)
    ensures Shr(x, k) < Pow2(n - k)
  {
    if k == 0 {
    } else {
      ShrBound(x / 2, k - 1, n - 1);
    }
  }

  lemma {:induction false} BitMeansLarge(x: nat, k: nat)
    requires BitSet(x, k)
    ensures x >= Pow2(k)
  {
    if k == 0 {
    } else {
      BitMeansLarge(x / 2, k - 1);
    }
  }

  /** A number is determined by its bits. */
  lemma {:induction false} SameBits(x: nat, y: nat)
    requires forall j: nat :: BitSet(x, j) <==> BitSet(y, j)
    ensures x == y
    decreases x + y
  {
    if x + y == 0 {
    } else {
      assert BitSet(x, 0) <==> BitSet(y, 0);
      forall j: nat ensures BitSet(x / 2, j) <==> BitSet(y / 2, j) {
        assert BitSet(x, j + 1) <==> BitSet(y, j + 1);
      }
      SameBits(x / 2, y / 2);
    }
  }

  /** Bit k of a multiple of 2^k tells whether it is also a multiple of 2^(k+1). */
  lemma {:induction false} BitOfAligned(x: nat, k: nat)
    requires Aligned(x, k)
    ensures BitSet(x, k) <==> !Aligned(x, k + 1)
    ensures BitSet(x, k) ==> x >= Pow2(k) && Aligned(x - Pow2(k), k + 1)
    ensures !BitSet(x, k) ==> Aligned(x + Pow2(k), k) && BitSet(x + Pow2(k), k)
  {
    if k == 0 {
      assert Aligned(x, 1) <==> x % 2 == 0;
      assert Shr(x + 1, 0) == x + 1;
      if x > 0 {
        assert Aligned(x - 1, 1) <==> (x - 1) % 2 == 0;
      }
    } else {
      BitOfAligned(x / 2, k - 1);
      if BitSet(x, k) {
        assert (x - Pow2(k)) / 2 == x / 2 - Pow2(k - 1);
      } else {
        assert (x + Pow2(k)) / 2 == x / 2 + Pow2(k - 1);
      }
    }
  }
}

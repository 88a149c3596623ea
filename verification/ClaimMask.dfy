/** The 64-bit mask of claimed rewards, as a number whose binary digits are the flags. */
module ClaimMask {

  const MASK_BITS := 64

  predicate Bit(mask: nat, i: nat) {
    if i == 0 then mask % 2 == 1 else Bit(mask / 2, i - 1)
  }

  /** `mask | (1 << i)`. */
  function SetBit(mask: nat, i: nat): nat {
    if i == 0 then mask / 2 * 2 + 1 else SetBit(mask / 2, i - 1) * 2 + mask % 2
  }

  function Popcount(mask: nat): nat {
    if mask == 0 then 0 else mask % 2 + Popcount(mask / 2)
  }

  function Pow2(n: nat): nat {
    if n == 0 then 1 else 2 * Pow2(n - 1)
  }

  lemma {:induction false} SetBitBits(mask: nat, i: nat, j: nat)
    ensures Bit(SetBit(mask, i), j) <==> Bit(mask, j) || j == i
    decreases i
  {
    if i > 0 {
      assert SetBit(mask, i) % 2 == mask % 2 && SetBit(mask, i) / 2 == SetBit(mask / 2, i - 1);
      if j > 0 {
        SetBitBits(mask / 2, i - 1, j - 1);
      }
    } else {
      assert SetBit(mask, 0) % 2 == 1 && SetBit(mask, 0) / 2 == mask / 2;
    }
  }

  /** Setting a flag keeps the mask in its width. */
  lemma {:induction false} SetBitWidth(mask: nat, i: nat, n: nat)
    requires i < n && mask < Pow2(n)
    ensures SetBit(mask, i) < Pow2(n)
    decreases n
  {
    if i > 0 {
      assert mask / 2 < Pow2(n - 1);
      SetBitWidth(mask / 2, i - 1, n - 1);
      assert SetBit(mask, i) == SetBit(mask / 2, i - 1) * 2 + mask % 2;
    }
  }

  lemma {:induction false} SetBitCounts(mask: nat, i: nat)
    requires !Bit(mask, i)
    ensures Popcount(SetBit(mask, i)) == Popcount(mask) + 1
    decreases i
  {
    if i == 0 {
      assert SetBit(mask, 0) / 2 == mask / 2 && SetBit(mask, 0) % 2 == 1;
    } else {
      assert SetBit(mask, i) % 2 == mask % 2 && SetBit(mask, i) / 2 == SetBit(mask / 2, i - 1);
      SetBitCounts(mask / 2, i - 1);
    }
  }

  ghost predicate AllSet(mask: nat, k: nat) {
    forall i: nat :: i < k ==> Bit(mask, i)
  }

  lemma AllSetHalf(mask: nat, k: nat)
    requires k > 0
    ensures AllSet(mask, k) <==> mask % 2 == 1 && AllSet(mask / 2, k - 1)
  {
    if AllSet(mask, k) {
      assert Bit(mask, 0);
      forall i: nat | i < k - 1 ensures Bit(mask / 2, i) {
        assert Bit(mask, i + 1);
      }
    }
    if mask % 2 == 1 && AllSet(mask / 2, k - 1) {
      forall i: nat | i < k ensures Bit(mask, i) {
        if i > 0 {
          var half := mask / 2;
          assert Bit(half, i - 1);
        }
      }
    }
  }

  /** A mask whose flags are all below `k` has at most `k` of them, and exactly `k` when all are set. */
  lemma {:induction false} PopcountFull(mask: nat, k: nat)
    requires forall i: nat :: Bit(mask, i) ==> i < k
    ensures Popcount(mask) <= k && (Popcount(mask) == k <==> AllSet(mask, k))
    decreases k
  {
    if k == 0 {
      NoBits(mask);
    } else {
      forall i: nat | Bit(mask / 2, i) ensures i < k - 1 {
        assert Bit(mask, i + 1);
      }
      PopcountFull(mask / 2, k - 1);
      AllSetHalf(mask, k);
      assert Popcount(mask) == mask % 2 + Popcount(mask / 2);
    }
  }

  lemma {:induction false} NoBits(mask: nat)
    requires forall i: nat :: !Bit(mask, i)
    ensures mask == 0
  {
    assert !Bit(mask, 0);
    if mask > 0 {
      forall i: nat ensures !Bit(mask / 2, i) {
        assert !Bit(mask, i + 1);
      }
      NoBits(mask / 2);
    }
  }

  lemma {:induction false} ZeroHasNoBits(i: nat)
    ensures !Bit(0, i)
  {
    if i > 0 {
      ZeroHasNoBits(i - 1);
    }
  }

  /** A mask is its set of flags. */
  lemma {:induction false} SameBitsSameMask(a: nat, b: nat)
    requires forall i: nat :: Bit(a, i) <==> Bit(b, i)
    ensures a == b
  {
    assert Bit(a, 0) <==> Bit(b, 0);
    if a > 0 || b > 0 {
      forall i: nat ensures Bit(a / 2, i) <==> Bit(b / 2, i) {
        assert Bit(a, i + 1) <==> Bit(b, i + 1);
      }
      SameBitsSameMask(a / 2, b / 2);
    }
  }
}

/** Powers of two and right shifts over unbounded naturals, as the source uses them on unsigned words. */
module Bits {

  /** 1 << k */
  function Pow2(k: nat): nat {
    if k == 0 then 1 else 2 * Pow2(k - 1)
  }

  /** x >> k */
  function Shr(x: nat, k: nat): nat {
    if k == 0 then x else Shr(x, k - 1) / 2
  }

  /** x << k */
  function Shl(x: nat, k: nat): nat {
    if k == 0 then x else 2 * Shl(x, k - 1)
  }

  /** Whether bit k of x is set: x & (1 << k) != 0 */
  predicate Bit(x: nat, k: nat) {
    Shr(x, k) % 2 == 1
  }

  /** Some bit of x below position k is set: x is not a multiple of 2^k. */
  predicate Ragged(x: nat, k: nat) {
    k > 0 && (Ragged(x, k - 1) || Bit(x, k - 1))
  }

  /** Shifting peels low bits one at a time from either end. */
  lemma {:induction false} ShrHalf(x: nat, k: nat)
    ensures Shr(x / 2, k) == Shr(x, k + 1)
  {
    if k > 0 {
      ShrHalf(x, k - 1);
    }
  }

  lemma {:induction false} RaggedHalf(x: nat, k: nat)
    ensures Ragged(x, k + 1) <==> x % 2 == 1 || Ragged(x / 2, k)
  {
    if k > 0 {
      RaggedHalf(x, k - 1);
      ShrHalf(x, k - 1);
    }
  }

  lemma {:induction false} ShlDouble(x: nat, k: nat)
    ensures Shl(2 * x, k) == Shl(x, k + 1)
  {
    if k > 0 {
      ShlDouble(x, k - 1);
    }
  }

  lemma {:induction false} ShlGrows(x: nat, k: nat)
    ensures Shl(x, k) < Shl(x + 1, k)
  {
    if k > 0 {
      ShlGrows(x, k - 1);
    }
  }

  /** A number shifts to x exactly when it lies in the block that starts at x << k. */
  lemma {:induction false} BlockRange(p: nat, k: nat, x: nat)
    ensures Shl(x, k) <= p < Shl(x + 1, k) <==> Shr(p, k) == x
  {
    if k > 0 {
      ShrHalf(p, k - 1);
      BlockRange(p / 2, k - 1, x);
    }
  }

  lemma {:induction false} ShrMonotone(x: nat, y: nat, k: nat)
    requires x <= y
    ensures Shr(x, k) <= Shr(y, k)
  {
    if k > 0 {
      ShrMonotone(x, y, k - 1);
    }
  }

  lemma {:induction false} ShrShrinks(x: nat, k: nat, h: nat)
    requires k <= h
    ensures Shr(x, h) <= Shr(x, k)
  {
    if k < h {
      ShrShrinks(x, k, h - 1);
    }
  }

  lemma {:induction false} Pow2Monotone(j: nat, k: nat)
    requires j <= k
    ensures 1 <= Pow2(j) <= Pow2(k)
  {
    if j < k {
      Pow2Monotone(j, k - 1);
    } else if 0 < j {
      Pow2Monotone(j - 1, j - 1);
    }
  }

  /** A number has a block of 2^k exactly when it is at least 2^k. */
  lemma {:induction false} ShrZero(x: nat, k: nat)
    ensures Shr(x, k) == 0 <==> x < Pow2(k)
  {
    if k > 0 {
      ShrHalf(x, k - 1);
      ShrZero(x / 2, k - 1);
    }
  }

  /** A multiple of 2^k with one block is 2^k itself. */
  lemma {:induction false} OneBlock(x: nat, k: nat)
    requires !Ragged(x, k)
    ensures x == Pow2(k) <==> Shr(x, k) == 1
  {
    if k > 0 {
      RaggedHalf(x, k - 1);
      ShrHalf(x, k - 1);
      OneBlock(x / 2, k - 1);
    }
  }

  /** Adding one block of 2^k advances the shift by one and leaves the low bits alone. */
  lemma {:induction false} AddBlock(x: nat, k: nat)
    ensures Shr(x + Pow2(k), k) == Shr(x, k) + 1
    ensures Ragged(x + Pow2(k), k) <==> Ragged(x, k)
  {
    if k > 0 {
      var y := x + Pow2(k);
      assert y / 2 == x / 2 + Pow2(k - 1) && y % 2 == x % 2;
      AddBlock(x / 2, k - 1);
      ShrHalf(x, k - 1);
      ShrHalf(y, k - 1);
      RaggedHalf(x, k - 1);
      RaggedHalf(y, k - 1);
    }
  }

  lemma {:induction false} PowerAligned(k: nat)
    ensures !Ragged(Pow2(k), k)
  {
    if k > 0 {
      RaggedHalf(Pow2(k), k - 1);
      PowerAligned(k - 1);
    }
  }

  /** Multiples of 2^k compare like their blocks. */
  lemma {:induction false} BlocksCompare(x: nat, y: nat, k: nat)
    requires !Ragged(x, k) && Shr(x, k) <= Shr(y, k)
    ensures x <= y
  {
    if k > 0 {
      RaggedHalf(x, k - 1);
      ShrHalf(x, k - 1);
      ShrHalf(y, k - 1);
      BlocksCompare(x / 2, y / 2, k - 1);
    }
  }

  lemma {:induction false} ShrPow2(j: nat, k: nat)
    requires k <= j
    ensures Shr(Pow2(j), k) == Pow2(j - k)
  {
    if k > 0 {
      ShrPow2(j, k - 1);
    }
  }

  /** Incrementing moves exactly the shifts whose low bits become zero. */
  lemma {:induction false} ShrIncrement(c: nat, l: nat)
    ensures Shr(c + 1, l) == Shr(c, l) + if Ragged(c + 1, l) then 0 else 1
  {
    if l > 0 {
      ShrIncrement(c, l - 1);
    }
  }

  lemma {:induction false} AlignedIsPositive(c: nat, l: nat)
    requires c > 0 && !Ragged(c, l)
    ensures Shr(c, l) > 0
  {
    if l > 0 {
      AlignedIsPositive(c, l - 1);
    }
  }

  lemma {:induction false} RaggedMonotone(c: nat, k: nat, l: nat)
    requires k <= l && Ragged(c, k)
    ensures Ragged(c, l)
  {
    if k < l {
      RaggedMonotone(c, k, l - 1);
    }
  }
}

/** Powers of two and single-bit tests on natural numbers, the arithmetic behind
    the case index (`2 ** np.arange(8)`) and the edge-mask test `edges & (1 << i)`. */
module Bits {
  function Pow2(i: nat): (r: nat)
    ensures r >= 1
  {
    if i == 0 then 1 else 2 * Pow2(i - 1)
  }

  /** Bit i of n is set, i.e. `n & (1 << i) != 0`. */
  predicate Bit(n: nat, i: nat) {
    if i == 0 then n % 2 == 1 else Bit(n / 2, i - 1)
  }

  lemma {:induction false} NoBitAtOrAbove(x: nat, m: nat, i: nat)
    requires x < Pow2(m) && m <= i
    ensures !Bit(x, i)
  {
    if i > 0 {
      if m == 0 {
        NoBitAtOrAbove(x / 2, 0, i - 1);
      } else {
        NoBitAtOrAbove(x / 2, m - 1, i - 1);
      }
    }
  }

  /** Adding 2^m leaves every lower bit alone. */
  lemma {:induction false} BitAddHigh(x: nat, m: nat, i: nat)
    requires i < m
    ensures Bit(x + Pow2(m), i) == Bit(x, i)
  {
    if i > 0 {
      assert (x + Pow2(m)) / 2 == x / 2 + Pow2(m - 1);
      BitAddHigh(x / 2, m - 1, i - 1);
    }
  }

  /** Below 2^m, adding 2^m sets bit m. */
  lemma {:induction false} BitAtTop(x: nat, m: nat)
    requires x < Pow2(m)
    ensures Bit(x + Pow2(m), m)
  {
    if m > 0 {
      assert (x + Pow2(m)) / 2 == x / 2 + Pow2(m - 1);
      BitAtTop(x / 2, m - 1);
    }
  }

  /** A number below 2^m with none of its m low bits set is zero. */
  lemma {:induction false} NoBitsIsZero(x: nat, m: nat)
    requires x < Pow2(m)
    requires forall i :: 0 <= i < m ==> !Bit(x, i)
    ensures x == 0
  {
    if m > 0 {
      assert !Bit(x, 0);
      forall i | 0 <= i < m - 1 ensures !Bit(x / 2, i) {
        assert !Bit(x, i + 1);
      }
      NoBitsIsZero(x / 2, m - 1);
    }
  }

  /** Two numbers below 2^m with the same m low bits are equal. */
  lemma {:induction false} BitsDetermine(x: nat, y: nat, m: nat)
    requires x < Pow2(m) && y < Pow2(m)
    requires forall i :: 0 <= i < m ==> Bit(x, i) == Bit(y, i)
    ensures x == y
  {
    if m > 0 {
      assert Bit(x, 0) == Bit(y, 0);
      forall i | 0 <= i < m - 1 ensures Bit(x / 2, i) == Bit(y / 2, i) {
        assert Bit(x, i + 1) == Bit(y, i + 1);
      }
      BitsDetermine(x / 2, y / 2, m - 1);
    }
  }
}

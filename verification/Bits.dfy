/** Unsigned machine words: numbers, with the operations that work bit by bit. */
module Bits {
  function Pow2(i: nat): nat {
    if i == 0 then 1 else 2 * Pow2(i - 1)
  }

  lemma {:induction false} Pow2Up(i: nat, j: nat)
    requires i <= j
    ensures 0 < Pow2(i) <= Pow2(j)
    decreases j
  {
    if i < j {
      Pow2Up(i, j - 1);
    } else if i > 0 {
      Pow2Up(i - 1, i - 1);
    }
  }

  /** Bit `i`. */
  predicate BitAt(b: nat, i: nat)
    decreases i
  {
    if i == 0 then b % 2 == 1 else BitAt(b / 2, i - 1)
  }

  function Or(a: nat, b: nat): nat
    decreases a
  {
    if a == 0 then b else if b == 0 then a
    else (if a % 2 == 1 || b % 2 == 1 then 1 else 0) + 2 * Or(a / 2, b / 2)
  }

  function And(a: nat, b: nat): nat
    decreases a
  {
    if a == 0 || b == 0 then 0
    else (if a % 2 == 1 && b % 2 == 1 then 1 else 0) + 2 * And(a / 2, b / 2)
  }

  function Shr(a: nat, k: nat): nat {
    if k == 0 then a else Shr(a / 2, k - 1)
  }

  function Shl(a: nat, k: nat): nat
    decreases k
  {
    if k == 0 then a else Shl(2 * a, k - 1)
  }

  /** The complement of an `n`-bit word. */
  function Not(a: nat, n: nat): nat
    requires a < Pow2(n)
  {
    Pow2(n) - 1 - a
  }

  function TrailingZeros(a: nat): nat
    requires a > 0
  {
    if a % 2 == 1 then 0 else 1 + TrailingZeros(a / 2)
  }

  lemma {:induction false} ZeroBit(i: nat)
    ensures !BitAt(0, i)
    decreases i
  {
    if i > 0 {
      ZeroBit(i - 1);
    }
  }

  lemma {:induction false} OrBit(a: nat, b: nat, i: nat)
    ensures BitAt(Or(a, b), i) == (BitAt(a, i) || BitAt(b, i))
    decreases i
  {
    ZeroBit(i);
    if a > 0 && b > 0 {
      assert Or(a, b) / 2 == Or(a / 2, b / 2);
      if i > 0 {
        OrBit(a / 2, b / 2, i - 1);
      }
    }
  }

  lemma {:induction false} AndBit(a: nat, b: nat, i: nat)
    ensures BitAt(And(a, b), i) == (BitAt(a, i) && BitAt(b, i))
    decreases i
  {
    ZeroBit(i);
    if a > 0 && b > 0 {
      assert And(a, b) / 2 == And(a / 2, b / 2);
      if i > 0 {
        AndBit(a / 2, b / 2, i - 1);
      }
    }
  }

  lemma {:induction false} ShrBit(a: nat, k: nat, i: nat)
    ensures BitAt(Shr(a, k), i) == BitAt(a, i + k)
    decreases k
  {
    if k > 0 {
      ShrBit(a / 2, k - 1, i);
    }
  }

  lemma {:induction false} ShlBit(a: nat, k: nat, i: nat)
    ensures BitAt(Shl(a, k), i) == (i >= k && BitAt(a, i - k))
    decreases k
  {
    if k > 0 {
      ShlBit(2 * a, k - 1, i);
      if i >= k {
        assert BitAt(2 * a, i - k + 1) == BitAt(2 * a / 2, i - k);
      }
    }
  }

  lemma {:induction false} NotBit(a: nat, n: nat, i: nat)
    requires a < Pow2(n)
    ensures BitAt(Not(a, n), i) == (i < n && !BitAt(a, i))
    decreases n
  {
    if n == 0 {
      ZeroBit(i);
    } else {
      assert Not(a, n) / 2 == Not(a / 2, n - 1);
      if i > 0 {
        NotBit(a / 2, n - 1, i - 1);
      }
    }
  }

  /** A word is zero if and only if it has no bits. */
  lemma {:induction false} TrailingZerosBit(a: nat, i: nat)
    requires a > 0
    ensures BitAt(a, TrailingZeros(a)) && (i < TrailingZeros(a) ==> !BitAt(a, i))
    decreases a
  {
    if a % 2 == 0 {
      TrailingZerosBit(a / 2, if i > 0 then i - 1 else 0);
    }
  }

  /** A word has no bits beyond its width. */
  lemma {:induction false} HighBit(a: nat, n: nat, i: nat)
    requires a < Pow2(n) && i >= n
    ensures !BitAt(a, i)
    decreases n
  {
    if n == 0 {
      ZeroBit(i);
    } else {
      HighBit(a / 2, n - 1, i - 1);
    }
  }

  /** `x & (x - 1)` clears the lowest bit that is set. */
  lemma {:induction false} ClearLowest(a: nat, i: nat)
    requires a > 0
    ensures BitAt(And(a - 1, a), i) == (BitAt(a, i) && i != TrailingZeros(a))
    decreases a
  {
    AndBit(a - 1, a, i);
    if a % 2 == 1 {
      assert (a - 1) / 2 == a / 2;
    } else {
      assert (a - 1) / 2 == a / 2 - 1;
      if i > 0 {
        ClearLowest(a / 2, i - 1);
        AndBit(a / 2 - 1, a / 2, i - 1);
      }
    }
  }

  lemma {:induction false} AndLess(a: nat, b: nat)
    ensures And(a, b) <= a && And(a, b) <= b
    decreases a
  {
    if a > 0 && b > 0 {
      AndLess(a / 2, b / 2);
    }
  }

  lemma {:induction false} OrBound(a: nat, b: nat, n: nat)
    requires a < Pow2(n) && b < Pow2(n)
    ensures Or(a, b) < Pow2(n)
    decreases n
  {
    if n > 0 && a > 0 && b > 0 {
      OrBound(a / 2, b / 2, n - 1);
    }
  }

  lemma {:induction false} ShlBound(a: nat, k: nat, m: nat)
    requires a < Pow2(m)
    ensures Shl(a, k) < Pow2(m + k)
    decreases k
  {
    if k > 0 {
      ShlBound(2 * a, k - 1, m + 1);
    }
  }

  lemma {:induction false} ShrBound(a: nat, k: nat)
    ensures Shr(a, k) <= a
    decreases k
  {
    if k > 0 {
      ShrBound(a / 2, k - 1);
    }
  }

  /** Words with the same bits are the same. */
  lemma {:induction false} SameBits(a: nat, b: nat)
    requires forall i: nat :: BitAt(a, i) == BitAt(b, i)
    ensures a == b
    decreases a + b
  {
    if a > 0 || b > 0 {
      assert BitAt(a, 0) == BitAt(b, 0);
      forall i: nat ensures BitAt(a / 2, i) == BitAt(b / 2, i) {
        assert BitAt(a, i + 1) == BitAt(b, i + 1);
      }
      SameBits(a / 2, b / 2);
    }
  }

  lemma {:induction false} LowestPow(a: nat)
    requires a > 0
    ensures 0 < Pow2(TrailingZeros(a)) <= a
    decreases a
  {
    if a % 2 == 0 {
      LowestPow(a / 2);
    }
  }
}

/** Shifts and bitwise operations on natural numbers. */
module Bits {
  function Xor(a: nat, b: nat): nat {
    if a == 0 && b == 0 then 0 else 2 * Xor(a / 2, b / 2) + (a + b) % 2
  }

  function Shl(x: nat, k: nat): nat { if k == 0 then x else 2 * Shl(x, k - 1) }

  function Shr(x: nat, k: nat): nat { if k == 0 then x else Shr(x / 2, k - 1) }

  /** The low `k` bits of `x`. */
  function Low(x: nat, k: nat): nat { if k == 0 then 0 else 2 * Low(x / 2, k - 1) + x % 2 }

  function Pow2(k: nat): (p: nat)
    ensures p >= 1
  {
    if k == 0 then 1 else 2 * Pow2(k - 1)
  }

  lemma {:induction false} Split(x: nat, k: nat)
    ensures x == Low(x, k) + Pow2(k) * Shr(x, k) && Low(x, k) < Pow2(k)
    decreases k
  {
    if k > 0 {
      Split(x / 2, k - 1);
      Doubled(Pow2(k - 1), Shr(x / 2, k - 1));
    }
  }

  lemma Doubled(p: nat, s: nat)
    ensures (2 * p) * s == 2 * (p * s)
  {
  }

  // ---------------------------------------------------------------- shifts and exclusive or

  lemma XorHalf(a: nat, b: nat)
    ensures Xor(a, b) / 2 == Xor(a / 2, b / 2) && Xor(a, b) % 2 == (a + b) % 2
  {
  }

  lemma SameHalf(x: nat, y: nat)
    requires x / 2 == y / 2 && x % 2 == y % 2
    ensures x == y
  {
  }

  lemma Parity(a: nat, b: nat, c: nat, p: nat, q: nat)
    requires p % 2 == (a + b) % 2 && q % 2 == (b + c) % 2
    ensures (p + q) % 2 == (a + c) % 2
  {
  }

  lemma SameParity(a: nat, b: nat, p: nat, q: nat)
    requires p % 2 == a % 2 && q % 2 == b % 2
    ensures (p + q) % 2 == (a + b) % 2
  {
  }

  lemma {:induction false} Cancel(a: nat, b: nat, c: nat)
    ensures Xor(Xor(a, b), Xor(b, c)) == Xor(a, c)
    decreases a + b + c
  {
    if a + b + c > 0 {
      Cancel(a / 2, b / 2, c / 2);
      XorHalf(a, b);
      XorHalf(b, c);
      XorHalf(a, c);
      XorHalf(Xor(a, b), Xor(b, c));
      Parity(a, b, c, Xor(a, b), Xor(b, c));
      SameHalf(Xor(Xor(a, b), Xor(b, c)), Xor(a, c));
    }
  }

  lemma {:induction false} XorZero(a: nat)
    ensures Xor(a, 0) == a
  {
    if a > 0 { XorZero(a / 2); }
  }

  lemma {:induction false} ShrXor(a: nat, b: nat, k: nat)
    ensures Shr(Xor(a, b), k) == Xor(Shr(a, k), Shr(b, k))
    decreases k
  {
    if k > 0 {
      XorHalf(a, b);
      ShrXor(a / 2, b / 2, k - 1);
    }
  }

  lemma XorDouble(a: nat, b: nat)
    ensures Xor(2 * a, 2 * b) == 2 * Xor(a, b)
  {
    XorHalf(2 * a, 2 * b);
    assert (2 * a) / 2 == a && (2 * b) / 2 == b && (2 * a + 2 * b) % 2 == 0;
  }

  lemma {:induction false} ShlXor(a: nat, b: nat, k: nat)
    ensures Shl(Xor(a, b), k) == Xor(Shl(a, k), Shl(b, k))
    decreases k
  {
    if k > 0 {
      ShlXor(a, b, k - 1);
      XorDouble(Shl(a, k - 1), Shl(b, k - 1));
    }
  }

  lemma LowHalf(x: nat, k: nat)
    requires k > 0
    ensures Low(x, k) / 2 == Low(x / 2, k - 1) && Low(x, k) % 2 == x % 2
  {
  }

  lemma {:induction false} LowXor(a: nat, b: nat, k: nat)
    ensures Low(Xor(a, b), k) == Xor(Low(a, k), Low(b, k))
    decreases k
  {
    if k > 0 {
      LowXor(a / 2, b / 2, k - 1);
      XorHalf(a, b);
      XorHalf(Low(a, k), Low(b, k));
      LowHalf(a, k);
      LowHalf(b, k);
      LowHalf(Xor(a, b), k);
      SameParity(a, b, Low(a, k), Low(b, k));
      SameHalf(Low(Xor(a, b), k), Xor(Low(a, k), Low(b, k)));
    }
  }

  lemma {:induction false} ShrShr(x: nat, j: nat, k: nat)
    ensures Shr(Shr(x, j), k) == Shr(x, j + k)
    decreases j
  {
    if j > 0 { ShrShr(x / 2, j - 1, k); }
  }

  lemma {:induction false} ShlShl(x: nat, j: nat, k: nat)
    ensures Shl(Shl(x, j), k) == Shl(x, j + k)
    decreases k
  {
    if k > 0 { ShlShl(x, j, k - 1); }
  }

  /** Low bits of a shifted number come from its own low bits. */
  lemma {:induction false} LowShlLow(x: nat, j: nat, k: nat)
    ensures Low(Shl(Low(x, k), j), k) == Low(Shl(x, j), k)
    decreases j, k
  {
    if j == 0 {
      LowLow(x, k);
    } else if k > 0 {
      LowShlLow(x, j - 1, k);
      LowDouble(Shl(Low(x, k), j - 1), k);
      LowDouble(Shl(x, j - 1), k);
    }
  }

  lemma {:induction false} LowLow(x: nat, k: nat)
    ensures Low(Low(x, k), k) == Low(x, k)
    decreases k
  {
    if k > 0 { LowLow(x / 2, k - 1); }
  }

  /** Doubling drops the top bit. */
  lemma {:induction false} LowDouble(x: nat, k: nat)
    requires k > 0
    ensures Low(2 * x, k) == 2 * Low(x, k - 1)
    ensures Low(Low(x, k), k - 1) == Low(x, k - 1)
    decreases k
  {
    if k > 1 {
      LowHalf(x, k);
      LowDouble(x / 2, k - 1);
    }
  }

  lemma {:induction false} LowShlAll(x: nat, j: nat, k: nat)
    requires j >= k
    ensures Low(Shl(x, j), k) == 0
    decreases k
  {
    if k > 0 { LowShlAll(x, j - 1, k - 1); }
  }

  lemma {:induction false} ShrAll(x: nat, j: nat, k: nat)
    requires x < Pow2(k) && j >= k
    ensures Shr(x, j) == 0
    decreases j
  {
    if j > 0 { ShrAll(x / 2, j - 1, if k > 0 then k - 1 else 0); }
  }

  lemma {:induction false} XorBound(a: nat, b: nat, k: nat)
    requires a < Pow2(k) && b < Pow2(k)
    ensures Xor(a, b) < Pow2(k)
    decreases k
  {
    if k > 0 {
      XorBound(a / 2, b / 2, k - 1);
      XorHalf(a, b);
    }
  }

  lemma {:induction false} ShrSmaller(x: nat, k: nat)
    ensures Shr(x, k) <= x
    decreases k
  {
    if k > 0 { ShrSmaller(x / 2, k - 1); }
  }

  // ---------------------------------------------------------------- or, and, single bits

  function Or(a: nat, b: nat): nat {
    if a == 0 && b == 0 then 0 else 2 * Or(a / 2, b / 2) + if a % 2 == 1 || b % 2 == 1 then 1 else 0
  }

  function And(a: nat, b: nat): (r: nat)
    ensures r <= b
  {
    if a == 0 || b == 0 then 0 else 2 * And(a / 2, b / 2) + if a % 2 == 1 && b % 2 == 1 then 1 else 0
  }

  predicate Bit(x: nat, i: nat) { Shr(x, i) % 2 == 1 }

  lemma {:induction false} BitOr(a: nat, b: nat, i: nat)
    ensures Bit(Or(a, b), i) <==> Bit(a, i) || Bit(b, i)
    decreases i
  {
    OrHalf(a, b);
    if i > 0 { BitOr(a / 2, b / 2, i - 1); }
  }

  lemma OrHalf(a: nat, b: nat)
    ensures Or(a, b) / 2 == Or(a / 2, b / 2) && (Or(a, b) % 2 == 1 <==> a % 2 == 1 || b % 2 == 1)
  {
  }

  lemma BitShr(x: nat, k: nat, i: nat)
    ensures Bit(Shr(x, k), i) <==> Bit(x, k + i)
  {
    ShrShr(x, k, i);
  }

  /** The place of the highest bit of `x`. */
  function Top(x: nat): nat { if x < 2 then 0 else 1 + Top(x / 2) }

  lemma {:induction false} TopBit(x: nat)
    requires x > 0
    ensures Bit(x, Top(x)) && Pow2(Top(x)) <= x < 2 * Pow2(Top(x))
  {
    if x >= 2 { TopBit(x / 2); }
  }

  /** All bits up to `t` set and none above is one less than a power of two. */
  lemma {:induction false} AllOnes(x: nat, t: nat)
    requires forall i :: 0 <= i <= t ==> Bit(x, i)
    requires x < Pow2(t + 1)
    ensures x == Pow2(t + 1) - 1
    decreases t
  {
    assert Bit(x, 0);
    if t > 0 {
      forall i | 0 <= i <= t - 1 ensures Bit(x / 2, i) { assert Bit(x, i + 1); }
      AllOnes(x / 2, t - 1);
    }
  }

  lemma {:induction false} OrBound(a: nat, b: nat, k: nat)
    requires a < Pow2(k) && b < Pow2(k)
    ensures Or(a, b) < Pow2(k)
    decreases k
  {
    if k > 0 {
      OrHalf(a, b);
      OrBound(a / 2, b / 2, k - 1);
    }
  }

  /** Clearing against its successor shows a number one less than a power of two. */
  lemma {:induction false} MaskTest(k: nat)
    ensures And(Pow2(k) - 1, Pow2(k)) == 0
  {
    if k > 0 {
      MaskTest(k - 1);
      var m := Pow2(k) - 1;
      assert m / 2 == Pow2(k - 1) - 1 && (m + 1) / 2 == Pow2(k - 1) && (m + 1) % 2 == 0;
    }
  }

  /** Masking with one less than a power of two takes the remainder. */
  lemma {:induction false} MaskIsLow(x: nat, k: nat)
    ensures And(x, Pow2(k) - 1) == Low(x, k)
    decreases k
  {
    if k > 0 {
      MaskIsLow(x / 2, k - 1);
      var m := Pow2(k) - 1;
      assert m / 2 == Pow2(k - 1) - 1 && m % 2 == 1;
      if x == 0 { LowZero(k); }
    }
  }

  lemma {:induction false} LowZero(k: nat)
    ensures Low(0, k) == 0
  {
    if k > 0 { LowZero(k - 1); }
  }
}

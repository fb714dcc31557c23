/** How many buckets a hash table gets. */
module HmapMask {
  import opened Bits

  /** One less than a power of two. */
  ghost predicate IsMask(m: nat) { exists k :: Pow2(k) == m + 1 }

  function Smear(x: nat, k: nat): nat { Or(x, Shr(x, k)) }

  /** Sets every bit below the highest of a 64-bit number. */
  function SmearAll(a: nat): nat { Smear(Smear(Smear(Smear(Smear(Smear(a, 1), 2), 4), 8), 16), 32) }

  /** Four buckets, where there would be two. */
  function NotTwo(g: nat): nat { Or(g, 2 * And(g, 1)) }

  /** `calc_mask`, for a 64-bit `size_t`. */
  function CalcMask(capacity: nat): nat { NotTwo(SmearAll(capacity / 2)) }

  /** `x` has its highest bit at `t`, and the `j` bits down from there are set. */
  predicate Filled(x: nat, t: nat, j: nat) {
    x < Pow2(t + 1) && forall i :: 0 <= i <= t < i + j ==> Bit(x, i)
  }

  lemma SmearFills(x: nat, t: nat, j: nat)
    requires Filled(x, t, j)
    ensures Filled(Smear(x, j), t, j + j)
  {
    ShrSmaller(x, j);
    OrBound(x, Shr(x, j), t + 1);
    forall i | 0 <= i <= t < i + j + j ensures Bit(Smear(x, j), i) {
      BitOr(x, Shr(x, j), i);
      BitShr(x, j, i);
    }
  }

  /** For any capacity of up to 64 bits, the smeared number is all ones up to its highest bit. */
  lemma SmearedAll(a: nat, t: nat)
    requires a > 0 && t == Top(a) && t < 64
    ensures SmearAll(a) == Pow2(t + 1) - 1
  {
    TopBit(a);
    assert Filled(a, t, 1);
    var b := Smear(a, 1);
    var c := Smear(b, 2);
    var d := Smear(c, 4);
    var e := Smear(d, 8);
    var f := Smear(e, 16);
    var g := Smear(f, 32);
    SmearFills(a, t, 1);
    SmearFills(b, t, 2);
    SmearFills(c, t, 4);
    SmearFills(d, t, 8);
    SmearFills(e, t, 16);
    SmearFills(f, t, 32);
    AllOnes(g, t);
  }

  lemma {:induction false} TopBelow(x: nat, k: nat)
    requires x < Pow2(k) && k > 0
    ensures Top(x) < k
    decreases k
  {
    if k > 1 && x >= 2 { TopBelow(x / 2, k - 1); }
  }

  /** The least bucket count is one, and the next is four. */
  lemma AtLeastFour(g: nat, t: nat)
    requires g == Pow2(t + 1) - 1
    ensures NotTwo(g) == if t == 0 then 3 else g
  {
    MaskIsLow(g, 1);
    assert Pow2(1) == 2 && g % 2 == 1;
    assert Low(g, 1) == 1;
    if t == 0 {
      assert Or(1, 2) == 2 * Or(0, 1) + 1;
    } else {
      OrHalf(g, 2);
      assert g == 2 * (g / 2) + 1 && (g / 2) % 2 == 1;
      OrOne(g / 2);
    }
  }

  lemma {:induction false} OrZero(x: nat)
    ensures Or(x, 0) == x
  {
    if x > 0 { OrZero(x / 2); }
  }

  lemma OrOne(x: nat)
    requires x % 2 == 1
    ensures Or(x, 1) == x
  {
    OrZero(x / 2);
  }

  lemma SmearZero(k: nat)
    ensures Smear(0, k) == 0
  {
    ShrSmaller(0, k);
  }

  lemma CalcMaskSmall(capacity: nat)
    requires capacity < 2
    ensures CalcMask(capacity) == 0
  {
    SmearZero(1);
    SmearZero(2);
    SmearZero(4);
    SmearZero(8);
    SmearZero(16);
    SmearZero(32);
  }

  lemma CalcMaskIs(capacity: nat, t: nat)
    requires capacity >= 2 && t == Top(capacity / 2) && t < 64
    ensures CalcMask(capacity) == if t == 0 then 3 else Pow2(t + 1) - 1
  {
    SmearedAll(capacity / 2, t);
    AtLeastFour(Pow2(t + 1) - 1, t);
  }

  /** A mask one less than a power of two, with room for two nodes a bucket, but not twice as much. */
  predicate Fits(m: nat, capacity: nat) {
    capacity / 2 <= m && (m > 3 ==> m / 2 < capacity / 2) && (m == 0 <==> capacity < 2)
  }

  lemma CalcMaskFits(capacity: nat, width: nat)
    requires capacity < Pow2(width) && 0 < width <= 64
    ensures IsMask(CalcMask(capacity)) && Fits(CalcMask(capacity), capacity)
  {
    if capacity < 2 {
      CalcMaskSmall(capacity);
      assert Pow2(0) == 1;
    } else {
      var a := capacity / 2;
      var t := Top(a);
      TopBelow(capacity, width);
      TopBit(a);
      CalcMaskIs(capacity, t);
      var k := if t == 0 then 2 else t + 1;
      PowTwo();
      assert Pow2(k) == CalcMask(capacity) + 1;
    }
  }

  lemma PowTwo()
    ensures Pow2(2) == 4
  {
  }

  /** The test `resize` makes of the mask it is given. */
  lemma MaskPasses(m: nat)
    requires IsMask(m)
    ensures And(m, m + 1) == 0
  {
    var k :| Pow2(k) == m + 1;
    MaskTest(k);
  }
}

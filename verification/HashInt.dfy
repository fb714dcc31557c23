/** The integer hash of `hash.h` loses nothing: every 32-bit word is the hash of exactly one. */
module HashInt {
  import opened Bits

  const SIZE := 0x1_0000_0000

  type Word = x: int | 0 <= x < SIZE

  /** `k` is the width of a word. */
  predicate Width(k: nat) { Pow2(k) == SIZE }

  lemma LowIsMod(x: nat, k: nat)
    requires Width(k)
    ensures Low(x, k) == x % SIZE && Shr(x, k) == x / SIZE
  {
    Split(x, k);
  }

  // ---------------------------------------------------------------- the hash

  function ShiftLeft(x: Word, k: nat): Word { Shl(x, k) % SIZE }

  function ShiftRight(x: Word, k: nat): Word {
    ShrSmaller(x, k);
    Shr(x, k)
  }

  function Minus(x: Word, y: Word): Word { (x - y) % SIZE }

  function Plus(x: Word, y: Word): Word { (x + y) % SIZE }

  function WordXor(x: Word, y: Word): Word { Xor(x, y) % SIZE }

  function HashInt(x: Word, basis: Word): Word {
    var a := Minus(x, ShiftLeft(x, 6));
    var b := WordXor(a, ShiftRight(a, 17));
    var c := Minus(b, ShiftLeft(b, 9));
    var d := WordXor(c, ShiftLeft(c, 4));
    var e := Plus(d, basis);
    var f := Minus(e, ShiftLeft(e, 3));
    var g := WordXor(f, ShiftLeft(f, 10));
    WordXor(g, ShiftRight(g, 15))
  }

  // ---------------------------------------------------------------- exclusive or with a shift

  function XorLeft(x: Word, j: nat): Word { WordXor(x, ShiftLeft(x, j)) }

  function XorRight(x: Word, j: nat): Word { WordXor(x, ShiftRight(x, j)) }

  lemma WordXorIsXor(x: Word, y: Word, k: nat)
    requires Width(k)
    ensures WordXor(x, y) == Xor(x, y)
  {
    XorBound(x, y, k);
  }

  lemma ShiftLeftXor(x: Word, y: Word, j: nat, k: nat)
    requires Width(k) && Xor(x, y) < SIZE
    ensures ShiftLeft(Xor(x, y), j) == Xor(ShiftLeft(x, j), ShiftLeft(y, j))
  {
    ShlXor(x, y, j);
    LowXor(Shl(x, j), Shl(y, j), k);
    LowIsMod(Shl(Xor(x, y), j), k);
    LowIsMod(Shl(x, j), k);
    LowIsMod(Shl(y, j), k);
  }

  lemma ShiftLeftTwice(x: Word, i: nat, j: nat, k: nat)
    requires Width(k)
    ensures ShiftLeft(ShiftLeft(x, i), j) == ShiftLeft(x, i + j)
  {
    LowIsMod(Shl(x, i), k);
    LowIsMod(Shl(Low(Shl(x, i), k), j), k);
    LowIsMod(Shl(Shl(x, i), j), k);
    LowShlLow(Shl(x, i), j, k);
    ShlShl(x, i, j);
  }

  /** Over bits, (1 + t)(1 + t) is 1 + t^2. */
  lemma XorLeftTwice(x: Word, j: nat, k: nat)
    requires Width(k)
    ensures XorLeft(XorLeft(x, j), j) == XorLeft(x, j + j)
  {
    var l := ShiftLeft(x, j);
    WordXorIsXor(x, l, k);
    ShiftLeftXor(x, l, j, k);
    ShiftLeftTwice(x, j, j, k);
    WordXorIsXor(Xor(x, l), ShiftLeft(Xor(x, l), j), k);
    Cancel(x, l, ShiftLeft(x, j + j));
    WordXorIsXor(x, ShiftLeft(x, j + j), k);
  }

  lemma XorLeftAll(x: Word, j: nat, k: nat)
    requires Width(k) && j >= k
    ensures XorLeft(x, j) == x
  {
    LowShlAll(x, j, k);
    LowIsMod(Shl(x, j), k);
    XorZero(x);
  }

  lemma XorRightTwice(x: Word, j: nat, k: nat)
    requires Width(k)
    ensures XorRight(XorRight(x, j), j) == XorRight(x, j + j)
  {
    var r := ShiftRight(x, j);
    WordXorIsXor(x, r, k);
    ShrXor(x, r, j);
    ShrShr(x, j, j);
    WordXorIsXor(Xor(x, r), ShiftRight(Xor(x, r), j), k);
    Cancel(x, r, ShiftRight(x, j + j));
    WordXorIsXor(x, ShiftRight(x, j + j), k);
  }

  lemma XorRightAll(x: Word, j: nat, k: nat)
    requires Width(k) && j >= k
    ensures XorRight(x, j) == x
  {
    ShrAll(x, j, k);
    XorZero(x);
  }

  lemma {:induction false} XorLeftInjective(x: Word, y: Word, j: nat, k: nat)
    requires Width(k) && j > 0 && XorLeft(x, j) == XorLeft(y, j)
    ensures x == y
    decreases k - j
  {
    if j >= k {
      XorLeftAll(x, j, k);
      XorLeftAll(y, j, k);
    } else {
      XorLeftTwice(x, j, k);
      XorLeftTwice(y, j, k);
      XorLeftInjective(x, y, j + j, k);
    }
  }

  lemma {:induction false} XorRightInjective(x: Word, y: Word, j: nat, k: nat)
    requires Width(k) && j > 0 && XorRight(x, j) == XorRight(y, j)
    ensures x == y
    decreases k - j
  {
    if j >= k {
      XorRightAll(x, j, k);
      XorRightAll(y, j, k);
    } else {
      XorRightTwice(x, j, k);
      XorRightTwice(y, j, k);
      XorRightInjective(x, y, j + j, k);
    }
  }

  /** Divides by 1 + t, as (1 + t)(1 + t^2)(1 + t^4)... up to the width `k`. */
  function UndoXorLeft(y: Word, j: nat, k: nat): Word
    requires j > 0
    decreases k - j
  {
    if j >= k then y else XorLeft(UndoXorLeft(y, j + j, k), j)
  }

  function UndoXorRight(y: Word, j: nat, k: nat): Word
    requires j > 0
    decreases k - j
  {
    if j >= k then y else XorRight(UndoXorRight(y, j + j, k), j)
  }

  lemma {:induction false} UndoesXorLeft(y: Word, j: nat, k: nat)
    requires Width(k) && j > 0
    ensures XorLeft(UndoXorLeft(y, j, k), j) == y
    decreases k - j
  {
    if j >= k {
      XorLeftAll(y, j, k);
    } else {
      UndoesXorLeft(y, j + j, k);
      XorLeftTwice(UndoXorLeft(y, j + j, k), j, k);
    }
  }

  lemma {:induction false} UndoesXorRight(y: Word, j: nat, k: nat)
    requires Width(k) && j > 0
    ensures XorRight(UndoXorRight(y, j, k), j) == y
    decreases k - j
  {
    if j >= k {
      XorRightAll(y, j, k);
    } else {
      UndoesXorRight(y, j + j, k);
      XorRightTwice(UndoXorRight(y, j + j, k), j, k);
    }
  }

  // ---------------------------------------------------------------- subtracting a shift

  function SubLeft(x: Word, j: nat): Word { Minus(x, ShiftLeft(x, j)) }

  function AddLeft(x: Word, j: nat): Word { Plus(x, ShiftLeft(x, j)) }

  lemma {:induction false} ShlAdd(a: nat, b: nat, j: nat)
    ensures Shl(a + b, j) == Shl(a, j) + Shl(b, j)
  {
    if j > 0 { ShlAdd(a, b, j - 1); }
  }

  lemma {:induction false} ShlScale(q: nat, j: nat)
    ensures Shl(SIZE * q, j) == SIZE * Shl(q, j)
  {
    if j > 0 { ShlScale(q, j - 1); }
  }

  lemma DropMultiple(a: int, q: int)
    ensures (a + SIZE * q) % SIZE == a % SIZE
  {
  }

  lemma ShlMod(a: nat, j: nat)
    ensures Shl(a % SIZE, j) % SIZE == Shl(a, j) % SIZE
  {
    var q := a / SIZE;
    assert a == a % SIZE + SIZE * q;
    ShlAdd(a % SIZE, SIZE * q, j);
    ShlScale(q, j);
    DropMultiple(Shl(a % SIZE, j), Shl(q, j));
  }

  lemma PlusMod(a: nat, b: nat)
    ensures (a + b) % SIZE == (a % SIZE + b % SIZE) % SIZE
  {
    var p, q := a / SIZE, b / SIZE;
    assert a + b == a % SIZE + b % SIZE + SIZE * (p + q);
    DropMultiple(a % SIZE + b % SIZE, p + q);
  }

  lemma ShiftLeftPlus(x: Word, y: Word, j: nat)
    ensures ShiftLeft(Plus(x, y), j) == Plus(ShiftLeft(x, j), ShiftLeft(y, j))
  {
    ShlMod(x + y, j);
    ShlAdd(x, y, j);
    PlusMod(Shl(x, j), Shl(y, j));
  }

  lemma Cases(x: Word, y: Word)
    ensures Plus(x, y) == if x + y < SIZE then x + y else x + y - SIZE
    ensures Minus(x, y) == if x >= y then x - y else x - y + SIZE
  {
  }

  lemma MinusPlus(x: Word, y: Word)
    ensures Minus(Plus(x, y), y) == x && Plus(Minus(x, y), y) == x
  {
    Cases(x, y);
    Cases(Plus(x, y), y);
    Cases(Minus(x, y), y);
  }

  lemma ShiftLeftMinus(x: Word, y: Word, j: nat)
    ensures ShiftLeft(Minus(x, y), j) == Minus(ShiftLeft(x, j), ShiftLeft(y, j))
  {
    var a := Minus(x, y);
    MinusPlus(x, y);
    ShiftLeftPlus(a, y, j);
    MinusPlus(ShiftLeft(a, j), ShiftLeft(y, j));
  }

  lemma Telescope(x: Word, s: Word, t: Word)
    ensures Minus(Plus(x, s), Plus(s, t)) == Minus(x, t) && Plus(Minus(x, s), Minus(s, t)) == Minus(x, t)
  {
    Cases(x, s);
    Cases(s, t);
    Cases(x, t);
    Cases(Plus(x, s), Plus(s, t));
    Cases(Minus(x, s), Minus(s, t));
  }

  /** (1 + t)(1 - t) is 1 - t^2, in either order. */
  lemma SubLeftTwice(x: Word, j: nat, k: nat)
    requires Width(k)
    ensures SubLeft(AddLeft(x, j), j) == SubLeft(x, j + j) && AddLeft(SubLeft(x, j), j) == SubLeft(x, j + j)
  {
    var s, t := ShiftLeft(x, j), ShiftLeft(x, j + j);
    ShiftLeftTwice(x, j, j, k);
    ShiftLeftPlus(x, s, j);
    ShiftLeftMinus(x, s, j);
    Telescope(x, s, t);
  }

  lemma SubLeftAll(x: Word, j: nat, k: nat)
    requires Width(k) && j >= k
    ensures SubLeft(x, j) == x
  {
    LowShlAll(x, j, k);
    LowIsMod(Shl(x, j), k);
  }

  lemma {:induction false} SubLeftInjective(x: Word, y: Word, j: nat, k: nat)
    requires Width(k) && j > 0 && SubLeft(x, j) == SubLeft(y, j)
    ensures x == y
    decreases k - j
  {
    if j >= k {
      SubLeftAll(x, j, k);
      SubLeftAll(y, j, k);
    } else {
      SubLeftTwice(x, j, k);
      SubLeftTwice(y, j, k);
      SubLeftInjective(x, y, j + j, k);
    }
  }

  function UndoSubLeft(y: Word, j: nat, k: nat): Word
    requires j > 0
    decreases k - j
  {
    if j >= k then y else AddLeft(UndoSubLeft(y, j + j, k), j)
  }

  lemma {:induction false} UndoesSubLeft(y: Word, j: nat, k: nat)
    requires Width(k) && j > 0
    ensures SubLeft(UndoSubLeft(y, j, k), j) == y
    decreases k - j
  {
    if j >= k {
      SubLeftAll(y, j, k);
    } else {
      UndoesSubLeft(y, j + j, k);
      SubLeftTwice(UndoSubLeft(y, j + j, k), j, k);
    }
  }

  // ---------------------------------------------------------------- the whole hash

  /** Undoes the hash, step by step from its end, on words of `k` bits. */
  function Unhash(h: Word, basis: Word, k: nat): Word {
    var g := UndoXorRight(h, 15, k);
    var f := UndoXorLeft(g, 10, k);
    var e := UndoSubLeft(f, 3, k);
    var d := Minus(e, basis);
    var c := UndoXorLeft(d, 4, k);
    var b := UndoSubLeft(c, 9, k);
    var a := UndoXorRight(b, 17, k);
    UndoSubLeft(a, 6, k)
  }

  lemma EveryHash(h: Word, basis: Word, k: nat)
    requires Width(k)
    ensures HashInt(Unhash(h, basis, k), basis) == h
  {
    var g := UndoXorRight(h, 15, k);
    var f := UndoXorLeft(g, 10, k);
    var e := UndoSubLeft(f, 3, k);
    var d := Minus(e, basis);
    var c := UndoXorLeft(d, 4, k);
    var b := UndoSubLeft(c, 9, k);
    var a := UndoXorRight(b, 17, k);
    UndoesXorRight(h, 15, k);
    UndoesXorLeft(g, 10, k);
    UndoesSubLeft(f, 3, k);
    MinusPlus(e, basis);
    UndoesXorLeft(d, 4, k);
    UndoesSubLeft(c, 9, k);
    UndoesXorRight(b, 17, k);
    UndoesSubLeft(a, 6, k);
  }

  /** The first four steps. */
  function FirstHalf(x: Word): Word { XorLeft(SubLeft(XorRight(SubLeft(x, 6), 17), 9), 4) }

  function SecondHalf(e: Word): Word { XorRight(XorLeft(SubLeft(e, 3), 10), 15) }

  lemma FirstHalfInjective(x: Word, y: Word, k: nat)
    requires Width(k) && FirstHalf(x) == FirstHalf(y)
    ensures x == y
  {
    var a, a' := SubLeft(x, 6), SubLeft(y, 6);
    var b, b' := XorRight(a, 17), XorRight(a', 17);
    XorLeftInjective(SubLeft(b, 9), SubLeft(b', 9), 4, k);
    SubLeftInjective(b, b', 9, k);
    XorRightInjective(a, a', 17, k);
    SubLeftInjective(x, y, 6, k);
  }

  lemma SecondHalfInjective(x: Word, y: Word, k: nat)
    requires Width(k) && SecondHalf(x) == SecondHalf(y)
    ensures x == y
  {
    var f, f' := SubLeft(x, 3), SubLeft(y, 3);
    XorRightInjective(XorLeft(f, 10), XorLeft(f', 10), 15, k);
    XorLeftInjective(f, f', 10, k);
    SubLeftInjective(x, y, 3, k);
  }

  lemma HashInjective(x: Word, y: Word, basis: Word, k: nat)
    requires Width(k) && HashInt(x, basis) == HashInt(y, basis)
    ensures x == y
  {
    var d, d' := FirstHalf(x), FirstHalf(y);
    assert HashInt(x, basis) == SecondHalf(Plus(d, basis)) && HashInt(y, basis) == SecondHalf(Plus(d', basis));
    SecondHalfInjective(Plus(d, basis), Plus(d', basis), k);
    MinusPlus(d, basis);
    MinusPlus(d', basis);
    FirstHalfInjective(x, y, k);
  }

  lemma WordWidth()
    ensures Width(32)
  {
    assert Pow2(8) == 0x100;
    assert Pow2(16) == 0x1_0000;
    assert Pow2(24) == 0x100_0000;
  }

  /** For every basis the hash is a permutation of the 32-bit words, and `Unhash` is its inverse. */
  lemma HashIsPermutation(x: Word, basis: Word)
    ensures HashInt(Unhash(x, basis, 32), basis) == x && Unhash(HashInt(x, basis), basis, 32) == x
  {
    WordWidth();
    EveryHash(x, basis, 32);
    EveryHash(HashInt(x, basis), basis, 32);
    HashInjective(Unhash(HashInt(x, basis), basis, 32), x, basis, 32);
  }

  /** So a table searched by hash alone finds entries of the wanted key only. */
  lemma SameHashSameKey(x: Word, y: Word, basis: Word)
    ensures HashInt(x, basis) == HashInt(y, basis) <==> x == y
  {
    WordWidth();
    if HashInt(x, basis) == HashInt(y, basis) { HashInjective(x, y, basis, 32); }
  }
}

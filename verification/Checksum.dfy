/** The Internet checksum of `csum.c`, on a little-endian host. */
module Checksum {
  type U8 = x: int | 0 <= x < 0x100
  type U16 = x: int | 0 <= x < 0x1_0000
  type U32 = x: int | 0 <= x < 0x1_0000_0000
  type U64 = x: int | 0 <= x < 0x1_0000_0000_0000_0000

  function Multiple(k: int): int { 65535 * k }

  /** Congruent modulo 65535: equal as ones-complement numbers. */
  ghost predicate Cong(a: int, b: int) { exists k :: a - b == Multiple(k) }

  function Not16(x: U16): U16 { 0xffff - x }

  /** The 16-bit words of `b` as the host reads them, an odd last byte on its own. */
  function Words(b: seq<U8>): (ws: seq<U16>)
    ensures |ws| == (|b| + 1) / 2
  {
    if b == [] then [] else if |b| == 1 then [b[0]] else [b[0] as int + 256 * b[1] as int] + Words(b[2..])
  }

  function Sum(ws: seq<U16>): nat { if ws == [] then 0 else ws[0] + Sum(ws[1..]) }

  // ---------------------------------------------------------------- computing

  /** `csum_continue`. */
  method Continue(partial: U32, data: seq<U8>) returns (r: U32)
    ensures r == (partial + Sum(Words(data))) % 0x1_0000_0000
  {
    r := partial;
    var rest := data;
    while |rest| > 1
      invariant (r + Sum(Words(rest))) % 0x1_0000_0000 == (partial + Sum(Words(data))) % 0x1_0000_0000
      decreases |rest|
    {
      var w: U16 := rest[0] as int + 256 * rest[1] as int;
      Wraps(r + w, Sum(Words(rest[2..])));
      r := (r + w) % 0x1_0000_0000;
      rest := rest[2..];
    }
    if |rest| == 1 {
      assert Sum([rest[0] as U16]) == rest[0];
      r := (r + rest[0]) % 0x1_0000_0000;
    }
  }

  lemma Wraps(a: nat, b: nat)
    ensures (a % 0x1_0000_0000 + b) % 0x1_0000_0000 == (a + b) % 0x1_0000_0000
  {
  }

  function Halves(partial: U32): nat { partial % 0x1_0000 + partial / 0x1_0000 }

  /** `csum_finish`: one fold, cut to 16 bits. */
  function Finish(partial: U32): U16 { Not16(Halves(partial) % 0x1_0000) }

  function Csum(data: seq<U8>): U16 { Finish(Sum(Words(data)) % 0x1_0000_0000) }

  /** A finished checksum cancels what it sums exactly when the one fold leaves no carry. */
  lemma FinishExact(partial: U32)
    ensures Cong(Finish(partial) + partial, 0) <==> Halves(partial) <= 0xffff
  {
    var hi, x := partial / 0x1_0000, Halves(partial);
    DivMod(partial);
    DivMod(x);
    if x <= 0xffff {
      CongBy(Finish(partial) + partial, 0, hi + 1);
    } else {
      assert Finish(partial) + partial - 1 == Multiple(hi + 2);
      CongBy(Finish(partial) + partial, 1, hi + 2);
      CongOff(Finish(partial) + partial, 0, 1);
    }
  }

  // ---------------------------------------------------------------- updating

  function StepSum(c: U16, m: U16, m': U16): nat { Not16(c) + Not16(m) + m' }

  function Recalc16(c: U16, m: U16, m': U16): U16 {
    var sum := StepSum(c, m, m');
    Not16((sum + sum / 0x1_0000) % 0x1_0000)
  }

  function Recalc32(c: U16, o: U32, n: U32): U16 {
    Recalc16(Recalc16(c, o % 0x1_0000, n % 0x1_0000), o / 0x1_0000, n / 0x1_0000)
  }

  function Recalc64(c: U16, o: U64, n: U64): U16 {
    Recalc32(Recalc32(c, o % 0x1_0000_0000, n % 0x1_0000_0000), o / 0x1_0000_0000, n / 0x1_0000_0000)
  }

  /** The 64-bit number the host reads from eight bytes. */
  function Load64(b: seq<U8>): U64
    requires |b| == 8
  {
    Load32(b[..4]) + 0x1_0000_0000 * Load32(b[4..])
  }

  function Load32(b: seq<U8>): U32
    requires |b| == 4
  {
    (b[0] as int + 0x100 * b[1] as int) + 0x1_0000 * (b[2] as int + 0x100 * b[3] as int)
  }

  function Recalc128(c: U16, o: seq<U8>, n: seq<U8>): U16
    requires |o| == 16 && |n| == 16
  {
    Recalc64(Recalc64(c, Load64(o[8..]), Load64(n[8..])), Load64(o[..8]), Load64(n[..8]))
  }

  /** Steps through two rows of words with `f`. */
  function Fold(f: (U16, U16, U16) -> U16, c: U16, os: seq<U16>, ns: seq<U16>): U16
    requires |os| == |ns|
    decreases |os|
  {
    if os == [] then c else Fold(f, f(c, os[0], ns[0]), os[1..], ns[1..])
  }

  /** One update word by word. */
  function Recalc(c: U16, os: seq<U16>, ns: seq<U16>): U16
    requires |os| == |ns|
  {
    Fold(Recalc16, c, os, ns)
  }

  /** Steps in which the fold drops a carry. */
  function Dropped(c: U16, os: seq<U16>, ns: seq<U16>): (k: nat)
    requires |os| == |ns|
    ensures k <= |os|
    decreases |os|
  {
    if os == [] then 0
    else (if StepSum(c, os[0], ns[0]) == 0x1ffff then 1 else 0) + Dropped(Recalc16(c, os[0], ns[0]), os[1..], ns[1..])
  }

  lemma CongBy(a: int, b: int, k: int)
    requires a - b == 65535 * k
    ensures Cong(a, b)
  {
    assert a - b == Multiple(k);
  }

  lemma DivMod(x: int)
    ensures x == 0x1_0000 * (x / 0x1_0000) + x % 0x1_0000 && 0 <= x % 0x1_0000 < 0x1_0000
  {
  }

  /** Each step is right, or one too great when its sum is 0x1ffff. */
  lemma StepEffect(c: U16, m: U16, m': U16)
    ensures Cong(Recalc16(c, m, m') + m', c + m + if StepSum(c, m, m') == 0x1ffff then 1 else 0)
  {
    var sum := StepSum(c, m, m');
    var a: int, b: int := sum / 0x1_0000, sum % 0x1_0000;
    DivMod(sum);
    DivMod(sum + a);
    if a + b <= 0xffff {
      assert (sum + a) % 0x1_0000 == a + b;
      CongBy(Recalc16(c, m, m') + m', c + m, a - 1);
    } else {
      assert sum == 0x1ffff;
      CongBy(Recalc16(c, m, m') + m', c + m + 1, 1);
    }
  }

  /** Being off by less than the modulus is being off. */
  lemma CongOff(a: int, b: int, k: nat)
    requires Cong(a, b + k) && k < 65535
    ensures Cong(a, b) <==> k == 0
  {
    var j :| a - (b + k) == Multiple(j);
    if Cong(a, b) {
      var i :| a - b == Multiple(i);
      assert k == 65535 * (i - j);
    }
  }

  lemma CongStep(r: int, sn: int, n: int, d: int, so: int, k: int, c: int, o: int, j: int)
    requires Cong(d + n, c + o + j) && Cong(r + sn, d + so + k)
    ensures Cong(r + (n + sn), c + (o + so) + (j + k))
  {
    var a :| (d + n) - (c + o + j) == Multiple(a);
    var b :| (r + sn) - (d + so + k) == Multiple(b);
    CongBy(r + (n + sn), c + (o + so) + (j + k), a + b);
  }

  lemma {:induction false} RecalcEffect(c: U16, os: seq<U16>, ns: seq<U16>)
    requires |os| == |ns|
    ensures Cong(Recalc(c, os, ns) + Sum(ns), c + Sum(os) + Dropped(c, os, ns))
    decreases |os|
  {
    if os == [] {
      CongBy(c, c, 0);
    } else {
      var d := Recalc16(c, os[0], ns[0]);
      var r, k := Recalc(d, os[1..], ns[1..]), Dropped(d, os[1..], ns[1..]);
      var j := if StepSum(c, os[0], ns[0]) == 0x1ffff then 1 else 0;
      StepEffect(c, os[0], ns[0]);
      RecalcEffect(d, os[1..], ns[1..]);
      CongStep(r, Sum(ns[1..]), ns[0], d, Sum(os[1..]), k, c, os[0], j);
    }
  }

  /** An update keeps the total exactly when no step has the sum 0x1ffff. */
  lemma RecalcExact(c: U16, os: seq<U16>, ns: seq<U16>)
    requires |os| == |ns| < 65535
    ensures Cong(Recalc(c, os, ns) + Sum(ns), c + Sum(os)) <==> Dropped(c, os, ns) == 0
  {
    RecalcEffect(c, os, ns);
    CongOff(Recalc(c, os, ns) + Sum(ns), c + Sum(os), Dropped(c, os, ns));
  }

  // ---------------------------------------------------------------- fields of several words

  lemma FirstOfConcat<T>(a: seq<T>, b: seq<T>)
    requires a != []
    ensures (a + b)[0] == a[0] && (a + b)[1..] == a[1..] + b
  {
  }

  lemma FirstTwoOfConcat<T>(a: seq<T>, b: seq<T>)
    requires |a| >= 2
    ensures (a + b)[0] == a[0] && (a + b)[1] == a[1] && (a + b)[2..] == a[2..] + b
  {
  }

  lemma {:induction false} FoldConcat(
    f: (U16, U16, U16) -> U16, c: U16, a: seq<U16>, b: seq<U16>, a': seq<U16>, b': seq<U16>)
    requires |a| == |a'| && |b| == |b'|
    ensures Fold(f, c, a + b, a' + b') == Fold(f, Fold(f, c, a, a'), b, b')
    decreases |a|
  {
    if a == [] {
      assert a + b == b && a' + b' == b';
    } else {
      FirstOfConcat(a, b);
      FirstOfConcat(a', b');
      FoldConcat(f, f(c, a[0], a'[0]), a[1..], b, a'[1..], b');
    }
  }

  lemma FoldTwo(f: (U16, U16, U16) -> U16, c: U16, os: seq<U16>, ns: seq<U16>)
    requires |os| == |ns| == 2
    ensures Fold(f, c, os, ns) == f(f(c, os[0], ns[0]), os[1], ns[1])
  {
    FoldOne(f, f(c, os[0], ns[0]), os[1..], ns[1..]);
  }

  lemma FoldOne(f: (U16, U16, U16) -> U16, c: U16, os: seq<U16>, ns: seq<U16>)
    requires |os| == |ns| == 1
    ensures Fold(f, c, os, ns) == f(c, os[0], ns[0])
  {
    assert os[1..] == [];
  }

  lemma {:induction false} SumConcat(a: seq<U16>, b: seq<U16>)
    ensures Sum(a + b) == Sum(a) + Sum(b)
  {
    if a == [] {
      assert a + b == b;
    } else {
      SumConcat(a[1..], b);
      assert (a + b)[1..] == a[1..] + b;
    }
  }

  lemma {:induction false} WordsConcat(a: seq<U8>, b: seq<U8>)
    requires |a| % 2 == 0
    ensures Words(a + b) == Words(a) + Words(b)
    decreases |a|
  {
    if a == [] {
      assert a + b == b;
    } else {
      FirstTwoOfConcat(a, b);
      WordsConcat(a[2..], b);
      assert [a[0] as int + 256 * a[1] as int] + (Words(a[2..]) + Words(b)) == Words(a) + Words(b);
    }
  }

  lemma Words4(b: seq<U8>)
    requires |b| == 4
    ensures Words(b) == [Load32(b) % 0x1_0000, Load32(b) / 0x1_0000]
  {
    assert Words(b[2..]) == [b[2] as int + 256 * b[3] as int] + Words(b[4..]);
    assert b[2..][2..] == b[4..] == [];
  }

  lemma Recalc32Words(c: U16, o: seq<U8>, n: seq<U8>)
    requires |o| == 4 && |n| == 4
    ensures Recalc32(c, Load32(o), Load32(n)) == Recalc(c, Words(o), Words(n))
  {
    Words4(o);
    Words4(n);
    FoldTwo(Recalc16, c, Words(o), Words(n));
  }

  lemma Load64Halves(b: seq<U8>)
    requires |b| == 8
    ensures Load64(b) % 0x1_0000_0000 == Load32(b[..4]) && Load64(b) / 0x1_0000_0000 == Load32(b[4..])
  {
    var lo: U32, hi: U32 := Load32(b[..4]), Load32(b[4..]);
    assert Load64(b) == lo + 0x1_0000_0000 * hi;
  }

  lemma Recalc64Words(c: U16, o: seq<U8>, n: seq<U8>)
    requires |o| == 8 && |n| == 8
    ensures Recalc64(c, Load64(o), Load64(n)) == Recalc(c, Words(o), Words(n))
  {
    Load64Halves(o);
    Load64Halves(n);
    Recalc32Words(c, o[..4], n[..4]);
    Recalc32Words(Recalc(c, Words(o[..4]), Words(n[..4])), o[4..], n[4..]);
    SplitWords(o, 4);
    SplitWords(n, 4);
    FoldConcat(Recalc16, c, Words(o[..4]), Words(o[4..]), Words(n[..4]), Words(n[4..]));
  }

  lemma SplitWords(b: seq<U8>, k: nat)
    requires k <= |b| && k % 2 == 0
    ensures Words(b) == Words(b[..k]) + Words(b[k..]) && Sum(Words(b)) == Sum(Words(b[..k])) + Sum(Words(b[k..]))
  {
    assert b == b[..k] + b[k..];
    WordsConcat(b[..k], b[k..]);
    SumConcat(Words(b[..k]), Words(b[k..]));
  }

  /** The words of a field in the order its update takes them: the second half of a 128-bit field comes first. */
  function FieldWords(f: seq<U8>): seq<U16> {
    if |f| == 16 then Words(f[8..]) + Words(f[..8]) else Words(f)
  }

  predicate FieldSize(n: nat) { n == 2 || n == 4 || n == 8 || n == 16 }

  /** The update for a field of 16, 32, 64 or 128 bits. */
  function RecalcField(c: U16, o: seq<U8>, n: seq<U8>): U16
    requires FieldSize(|o|) && |n| == |o|
  {
    if |o| == 2 then Recalc16(c, o[0] as int + 256 * o[1] as int, n[0] as int + 256 * n[1] as int)
    else if |o| == 4 then Recalc32(c, Load32(o), Load32(n))
    else if |o| == 8 then Recalc64(c, Load64(o), Load64(n))
    else Recalc128(c, o, n)
  }

  lemma FieldWordsSum(f: seq<U8>)
    ensures Sum(FieldWords(f)) == Sum(Words(f)) && |FieldWords(f)| == (|f| + 1) / 2
  {
    if |f| == 16 {
      SplitWords(f, 8);
      SumConcat(Words(f[8..]), Words(f[..8]));
    }
  }

  lemma Recalc128Words(c: U16, o: seq<U8>, n: seq<U8>)
    requires |o| == 16 && |n| == 16
    ensures |FieldWords(o)| == |FieldWords(n)| && Recalc128(c, o, n) == Recalc(c, FieldWords(o), FieldWords(n))
  {
    FieldWordsSum(o);
    FieldWordsSum(n);
    Recalc64Words(c, o[8..], n[8..]);
    Recalc64Words(Recalc(c, Words(o[8..]), Words(n[8..])), o[..8], n[..8]);
    FoldConcat(Recalc16, c, Words(o[8..]), Words(o[..8]), Words(n[8..]), Words(n[..8]));
  }

  /** Whatever its width, a field is updated word by word. */
  lemma RecalcFieldWords(c: U16, o: seq<U8>, n: seq<U8>)
    requires FieldSize(|o|) && |n| == |o|
    ensures |FieldWords(o)| == |FieldWords(n)| && RecalcField(c, o, n) == Recalc(c, FieldWords(o), FieldWords(n))
  {
    FieldWordsSum(o);
    FieldWordsSum(n);
    if |o| == 2 {
      FoldOne(Recalc16, c, Words(o), Words(n));
    } else if |o| == 4 {
      Recalc32Words(c, o, n);
    } else if |o| == 8 {
      Recalc64Words(c, o, n);
    } else {
      Recalc128Words(c, o, n);
    }
  }

  // ---------------------------------------------------------------- whole packets

  /** The checksum of the bytes folds without a carry, and their sum without wrapping around. */
  predicate Folds(p: seq<U8>) {
    Sum(Words(p)) < 0x1_0000_0000 && Halves(Sum(Words(p))) <= 0xffff
  }

  /** No packet of up to 64 KiB wraps the sum around. */
  lemma {:induction false} SumBound(p: seq<U8>)
    ensures Sum(Words(p)) <= 0xffff * ((|p| + 1) / 2)
    decreases |p|
  {
    if |p| == 1 {
      assert Sum(Words(p)) == p[0] + Sum([]);
    } else if |p| > 1 {
      SumBound(p[2..]);
    }
  }

  lemma ShortFits(p: seq<U8>)
    requires |p| <= 0x1_0000
    ensures Sum(Words(p)) < 0x1_0000_0000
  {
    SumBound(p);
  }

  /** Replaces `|n|` bytes from `i`. */
  function Replace(p: seq<U8>, i: nat, n: seq<U8>): seq<U8>
    requires i + |n| <= |p|
  {
    p[..i] + n + p[i + |n|..]
  }

  lemma SumThree(a: seq<U8>, b: seq<U8>, c: seq<U8>)
    requires |a| % 2 == 0 && |b| % 2 == 0
    ensures Sum(Words(a + b + c)) == Sum(Words(a)) + Sum(Words(b)) + Sum(Words(c))
  {
    WordsConcat(a + b, c);
    WordsConcat(a, b);
    SumConcat(Words(a + b), Words(c));
    SumConcat(Words(a), Words(b));
  }

  lemma ThreeParts<T>(p: seq<T>, i: nat, k: nat)
    requires i <= k <= |p|
    ensures p == p[..i] + p[i..k] + p[k..]
  {
  }

  lemma ReplaceSum(p: seq<U8>, i: nat, n: seq<U8>)
    requires i % 2 == 0 && |n| % 2 == 0 && i + |n| <= |p|
    ensures Sum(Words(Replace(p, i, n))) - Sum(Words(n)) == Sum(Words(p)) - Sum(Words(p[i..i + |n|]))
  {
    ThreeParts(p, i, i + |n|);
    SumThree(p[..i], p[i..i + |n|], p[i + |n|..]);
    SumThree(p[..i], n, p[i + |n|..]);
  }

  lemma CsumCancels(p: seq<U8>)
    requires Folds(p)
    ensures Cong(Csum(p) + Sum(Words(p)), 0)
  {
    CsumIsFinish(p);
    FinishExact(Sum(Words(p)));
  }

  lemma CsumIsFinish(p: seq<U8>)
    requires Sum(Words(p)) < 0x1_0000_0000
    ensures Csum(p) == Finish(Sum(Words(p)))
  {
    Small(Sum(Words(p)));
  }

  lemma Small(x: nat)
    requires x < 0x1_0000_0000
    ensures x % 0x1_0000_0000 == x
  {
  }

  /** Updating a field moves the total of checksum and field not at all, exactly when no step drops a carry. */
  lemma FieldExact(c: U16, o: seq<U8>, n: seq<U8>)
    requires FieldSize(|o|) && |n| == |o|
    ensures |FieldWords(o)| == |FieldWords(n)|
    ensures Cong(RecalcField(c, o, n) + Sum(Words(n)), c + Sum(Words(o)))
        <==> Dropped(c, FieldWords(o), FieldWords(n)) == 0
  {
    RecalcFieldWords(c, o, n);
    FieldWordsSum(o);
    FieldWordsExact(c, RecalcField(c, o, n), o, n);
  }

  lemma FieldWordsExact(c: U16, r: U16, o: seq<U8>, n: seq<U8>)
    requires |FieldWords(o)| == |FieldWords(n)| < 65535 && r == Recalc(c, FieldWords(o), FieldWords(n))
    ensures Cong(r + Sum(Words(n)), c + Sum(Words(o))) <==> Dropped(c, FieldWords(o), FieldWords(n)) == 0
  {
    FieldWordsSum(o);
    FieldWordsSum(n);
    RecalcExact(c, FieldWords(o), FieldWords(n));
  }

  lemma CongChain(r: int, c: int, c': int, s: int, s': int, f: int, f': int)
    requires Cong(c + s, 0) && Cong(c' + s', 0) && s' - f' == s - f
    ensures Cong(r, c') <==> Cong(r + f', c + f)
  {
    var a :| c + s - 0 == Multiple(a);
    var b :| c' + s' - 0 == Multiple(b);
    if Cong(r, c') {
      var k :| r - c' == Multiple(k);
      CongBy(r + f', c + f, k + b - a);
    }
    if Cong(r + f', c + f) {
      var k :| (r + f') - (c + f) == Multiple(k);
      CongBy(r, c', k - b + a);
    }
  }

  lemma UpdateFrom(c: U16, c': U16, p: seq<U8>, i: nat, n: seq<U8>)
    requires i % 2 == 0 && FieldSize(|n|) && i + |n| <= |p|
    requires Cong(c + Sum(Words(p)), 0) && Cong(c' + Sum(Words(Replace(p, i, n))), 0)
    ensures var o := p[i..i + |n|];
      && |FieldWords(o)| == |FieldWords(n)|
      && (Cong(RecalcField(c, o, n), c') <==> Dropped(c, FieldWords(o), FieldWords(n)) == 0)
  {
    var o, q := p[i..i + |n|], Replace(p, i, n);
    FieldExact(c, o, n);
    ReplaceSum(p, i, n);
    CongChain(RecalcField(c, o, n), c, c', Sum(Words(p)), Sum(Words(q)), Sum(Words(o)), Sum(Words(n)));
  }

  /**
   * For every packet and every aligned field, updating the checksum agrees
   * modulo 65535 with computing it afresh exactly when no step drops a carry.
   */
  lemma UpdateExact(p: seq<U8>, i: nat, n: seq<U8>)
    requires i % 2 == 0 && FieldSize(|n|) && i + |n| <= |p| && Folds(p) && Folds(Replace(p, i, n))
    ensures var o := p[i..i + |n|];
      && |FieldWords(o)| == |FieldWords(n)|
      && (Cong(RecalcField(Csum(p), o, n), Csum(Replace(p, i, n)))
          <==> Dropped(Csum(p), FieldWords(o), FieldWords(n)) == 0)
  {
    CsumCancels(p);
    CsumCancels(Replace(p, i, n));
    UpdateFrom(Csum(p), Csum(Replace(p, i, n)), p, i, n);
  }

  lemma StepNotOnes(c: U16, m: U16, m': U16)
    requires c != 0xffff && StepSum(c, m, m') != 0x1ffff
    ensures Recalc16(c, m, m') != 0xffff
  {
    var sum := StepSum(c, m, m');
    var a, b := sum / 0x1_0000, sum % 0x1_0000;
    assert a + b <= 0xffff;
  }

  lemma {:induction false} RecalcNotOnes(c: U16, os: seq<U16>, ns: seq<U16>)
    requires |os| == |ns| && c != 0xffff && Dropped(c, os, ns) == 0
    ensures Recalc(c, os, ns) != 0xffff
    decreases |os|
  {
    if os != [] {
      StepNotOnes(c, os[0], ns[0]);
      RecalcNotOnes(Recalc16(c, os[0], ns[0]), os[1..], ns[1..]);
    }
  }

  lemma CsumOnes(p: seq<U8>)
    requires Folds(p)
    ensures Csum(p) == 0xffff <==> Sum(Words(p)) == 0
  {
    CsumIsFinish(p);
    FinishOnes(Sum(Words(p)));
  }

  lemma FinishOnes(partial: U32)
    requires Halves(partial) <= 0xffff
    ensures Finish(partial) == 0xffff <==> partial == 0
  {
  }

  lemma FieldNotOnes(c: U16, o: seq<U8>, n: seq<U8>)
    requires FieldSize(|o|) && |n| == |o| && c != 0xffff && |FieldWords(o)| == |FieldWords(n)|
    requires Dropped(c, FieldWords(o), FieldWords(n)) == 0
    ensures RecalcField(c, o, n) != 0xffff
  {
    RecalcFieldWords(c, o, n);
    RecalcNotOnes(c, FieldWords(o), FieldWords(n));
  }

  lemma CongEqual(a: U16, b: U16)
    requires Cong(a, b) && a != 0xffff
    ensures a == b <==> b != 0xffff
  {
    var k :| a - b == Multiple(k);
  }

  /** And then the update gives the very same checksum, unless every byte of the packet has become zero. */
  lemma UpdateEqual(p: seq<U8>, i: nat, n: seq<U8>)
    requires i % 2 == 0 && FieldSize(|n|) && i + |n| <= |p| && Folds(p) && Folds(Replace(p, i, n))
    requires Sum(Words(p)) > 0 && |FieldWords(p[i..i + |n|])| == |FieldWords(n)|
    requires Dropped(Csum(p), FieldWords(p[i..i + |n|]), FieldWords(n)) == 0
    ensures RecalcField(Csum(p), p[i..i + |n|], n) == Csum(Replace(p, i, n)) <==> Sum(Words(Replace(p, i, n))) > 0
  {
    var o, q := p[i..i + |n|], Replace(p, i, n);
    UpdateExact(p, i, n);
    CsumOnes(p);
    CsumOnes(q);
    FieldNotOnes(Csum(p), o, n);
    CongEqual(RecalcField(Csum(p), o, n), Csum(q));
  }

  /** Where the fold does carry, the checksum is wrong: these three words sum to 0x1ffff. */
  lemma CarryLost()
    ensures var p: seq<U8> := [0xff, 0xff, 0xff, 0xff, 1, 0];
      Csum(p) == 0xffff && !Cong(Csum(p) + Sum(Words(p)), 0)
  {
    var p: seq<U8> := [0xff, 0xff, 0xff, 0xff, 1, 0];
    assert p[2..] == [0xff, 0xff, 1, 0] && p[2..][2..] == [1, 0] && p[2..][2..][2..] == [];
    assert Words(p[2..][2..]) == [1];
    assert Words(p) == [0xffff, 0xffff, 1];
    assert Sum([1]) == 1 && Sum([0xffff, 1]) == 0x1_0000;
    assert [0xffff, 0xffff, 1][1..] == [0xffff, 1] && [0xffff, 1][1..] == [1];
    assert Sum(Words(p)) == 0x1ffff;
    FinishExact(0x1ffff);
  }

  /** An update that drops a carry: the word 0 behind 0xffff becomes 1, and the checksum is
      updated to 0xffff where it should be 0xfffe. */
  lemma UpdateCarryLost()
    ensures var p: seq<U8> := [0xff, 0xff, 0, 0];
      && Folds(p) && Folds(Replace(p, 2, [1, 0]))
      && StepSum(Csum(p), 0, 1) == 0x1ffff
      && RecalcField(Csum(p), p[2..4], [1, 0]) == 0xffff && Csum(Replace(p, 2, [1, 0])) == 0xfffe
  {
    var p: seq<U8> := [0xff, 0xff, 0, 0];
    TwoWords(0xff, 0xff, 0, 0);
    CsumOf(p, 0xffff);
    ReplacedSecond();
    assert p[2..4] == [0, 0];
  }

  lemma ReplacedSecond()
    ensures var q := Replace([0xff, 0xff, 0, 0], 2, [1, 0]); Folds(q) && Csum(q) == 0xfffe
  {
    var q: seq<U8> := [0xff, 0xff, 1, 0];
    assert Replace([0xff, 0xff, 0, 0], 2, [1, 0]) == q;
    TwoWords(0xff, 0xff, 1, 0);
    CsumOf(q, 0x1_0000);
  }

  lemma CsumOf(p: seq<U8>, sum: U32)
    requires Sum(Words(p)) == sum
    ensures Csum(p) == Finish(sum) && (Folds(p) <==> Halves(sum) <= 0xffff)
  {
    Small(sum);
  }

  lemma TwoWords(a: U8, b: U8, c: U8, d: U8)
    ensures Sum(Words([a, b, c, d])) == (a as int + 256 * b as int) + (c as int + 256 * d as int)
  {
    assert [a, b, c, d][2..] == [c, d] && [c, d][2..] == [];
    assert Words([c, d]) == [c as int + 256 * d as int];
    var w: U16, v: U16 := a as int + 256 * b as int, c as int + 256 * d as int;
    assert Words([a, b, c, d]) == [w] + [v];
    assert ([w] + [v])[1..] == [v] && Sum([v]) == v;
  }
}

/** DHCP options as a table from code to bytes, and their wire format. */
module DhcpOptions {
  type Byte = x: int | 0 <= x < 256

  const PAD: Byte := 0
  const END: Byte := 255
  const VENDOR_SPECIFIC: Byte := 43
  const MSG_TYPE: Byte := 53
  const N_OPTIONS := 512
  const VENDOR_OFS := 256

  /** What a message holds: its options, and whether it owns a data block yet. */
  datatype Table = Table(options: map<nat, seq<Byte>>, hasBlock: bool)

  const EMPTY := Table(map[], false)

  function Get(m: map<nat, seq<Byte>>, key: nat): seq<Byte> {
    if key in m then m[key] else []
  }

  /**
   * Appends `d` to an option.  An option put empty into a message without a
   * data block gets a null pointer for its data, and so stays absent.
   */
  function Put(t: Table, key: nat, d: seq<Byte>): Table {
    if key == PAD || key == END || (!t.hasBlock && d == []) then t
    else Table(t.options[key := Get(t.options, key) + d], true)
  }

  /** Where the payload of the option that starts `b` ends. */
  function PayloadEnd(b: seq<Byte>): nat
    requires |b| >= 2
  {
    b[1] as int + 2
  }

  function Parse(t: Table, b: seq<Byte>, ofs: nat): Table
    decreases |b|
  {
    if b == [] || b[0] == END then t
    else if b[0] == PAD then Parse(t, b[1..], ofs)
    else if |b| < 2 || |b| < PayloadEnd(b) then t
    else Parse(Put(t, b[0] + ofs, b[2..PayloadEnd(b)]), b[PayloadEnd(b)..], ofs)
  }

  /** One option on the wire: pieces of 248 bytes while more than 255 are left. */
  function Chunks(code: Byte, d: seq<Byte>): (r: seq<Byte>)
    ensures |r| >= 2
  {
    if |d| > 255 then [code, 248] + d[..248] + Chunks(code, d[248..]) else [code, |d|] + d
  }

  function OptionBytes(m: map<nat, seq<Byte>>, key: nat, code: Byte): seq<Byte> {
    if key in m then Chunks(code, m[key]) else []
  }

  /** Options `ofs` up to `ofs + k`, in order of their codes. */
  function Block(m: map<nat, seq<Byte>>, ofs: nat, k: nat): seq<Byte>
    requires k <= 256
  {
    if k == 0 then [] else Block(m, ofs, k - 1) + OptionBytes(m, ofs + k - 1, k - 1)
  }

  function VendorBlock(m: map<nat, seq<Byte>>): seq<Byte> { Block(m, VENDOR_OFS, 256) }

  /** The options part of an assembled message; `msgType` 0 stands for none. */
  function Assembled(m: map<nat, seq<Byte>>, msgType: Byte): seq<Byte> {
    (if msgType != 0 then Chunks(MSG_TYPE, [msgType]) else [])
    + Block(m, 0, 256)
    + VendorBytes(VendorBlock(m))
    + [END]
  }

  // ---------------------------------------------------------------- reading back pieces

  /** A code with at most 255 bytes, as the wire carries them. */
  datatype Item = Item(code: Byte, payload: seq<Byte>)

  predicate ItemOk(x: Item) { PAD < x.code < END && |x.payload| <= 255 }

  predicate AllOk(xs: seq<Item>) { xs != [] ==> ItemOk(xs[0]) && AllOk(xs[1..]) }

  function ItemBytes(x: Item): seq<Byte>
    requires |x.payload| <= 255
  {
    [x.code, |x.payload|] + x.payload
  }

  function Encoded(xs: seq<Item>): seq<Byte>
    requires AllOk(xs)
  {
    if xs == [] then [] else ItemBytes(xs[0]) + Encoded(xs[1..])
  }

  function PutItems(t: Table, xs: seq<Item>, ofs: nat): Table
    decreases |xs|
  {
    if xs == [] then t else PutItems(Put(t, xs[0].code + ofs, xs[0].payload), xs[1..], ofs)
  }

  lemma Assoc<T>(a: seq<T>, b: seq<T>, c: seq<T>)
    ensures (a + b) + c == a + (b + c)
  {
  }

  lemma ParseOne(t: Table, x: Item, rest: seq<Byte>, ofs: nat)
    requires ItemOk(x)
    ensures Parse(t, ItemBytes(x) + rest, ofs) == Parse(Put(t, x.code + ofs, x.payload), rest, ofs)
  {
    var b := ItemBytes(x) + rest;
    assert b[2..2 + |x.payload|] == x.payload && b[2 + |x.payload|..] == rest;
  }

  lemma {:induction false} ParseEncoded(t: Table, xs: seq<Item>, rest: seq<Byte>, ofs: nat)
    requires AllOk(xs)
    ensures Parse(t, Encoded(xs) + rest, ofs) == Parse(PutItems(t, xs, ofs), rest, ofs)
    decreases |xs|
  {
    if xs == [] {
      assert Encoded(xs) + rest == rest;
    } else {
      Assoc(ItemBytes(xs[0]), Encoded(xs[1..]), rest);
      ParseOne(t, xs[0], Encoded(xs[1..]) + rest, ofs);
      ParseEncoded(Put(t, xs[0].code + ofs, xs[0].payload), xs[1..], rest, ofs);
    }
  }

  lemma FirstOfConcat<T>(a: seq<T>, b: seq<T>)
    requires a != []
    ensures (a + b)[0] == a[0] && (a + b)[1..] == a[1..] + b
  {
  }

  lemma {:induction false} AllOkConcat(xs: seq<Item>, ys: seq<Item>)
    ensures AllOk(xs) && AllOk(ys) ==> AllOk(xs + ys)
  {
    if xs == [] {
      assert xs + ys == ys;
    } else {
      FirstOfConcat(xs, ys);
      AllOkConcat(xs[1..], ys);
    }
  }

  lemma {:induction false} EncodedConcat(xs: seq<Item>, ys: seq<Item>)
    requires AllOk(xs) && AllOk(ys)
    ensures AllOk(xs + ys) && Encoded(xs + ys) == Encoded(xs) + Encoded(ys)
  {
    if xs == [] {
      assert xs + ys == ys && Encoded(xs) + Encoded(ys) == Encoded(ys);
    } else {
      FirstOfConcat(xs, ys);
      EncodedConcat(xs[1..], ys);
      Assoc(ItemBytes(xs[0]), Encoded(xs[1..]), Encoded(ys));
    }
  }

  lemma {:induction false} PutItemsConcat(t: Table, xs: seq<Item>, ys: seq<Item>, ofs: nat)
    ensures PutItems(t, xs + ys, ofs) == PutItems(PutItems(t, xs, ofs), ys, ofs)
    decreases |xs|
  {
    if xs == [] {
      assert xs + ys == ys;
    } else {
      FirstOfConcat(xs, ys);
      PutItemsConcat(Put(t, xs[0].code + ofs, xs[0].payload), xs[1..], ys, ofs);
    }
  }

  // ---------------------------------------------------------------- reading back one option

  /** The pieces of one option. */
  function Pieces(code: Byte, d: seq<Byte>): (xs: seq<Item>)
    ensures PAD < code < END ==> AllOk(xs)
  {
    if |d| > 255 then [Item(code, d[..248])] + Pieces(code, d[248..]) else [Item(code, d)]
  }

  lemma {:induction false} ChunksEncoded(code: Byte, d: seq<Byte>)
    requires PAD < code < END
    ensures Chunks(code, d) == Encoded(Pieces(code, d))
    decreases |d|
  {
    if |d| > 255 {
      ChunksEncoded(code, d[248..]);
      assert Pieces(code, d)[1..] == Pieces(code, d[248..]);
    } else {
      assert Pieces(code, d)[1..] == [];
      assert ItemBytes(Item(code, d)) + [] == ItemBytes(Item(code, d));
    }
  }

  lemma PutTwice(t: Table, key: nat, a: seq<Byte>, b: seq<Byte>)
    requires a != []
    ensures Put(Put(t, key, a), key, b) == Put(t, key, a + b)
  {
    assert Get(t.options, key) + a + b == Get(t.options, key) + (a + b);
  }

  /** However long the option, its pieces are put back together as one value. */
  lemma {:induction false} PutPieces(t: Table, code: Byte, d: seq<Byte>, ofs: nat)
    ensures PutItems(t, Pieces(code, d), ofs) == Put(t, code + ofs, d)
    decreases |d|
  {
    var xs := Pieces(code, d);
    if |d| > 255 {
      assert xs[1..] == Pieces(code, d[248..]);
      PutPieces(Put(t, code + ofs, d[..248]), code, d[248..], ofs);
      PutTwice(t, code + ofs, d[..248], d[248..]);
      assert d[..248] + d[248..] == d;
    } else {
      assert xs[1..] == [];
    }
  }

  lemma ParseChunks(t: Table, code: Byte, d: seq<Byte>, rest: seq<Byte>, ofs: nat)
    requires PAD < code < END
    ensures Parse(t, Chunks(code, d) + rest, ofs) == Parse(Put(t, code + ofs, d), rest, ofs)
  {
    ChunksEncoded(code, d);
    PutPieces(t, code, d, ofs);
    ParseEncoded(t, Pieces(code, d), rest, ofs);
  }

  // ---------------------------------------------------------------- reading back a block

  /** Puts options `ofs` up to `ofs + k` of `m` into `t`, in order. */
  function PutRange(t: Table, m: map<nat, seq<Byte>>, ofs: nat, k: nat): Table {
    if k == 0 then t
    else if ofs + k - 1 in m then Put(PutRange(t, m, ofs, k - 1), ofs + k - 1, m[ofs + k - 1])
    else PutRange(t, m, ofs, k - 1)
  }

  /** The codes that frame a block are not option codes. */
  predicate Framed(m: map<nat, seq<Byte>>, ofs: nat) { ofs + PAD !in m && ofs + END !in m }

  function OptionPieces(m: map<nat, seq<Byte>>, key: nat, code: Byte): seq<Item> {
    if key in m then Pieces(code, m[key]) else []
  }

  function BlockPieces(m: map<nat, seq<Byte>>, ofs: nat, k: nat): (xs: seq<Item>)
    requires k <= 256
    ensures Framed(m, ofs) ==> AllOk(xs)
  {
    if k == 0 then []
    else
      var xs, ys := BlockPieces(m, ofs, k - 1), OptionPieces(m, ofs + k - 1, k - 1);
      AllOkConcat(xs, ys);
      xs + ys
  }

  lemma {:induction false} BlockEncoded(m: map<nat, seq<Byte>>, ofs: nat, k: nat)
    requires k <= 256 && Framed(m, ofs)
    ensures Block(m, ofs, k) == Encoded(BlockPieces(m, ofs, k))
  {
    if k > 0 {
      BlockEncoded(m, ofs, k - 1);
      OptionEncoded(m, ofs, k - 1);
      EncodesOn(Block(m, ofs, k - 1), BlockPieces(m, ofs, k - 1),
                OptionBytes(m, ofs + k - 1, k - 1), OptionPieces(m, ofs + k - 1, k - 1));
    }
  }

  lemma EncodesOn(b: seq<Byte>, xs: seq<Item>, c: seq<Byte>, ys: seq<Item>)
    requires AllOk(xs) && AllOk(ys) && b == Encoded(xs) && c == Encoded(ys)
    ensures AllOk(xs + ys) && b + c == Encoded(xs + ys)
  {
    EncodedConcat(xs, ys);
  }

  lemma OptionEncoded(m: map<nat, seq<Byte>>, ofs: nat, code: Byte)
    requires Framed(m, ofs)
    ensures AllOk(OptionPieces(m, ofs + code, code))
    ensures OptionBytes(m, ofs + code, code) == Encoded(OptionPieces(m, ofs + code, code))
  {
    if ofs + code in m { ChunksEncoded(code, m[ofs + code]); }
  }

  lemma {:induction false} PutBlockPieces(t: Table, m: map<nat, seq<Byte>>, ofs: nat, k: nat)
    requires k <= 256
    ensures PutItems(t, BlockPieces(m, ofs, k), ofs) == PutRange(t, m, ofs, k)
  {
    if k > 0 {
      PutBlockPieces(t, m, ofs, k - 1);
      PutItemsConcat(t, BlockPieces(m, ofs, k - 1), OptionPieces(m, ofs + k - 1, k - 1), ofs);
      if ofs + k - 1 in m { PutPieces(PutRange(t, m, ofs, k - 1), k - 1, m[ofs + k - 1], ofs); }
    }
  }

  lemma ParseBlock(t: Table, m: map<nat, seq<Byte>>, ofs: nat, k: nat, rest: seq<Byte>)
    requires k <= 256 && Framed(m, ofs)
    ensures Parse(t, Block(m, ofs, k) + rest, ofs) == Parse(PutRange(t, m, ofs, k), rest, ofs)
  {
    BlockEncoded(m, ofs, k);
    PutBlockPieces(t, m, ofs, k);
    ParseEncoded(t, BlockPieces(m, ofs, k), rest, ofs);
  }

  // ---------------------------------------------------------------- pads, ends and cuts

  /** A pad between options changes nothing, whatever comes before it and after. */
  lemma PadsChangeNothing(t: Table, xs: seq<Item>, rest: seq<Byte>, ofs: nat)
    requires AllOk(xs)
    ensures Parse(t, Encoded(xs) + ([PAD] + rest), ofs) == Parse(t, Encoded(xs) + rest, ofs)
  {
    ParseEncoded(t, xs, [PAD] + rest, ofs);
    ParseEncoded(t, xs, rest, ofs);
    assert ([PAD] + rest)[1..] == rest;
  }

  /** The end code keeps exactly the options before it, whatever comes after. */
  lemma EndEndsIt(t: Table, xs: seq<Item>, rest: seq<Byte>, ofs: nat)
    requires AllOk(xs)
    ensures Parse(t, Encoded(xs) + ([END] + rest), ofs) == PutItems(t, xs, ofs)
  {
    ParseEncoded(t, xs, [END] + rest, ofs);
  }

  /** The bytes start an option and break off before its end. */
  predicate CutShort(b: seq<Byte>) {
    b != [] && b[0] != PAD && b[0] != END && (|b| < 2 || |b| < PayloadEnd(b))
  }

  /** So does an option that is cut short, and so do the bytes' own end. */
  lemma CutEndsIt(t: Table, xs: seq<Item>, cut: seq<Byte>, ofs: nat)
    requires AllOk(xs) && (cut == [] || CutShort(cut))
    ensures Parse(t, Encoded(xs) + cut, ofs) == PutItems(t, xs, ofs)
  {
    ParseEncoded(t, xs, cut, ofs);
  }

  /** The options among any bytes, as far as a reader gets. */
  function ItemsIn(b: seq<Byte>): (xs: seq<Item>)
    ensures AllOk(xs)
    decreases |b|
  {
    if b == [] || b[0] == END || CutShort(b) then []
    else if b[0] == PAD then ItemsIn(b[1..])
    else [Item(b[0], b[2..PayloadEnd(b)])] + ItemsIn(b[PayloadEnd(b)..])
  }

  /** How many pads a reader skips among them. */
  function PadsIn(b: seq<Byte>): nat
    decreases |b|
  {
    if b == [] || b[0] == END || CutShort(b) then 0
    else if b[0] == PAD then 1 + PadsIn(b[1..])
    else PadsIn(b[PayloadEnd(b)..])
  }

  /** What a reader does not get to. */
  function Unread(b: seq<Byte>): seq<Byte>
    decreases |b|
  {
    if b == [] || b[0] == END || CutShort(b) then b
    else if b[0] == PAD then Unread(b[1..])
    else Unread(b[PayloadEnd(b)..])
  }

  lemma ItemLength(x: Item, xs: seq<Item>)
    requires ItemOk(x) && AllOk(xs)
    ensures AllOk([x] + xs) && |Encoded([x] + xs)| == 2 + |x.payload| + |Encoded(xs)|
  {
    assert ([x] + xs)[1..] == xs;
  }

  lemma PutFirst(t: Table, x: Item, xs: seq<Item>, ofs: nat)
    ensures PutItems(t, [x] + xs, ofs) == PutItems(Put(t, x.code + ofs, x.payload), xs, ofs)
  {
    assert ([x] + xs)[1..] == xs;
  }

  /** Any bytes at all are read as the options in them, one after another; options, pads and
      what is not read account for every byte, and what is not read starts with the end code
      or an option cut short, or there is none. */
  lemma {:induction false} EveryByteAccounted(t: Table, b: seq<Byte>, ofs: nat)
    ensures Parse(t, b, ofs) == PutItems(t, ItemsIn(b), ofs)
    ensures |b| == |Encoded(ItemsIn(b))| + PadsIn(b) + |Unread(b)|
    ensures Unread(b) == [] || Unread(b)[0] == END || CutShort(Unread(b))
    decreases |b|
  {
    if b == [] || b[0] == END || CutShort(b) {
    } else if b[0] == PAD {
      EveryByteAccounted(t, b[1..], ofs);
    } else {
      var x, rest := Item(b[0], b[2..PayloadEnd(b)]), b[PayloadEnd(b)..];
      EveryByteAccounted(Put(t, x.code + ofs, x.payload), rest, ofs);
      ItemLength(x, ItemsIn(rest));
      PutFirst(t, x, ItemsIn(rest), ofs);
    }
  }

  /** `key` is among options `ofs` up to `ofs + k` of `m`, and is not lost on its way into `t`. */
  predicate Arrives(t: Table, m: map<nat, seq<Byte>>, ofs: nat, k: nat, key: nat) {
    && ofs <= key < ofs + k && key in m
    && (t.hasBlock || exists c :: ofs <= c <= key && c in m && m[c] != [])
  }

  lemma {:induction false} PutRangeAllocated(t: Table, m: map<nat, seq<Byte>>, ofs: nat, k: nat)
    requires k <= 256 && (ofs == 0 || ofs == VENDOR_OFS) && Framed(m, ofs)
    ensures PutRange(t, m, ofs, k).hasBlock
        <==> (t.hasBlock || exists c :: ofs <= c < ofs + k && c in m && m[c] != [])
  {
    if k > 0 {
      PutRangeAllocated(t, m, ofs, k - 1);
      var last := ofs + k - 1;
      assert (exists c :: ofs <= c < ofs + k && c in m && m[c] != [])
        <==> ((exists c :: ofs <= c < last && c in m && m[c] != []) || (last in m && m[last] != []));
    }
  }

  lemma {:induction false} PutRangeAt(t: Table, m: map<nat, seq<Byte>>, ofs: nat, k: nat, key: nat)
    requires k <= 256 && (ofs == 0 || ofs == VENDOR_OFS) && Framed(m, ofs)
    ensures var r := PutRange(t, m, ofs, k).options;
      && (key in r <==> key in t.options || Arrives(t, m, ofs, k, key))
      && Get(r, key) == Get(t.options, key) + if ofs <= key < ofs + k then Get(m, key) else []
  {
    if k > 0 {
      PutRangeAt(t, m, ofs, k - 1, key);
      PutRangeAllocated(t, m, ofs, k - 1);
      var last := ofs + k - 1;
      if key == last && key in m {
        assert Arrives(t, m, ofs, k, key)
          <==> (m[last] != [] || t.hasBlock || exists c :: ofs <= c < last && c in m && m[c] != []);
      } else {
        assert Arrives(t, m, ofs, k, key) <==> Arrives(t, m, ofs, k - 1, key);
      }
    }
  }

  // ---------------------------------------------------------------- when a block reads back as itself

  lemma {:induction false} ParseKeys(t: Table, b: seq<Byte>, ofs: nat, key: nat)
    requires key !in t.options && key in Parse(t, b, ofs).options
    ensures ofs + PAD < key < ofs + END
    decreases |b|
  {
    if b[0] == PAD {
      ParseKeys(t, b[1..], ofs, key);
    } else if key != b[0] + ofs {
      ParseKeys(Put(t, b[0] + ofs, b[2..PayloadEnd(b)]), b[PayloadEnd(b)..], ofs, key);
    }
  }

  /** Every empty option comes after some option that carries data. */
  predicate EmptyLater(m: map<nat, seq<Byte>>) {
    forall key :: key in m && m[key] == [] ==> exists c :: c < key && c in m && m[c] != []
  }

  predicate InBlock(m: map<nat, seq<Byte>>, ofs: nat) { forall key :: key in m ==> ofs <= key < ofs + 256 }

  lemma SameOptions(m: map<nat, seq<Byte>>, n: map<nat, seq<Byte>>)
    requires forall key: nat :: (key in m <==> key in n) && Get(m, key) == Get(n, key)
    ensures m == n
  {
    forall key | key in m ensures key in n && m[key] == n[key] {
      assert Get(m, key) == Get(n, key);
    }
    forall key | key in n ensures key in m {
      assert Get(m, key) == Get(n, key);
    }
  }

  lemma ArrivesAll(m: map<nat, seq<Byte>>, ofs: nat, hasBlock: bool, key: nat)
    requires InBlock(m, ofs) && (hasBlock || EmptyLater(m)) && key in m
    ensures Arrives(Table(map[], hasBlock), m, ofs, 256, key)
  {
    if !hasBlock {
      if m[key] == [] {
        var c :| c < key && c in m && m[c] != [];
        assert ofs <= c <= key;
      }
    }
  }

  /** An option whose code frames the block cannot come back. */
  lemma UnframedLost(m: map<nat, seq<Byte>>, ofs: nat, hasBlock: bool)
    requires !Framed(m, ofs)
    ensures Parse(Table(map[], hasBlock), Block(m, ofs, 256), ofs).options != m
  {
    var r := Parse(Table(map[], hasBlock), Block(m, ofs, 256), ofs).options;
    if r == m {
      ParseKeys(Table(map[], hasBlock), Block(m, ofs, 256), ofs, if ofs + PAD in m then ofs + PAD else ofs + END);
    }
  }

  lemma ParseWholeBlock(m: map<nat, seq<Byte>>, ofs: nat, t: Table)
    requires Framed(m, ofs)
    ensures Parse(t, Block(m, ofs, 256), ofs) == PutRange(t, m, ofs, 256)
  {
    ParseBlock(t, m, ofs, 256, []);
    assert Block(m, ofs, 256) + [] == Block(m, ofs, 256);
  }

  /**
   * A block of options of any lengths is read back exactly, if and only if it
   * uses neither framing code and, where the reader starts without a data
   * block, no empty option comes before the first one with data.
   */
  lemma BlockRoundTrip(m: map<nat, seq<Byte>>, ofs: nat, hasBlock: bool)
    requires (ofs == 0 || ofs == VENDOR_OFS) && InBlock(m, ofs)
    ensures Parse(Table(map[], hasBlock), Block(m, ofs, 256), ofs).options == m
        <==> Framed(m, ofs) && (hasBlock || EmptyLater(m))
  {
    var t := Table(map[], hasBlock);
    if !Framed(m, ofs) {
      UnframedLost(m, ofs, hasBlock);
    } else {
      var r := PutRange(t, m, ofs, 256).options;
      ParseWholeBlock(m, ofs, t);
      forall key: nat ensures (key in r <==> Arrives(t, m, ofs, 256, key)) && Get(r, key) == Get(m, key) {
        PutRangeAt(t, m, ofs, 256, key);
      }
      if hasBlock || EmptyLater(m) {
        forall key | key in m ensures Arrives(t, m, ofs, 256, key) { ArrivesAll(m, ofs, hasBlock, key); }
        SameOptions(r, m);
      } else {
        var key :| key in m && m[key] == [] && !exists c :: c < key && c in m && m[c] != [];
        assert !Arrives(t, m, ofs, 256, key);
      }
    }
  }

  // ---------------------------------------------------------------- whole messages

  lemma {:induction false} BlockEmpty(m: map<nat, seq<Byte>>, ofs: nat, k: nat)
    requires k <= 256
    ensures Block(m, ofs, k) == [] <==> forall key :: ofs <= key < ofs + k ==> key !in m
  {
    if k > 0 {
      BlockEmpty(m, ofs, k - 1);
      assert (forall key :: ofs <= key < ofs + k ==> key !in m)
        <==> (forall key :: ofs <= key < ofs + k - 1 ==> key !in m) && ofs + k - 1 !in m;
    }
  }

  /** What reading an assembled message puts: its type, its options and its vendor block, in that order. */
  function Received(m: map<nat, seq<Byte>>, msgType: Byte): Table {
    PutVendor(PutRange(Put(EMPTY, MSG_TYPE, [msgType]), m, 0, 256), VendorBlock(m))
  }

  function PutVendor(t: Table, v: seq<Byte>): Table {
    if v != [] then Put(t, VENDOR_SPECIFIC, v) else t
  }

  function VendorBytes(v: seq<Byte>): seq<Byte> {
    if v != [] then Chunks(VENDOR_SPECIFIC, v) else []
  }

  lemma ParseTail(t: Table, v: seq<Byte>)
    ensures Parse(t, VendorBytes(v) + [END], 0) == PutVendor(t, v)
  {
    if v != [] {
      ParseChunks(t, VENDOR_SPECIFIC, v, [END], 0);
    } else {
      assert VendorBytes(v) + [END] == [END];
    }
  }

  lemma ParseTyped(m: map<nat, seq<Byte>>, msgType: Byte, tail: seq<Byte>)
    requires Framed(m, 0)
    ensures Parse(EMPTY, Chunks(MSG_TYPE, [msgType]) + (Block(m, 0, 256) + tail), 0)
         == Parse(PutRange(Put(EMPTY, MSG_TYPE, [msgType]), m, 0, 256), tail, 0)
  {
    ParseChunks(EMPTY, MSG_TYPE, [msgType], Block(m, 0, 256) + tail, 0);
    ParseBlock(Put(EMPTY, MSG_TYPE, [msgType]), m, 0, 256, tail);
  }

  lemma ParseAssembled(m: map<nat, seq<Byte>>, msgType: Byte)
    requires msgType != 0 && Framed(m, 0)
    ensures Parse(EMPTY, Assembled(m, msgType), 0) == Received(m, msgType)
  {
    var v := VendorBlock(m);
    Regroup(Chunks(MSG_TYPE, [msgType]), Block(m, 0, 256), VendorBytes(v), [END]);
    ParseTyped(m, msgType, VendorBytes(v) + [END]);
    ParseTail(PutRange(Put(EMPTY, MSG_TYPE, [msgType]), m, 0, 256), v);
  }

  lemma Regroup<T>(a: seq<T>, b: seq<T>, c: seq<T>, d: seq<T>)
    ensures a + b + c + d == a + (b + (c + d))
  {
  }

  function TypeAt(msgType: Byte, key: nat): seq<Byte> { if key == MSG_TYPE then [msgType] else [] }

  function VendorAt(m: map<nat, seq<Byte>>, key: nat): seq<Byte> {
    if key == VENDOR_SPECIFIC then VendorBlock(m) else []
  }

  lemma PutVendorAt(t: Table, v: seq<Byte>, key: nat)
    requires t.hasBlock
    ensures var r := PutVendor(t, v).options;
      && (key in r <==> key in t.options || (key == VENDOR_SPECIFIC && v != []))
      && Get(r, key) == Get(t.options, key) + if key == VENDOR_SPECIFIC then v else []
  {
  }

  lemma PutRangeOwned(t: Table, m: map<nat, seq<Byte>>, ofs: nat, key: nat)
    requires t.hasBlock && (ofs == 0 || ofs == VENDOR_OFS) && Framed(m, ofs)
    ensures var r := PutRange(t, m, ofs, 256);
      && r.hasBlock
      && (key in r.options <==> key in t.options || (ofs <= key < ofs + 256 && key in m))
      && Get(r.options, key) == Get(t.options, key) + if ofs <= key < ofs + 256 then Get(m, key) else []
  {
    PutRangeAt(t, m, ofs, 256, key);
    PutRangeAllocated(t, m, ofs, 256);
  }

  /** What each code of an assembled message reads back as. */
  lemma AssembledAt(m: map<nat, seq<Byte>>, msgType: Byte, key: nat)
    requires msgType != 0 && Framed(m, 0)
    ensures var r := Parse(EMPTY, Assembled(m, msgType), 0);
      && r.hasBlock
      && (key in r.options <==> key < 256 && (key in m || key == MSG_TYPE || VendorAt(m, key) != []))
      && (key < 256 ==> Get(r.options, key) == TypeAt(msgType, key) + Get(m, key) + VendorAt(m, key))
  {
    var t := Put(EMPTY, MSG_TYPE, [msgType]);
    ParseAssembled(m, msgType);
    PutRangeOwned(t, m, 0, key);
    PutVendorAt(PutRange(t, m, 0, 256), VendorBlock(m), key);
    assert key in t.options <==> key == MSG_TYPE;
    assert Get(t.options, key) == TypeAt(msgType, key);
  }

  /** The options a reader ends up with: the message's, its type and, where there are any, the vendor block itself. */
  function ReadBack(m: map<nat, seq<Byte>>, msgType: Byte): map<nat, seq<Byte>> {
    WithTypeAndVendor(m, msgType, VendorBlock(m))
  }

  function WithTypeAndVendor(m: map<nat, seq<Byte>>, msgType: Byte, v: seq<Byte>): map<nat, seq<Byte>> {
    var n := m[MSG_TYPE as nat := [msgType]];
    if v != [] then n[VENDOR_SPECIFIC as nat := v] else n
  }

  /** Options a message can hold, with codes the wire can carry. */
  predicate Assemblable(m: map<nat, seq<Byte>>) {
    Framed(m, 0) && Framed(m, VENDOR_OFS) && forall key :: key in m ==> key < N_OPTIONS
  }

  /** What a reader makes of an assembled message and then of its vendor option. */
  function ReadTwice(m: map<nat, seq<Byte>>, msgType: Byte): Table {
    var r := Parse(EMPTY, Assembled(m, msgType), 0);
    Parse(r, Get(r.options, VENDOR_SPECIFIC), VENDOR_OFS)
  }

  lemma VendorRead(s: map<nat, seq<Byte>>, msgType: Byte, r: Table)
    requires msgType != 0 && Framed(s, 0) && r == Parse(EMPTY, Assembled(s, msgType), 0)
    ensures r.hasBlock && Get(r.options, VENDOR_SPECIFIC) == Get(s, VENDOR_SPECIFIC) + VendorBlock(s)
  {
    var key := VENDOR_SPECIFIC;
    AssembledAt(s, msgType, key);
    assert TypeAt(msgType, key) + Get(s, key) == Get(s, key);
  }

  lemma NoneRead(s: map<nat, seq<Byte>>, msgType: Byte, key: nat, r: Table)
    requires msgType != 0 && Framed(s, 0) && key >= VENDOR_OFS && r == Parse(EMPTY, Assembled(s, msgType), 0)
    ensures Get(r.options, key) == []
  {
    AssembledAt(s, msgType, key);
  }

  lemma ReadBackAt(m: map<nat, seq<Byte>>, msgType: Byte, r: Table, key: nat)
    requires msgType != 0 && Assemblable(m) && Get(m, MSG_TYPE) == [] && Get(m, VENDOR_SPECIFIC) == []
    requires r == Parse(EMPTY, Assembled(m, msgType), 0)
    ensures var n := PutRange(r, m, VENDOR_OFS, 256).options;
      (key in n <==> key in ReadBack(m, msgType)) && Get(n, key) == Get(ReadBack(m, msgType), key)
  {
    AssembledAt(m, msgType, key);
    PutRangeOwned(r, m, VENDOR_OFS, key);
    BlockEmpty(m, VENDOR_OFS, 256);
    ReadBackIs(m, msgType, key);
  }

  /** `ReadBack` code by code. */
  lemma ReadBackIs(m: map<nat, seq<Byte>>, msgType: Byte, key: nat)
    requires Get(m, MSG_TYPE) == [] && (VendorBlock(m) != [] ==> Get(m, VENDOR_SPECIFIC) == [])
    ensures key in ReadBack(m, msgType) <==> key in m || key == MSG_TYPE || VendorAt(m, key) != []
    ensures Get(ReadBack(m, msgType), key) == TypeAt(msgType, key) + Get(m, key) + VendorAt(m, key)
  {
    WithBoth(m, msgType, VendorBlock(m), key);
  }

  lemma WithBoth(m: map<nat, seq<Byte>>, msgType: Byte, v: seq<Byte>, key: nat)
    requires Get(m, MSG_TYPE) == [] && (v != [] ==> Get(m, VENDOR_SPECIFIC) == [])
    ensures var n := WithTypeAndVendor(m, msgType, v);
      && (key in n <==> key in m || key == MSG_TYPE || (key == VENDOR_SPECIFIC && v != []))
      && Get(n, key) == TypeAt(msgType, key) + Get(m, key) + if key == VENDOR_SPECIFIC then v else []
  {
  }

  lemma FreeRoundTrip(m: map<nat, seq<Byte>>, msgType: Byte)
    requires msgType != 0 && Assemblable(m) && Get(m, MSG_TYPE) == [] && Get(m, VENDOR_SPECIFIC) == []
    ensures ReadTwice(m, msgType).options == ReadBack(m, msgType)
  {
    var r := Parse(EMPTY, Assembled(m, msgType), 0);
    VendorRead(m, msgType, r);
    assert [] + VendorBlock(m) == VendorBlock(m);
    ParseWholeBlock(m, VENDOR_OFS, r);
    RangeReadBack(m, msgType, r);
  }

  lemma RangeReadBack(m: map<nat, seq<Byte>>, msgType: Byte, r: Table)
    requires msgType != 0 && Assemblable(m) && Get(m, MSG_TYPE) == [] && Get(m, VENDOR_SPECIFIC) == []
    requires r == Parse(EMPTY, Assembled(m, msgType), 0)
    ensures PutRange(r, m, VENDOR_OFS, 256).options == ReadBack(m, msgType)
  {
    var n := PutRange(r, m, VENDOR_OFS, 256).options;
    forall key: nat
      ensures (key in n <==> key in ReadBack(m, msgType)) && Get(n, key) == Get(ReadBack(m, msgType), key)
    {
      ReadBackAt(m, msgType, r, key);
    }
    SameOptions(n, ReadBack(m, msgType));
  }

  /** A reader finds no option in the bytes: they end, or break off, before the first one. */
  predicate Blank(b: seq<Byte>)
    decreases |b|
  {
    || b == [] || b[0] == END
    || (if b[0] == PAD then Blank(b[1..]) else |b| < 2 || |b| < PayloadEnd(b))
  }

  lemma {:induction false} BlankParses(t: Table, b: seq<Byte>, ofs: nat)
    requires Blank(b)
    ensures Parse(t, b, ofs) == t
    decreases |b|
  {
    if b != [] && b[0] == PAD { BlankParses(t, b[1..], ofs); }
  }

  /** Reading a block leaves the options below it alone, and takes none away. */
  lemma {:induction false} ParseKeeps(t: Table, b: seq<Byte>, ofs: nat, key: nat)
    ensures key in t.options ==> key in Parse(t, b, ofs).options
    ensures key < ofs ==>
      (key in Parse(t, b, ofs).options <==> key in t.options) && Get(Parse(t, b, ofs).options, key) == Get(t.options, key)
    decreases |b|
  {
    if b != [] && b[0] != END {
      if b[0] == PAD {
        ParseKeeps(t, b[1..], ofs, key);
      } else if |b| >= 2 && |b| >= PayloadEnd(b) {
        ParseKeeps(Put(t, b[0] + ofs, b[2..PayloadEnd(b)]), b[PayloadEnd(b)..], ofs, key);
      }
    }
  }

  lemma {:induction false} NotBlankPuts(t: Table, b: seq<Byte>) returns (key: nat)
    requires !Blank(b) && t.hasBlock
    ensures VENDOR_OFS <= key < N_OPTIONS && key in Parse(t, b, VENDOR_OFS).options
    decreases |b|
  {
    if b[0] == PAD {
      key := NotBlankPuts(t, b[1..]);
    } else {
      key := b[0] + VENDOR_OFS;
      ParseKeeps(Put(t, key, b[2..PayloadEnd(b)]), b[PayloadEnd(b)..], VENDOR_OFS, key);
    }
  }

  /** The vendor option of the message is left to its vendor options, or holds none itself. */
  predicate VendorApart(m: map<nat, seq<Byte>>) {
    Get(m, VENDOR_SPECIFIC) == [] || (VendorBlock(m) == [] && Blank(m[VENDOR_SPECIFIC]))
  }

  lemma BlankRoundTrip(m: map<nat, seq<Byte>>, msgType: Byte)
    requires msgType != 0 && Assemblable(m) && Get(m, MSG_TYPE) == []
    requires VendorBlock(m) == [] && Blank(Get(m, VENDOR_SPECIFIC))
    ensures ReadTwice(m, msgType).options == ReadBack(m, msgType)
  {
    var r := Parse(EMPTY, Assembled(m, msgType), 0);
    AssembledAt(m, msgType, VENDOR_SPECIFIC);
    assert Get(r.options, VENDOR_SPECIFIC) == Get(m, VENDOR_SPECIFIC);
    BlankParses(r, Get(m, VENDOR_SPECIFIC), VENDOR_OFS);
    BlockEmpty(m, VENDOR_OFS, 256);
    forall key: nat
      ensures (key in r.options <==> key in ReadBack(m, msgType)) && Get(r.options, key) == Get(ReadBack(m, msgType), key)
    {
      AssembledAt(m, msgType, key);
      ReadBackIs(m, msgType, key);
    }
    SameOptions(r.options, ReadBack(m, msgType));
  }

  /** What each standard option of a message reads back as. */
  lemma ReadTwiceAt(m: map<nat, seq<Byte>>, msgType: Byte, key: nat)
    requires msgType != 0 && Assemblable(m) && key < VENDOR_OFS
    ensures Get(ReadTwice(m, msgType).options, key) == TypeAt(msgType, key) + Get(m, key) + VendorAt(m, key)
  {
    var r := Parse(EMPTY, Assembled(m, msgType), 0);
    AssembledAt(m, msgType, key);
    ParseKeeps(r, Get(r.options, VENDOR_SPECIFIC), VENDOR_OFS, key);
  }

  lemma TypeMixed(m: map<nat, seq<Byte>>, msgType: Byte)
    requires msgType != 0 && Assemblable(m) && Get(m, MSG_TYPE) != []
    ensures ReadTwice(m, msgType).options != ReadBack(m, msgType)
  {
    ReadTwiceAt(m, msgType, MSG_TYPE);
    assert |[msgType] + Get(m, MSG_TYPE)| != |[msgType]|;
  }

  lemma VendorMixed(m: map<nat, seq<Byte>>, msgType: Byte)
    requires msgType != 0 && Assemblable(m) && Get(m, VENDOR_SPECIFIC) != [] && VendorBlock(m) != []
    ensures ReadTwice(m, msgType).options != ReadBack(m, msgType)
  {
    ReadTwiceAt(m, msgType, VENDOR_SPECIFIC);
    assert |Get(m, VENDOR_SPECIFIC) + VendorBlock(m)| != |VendorBlock(m)|;
  }

  lemma VendorInvented(m: map<nat, seq<Byte>>, msgType: Byte)
    requires msgType != 0 && Assemblable(m) && VendorBlock(m) == [] && !Blank(Get(m, VENDOR_SPECIFIC))
    ensures ReadTwice(m, msgType).options != ReadBack(m, msgType)
  {
    var r := Parse(EMPTY, Assembled(m, msgType), 0);
    VendorRead(m, msgType, r);
    assert Get(m, VENDOR_SPECIFIC) + [] == Get(m, VENDOR_SPECIFIC);
    var key := NotBlankPuts(r, Get(m, VENDOR_SPECIFIC));
    BlockEmpty(m, VENDOR_OFS, 256);
    assert key !in ReadBack(m, msgType);
  }

  lemma MixedIsLost(m: map<nat, seq<Byte>>, msgType: Byte)
    requires msgType != 0 && Assemblable(m) && !(Get(m, MSG_TYPE) == [] && VendorApart(m))
    ensures ReadTwice(m, msgType).options != ReadBack(m, msgType)
  {
    if Get(m, MSG_TYPE) != [] {
      TypeMixed(m, msgType);
    } else if VendorBlock(m) != [] {
      VendorMixed(m, msgType);
    } else {
      VendorInvented(m, msgType);
    }
  }

  /**
   * Reading an assembled message, and then its vendor option as a block of
   * vendor options, rebuilds every option of any length, standard or vendor,
   * wherever the pieces of the vendor block were cut: if and only if the
   * message holds no bytes for the type option itself, and none for the vendor
   * option unless a reader finds no vendor option there or anywhere else.
   */
  lemma MessageRoundTrip(m: map<nat, seq<Byte>>, msgType: Byte)
    requires msgType != 0 && Assemblable(m)
    ensures ReadTwice(m, msgType).options == ReadBack(m, msgType) <==> Get(m, MSG_TYPE) == [] && VendorApart(m)
  {
    if Get(m, MSG_TYPE) == [] && VendorApart(m) {
      if Get(m, VENDOR_SPECIFIC) == [] { FreeRoundTrip(m, msgType); } else { BlankRoundTrip(m, msgType); }
    } else {
      MixedIsLost(m, msgType);
    }
  }

  // ---------------------------------------------------------------- assembling what was read

  /** Only the standard options of a message change by being read back. */
  lemma {:induction false} SameVendorBlock(m: map<nat, seq<Byte>>, n: map<nat, seq<Byte>>, k: nat)
    requires k <= 256
    requires forall key :: VENDOR_OFS <= key < N_OPTIONS ==> (key in n <==> key in m) && Get(n, key) == Get(m, key)
    ensures Block(n, VENDOR_OFS, k) == Block(m, VENDOR_OFS, k)
  {
    if k > 0 {
      SameVendorBlock(m, n, k - 1);
      var key := VENDOR_OFS + k - 1;
      assert Get(n, key) == Get(m, key);
    }
  }

  /** A vendor block read after another. */
  lemma ParseTwice(t: Table, m: map<nat, seq<Byte>>)
    requires Framed(m, VENDOR_OFS)
    ensures var v := VendorBlock(m);
      Parse(t, v + v, VENDOR_OFS) == PutRange(PutRange(t, m, VENDOR_OFS, 256), m, VENDOR_OFS, 256)
  {
    ParseBlock(t, m, VENDOR_OFS, 256, VendorBlock(m));
    ParseWholeBlock(m, VENDOR_OFS, PutRange(t, m, VENDOR_OFS, 256));
  }

  lemma RangeTwice(t: Table, m: map<nat, seq<Byte>>, key: nat)
    requires t.hasBlock && Framed(m, VENDOR_OFS)
    ensures Get(PutRange(PutRange(t, m, VENDOR_OFS, 256), m, VENDOR_OFS, 256).options, key)
      == Get(t.options, key) + if VENDOR_OFS <= key < N_OPTIONS then Get(m, key) + Get(m, key) else []
  {
    var u := PutRange(t, m, VENDOR_OFS, 256);
    PutRangeOwned(t, m, VENDOR_OFS, key);
    PutRangeOwned(u, m, VENDOR_OFS, key);
    if VENDOR_OFS <= key < N_OPTIONS { Assoc(Get(t.options, key), Get(m, key), Get(m, key)); }
  }

  /** The message with the vendor block twice in its vendor option. */
  lemma TwiceParsed(t: Table, m: map<nat, seq<Byte>>, key: nat)
    requires t.hasBlock && Framed(m, VENDOR_OFS)
    ensures var v := VendorBlock(m);
      Get(Parse(t, v + v, VENDOR_OFS).options, key)
      == Get(t.options, key) + if VENDOR_OFS <= key < N_OPTIONS then Get(m, key) + Get(m, key) else []
  {
    ParseTwice(t, m);
    RangeTwice(t, m, key);
  }

  lemma DoubledVendor(m: map<nat, seq<Byte>>, s: map<nat, seq<Byte>>, msgType: Byte, key: nat)
    requires msgType != 0 && Assemblable(m) && Assemblable(s) && VENDOR_OFS <= key < N_OPTIONS
    requires VendorBlock(s) == VendorBlock(m) && Get(s, VENDOR_SPECIFIC) == VendorBlock(m)
    ensures Get(ReadTwice(s, msgType).options, key) == Get(m, key) + Get(m, key)
  {
    var r := Parse(EMPTY, Assembled(s, msgType), 0);
    VendorRead(s, msgType, r);
    NoneRead(s, msgType, key, r);
    TwiceParsed(r, m, key);
  }

  /** Option `key` of a message `m` with vendor block `v` that is assembled twice. */
  function Again(m: map<nat, seq<Byte>>, v: seq<Byte>, oldType: Byte, newType: Byte, key: nat): seq<Byte> {
    if key == MSG_TYPE then [newType, oldType]
    else if key == VENDOR_SPECIFIC then v + v
    else if key >= VENDOR_OFS then Get(m, key) + Get(m, key)
    else Get(m, key)
  }

  lemma StandardAgain(m: map<nat, seq<Byte>>, v: seq<Byte>, oldType: Byte, newType: Byte, key: nat)
    requires key < VENDOR_OFS && Get(m, MSG_TYPE) == [] && Get(m, VENDOR_SPECIFIC) == []
    ensures var w := if key == VENDOR_SPECIFIC then v else [];
      TypeAt(newType, key) + (TypeAt(oldType, key) + Get(m, key) + w) + w == Again(m, v, oldType, newType, key)
  {
  }

  lemma StandardReadAgain(m: map<nat, seq<Byte>>, oldType: Byte, newType: Byte, key: nat)
    requires newType != 0 && Assemblable(m) && key < VENDOR_OFS
    requires Get(m, MSG_TYPE) == [] && Get(m, VENDOR_SPECIFIC) == []
    requires VendorBlock(ReadBack(m, oldType)) == VendorBlock(m)
    ensures Get(ReadTwice(ReadBack(m, oldType), newType).options, key)
         == Again(m, VendorBlock(m), oldType, newType, key)
  {
    ReadTwiceAt(ReadBack(m, oldType), newType, key);
    ReadBackIs(m, oldType, key);
    StandardAgain(m, VendorBlock(m), oldType, newType, key);
  }

  lemma VendorReadAgain(m: map<nat, seq<Byte>>, oldType: Byte, newType: Byte, key: nat)
    requires newType != 0 && Assemblable(m) && VENDOR_OFS <= key < N_OPTIONS
    requires Get(m, MSG_TYPE) == [] && Get(m, VENDOR_SPECIFIC) == []
    requires VendorBlock(ReadBack(m, oldType)) == VendorBlock(m)
    ensures Get(ReadTwice(ReadBack(m, oldType), newType).options, key)
         == Again(m, VendorBlock(m), oldType, newType, key)
  {
    ReadBackIs(m, oldType, VENDOR_SPECIFIC);
    DoubledVendor(m, ReadBack(m, oldType), newType, key);
  }

  lemma ReadBackVendor(m: map<nat, seq<Byte>>, msgType: Byte)
    ensures VendorBlock(ReadBack(m, msgType)) == VendorBlock(m)
  {
    SameVendorBlock(m, ReadBack(m, msgType), 256);
  }

  /**
   * A message that was read back and is assembled again carries its old type
   * behind its new one and its vendor block twice, so that every vendor option
   * reads back doubled.  The other options read back as they are.
   */
  lemma ReassembledDoubles(m: map<nat, seq<Byte>>, oldType: Byte, newType: Byte, key: nat)
    requires oldType != 0 && newType != 0 && Assemblable(m) && key < N_OPTIONS
    requires Get(m, MSG_TYPE) == [] && Get(m, VENDOR_SPECIFIC) == []
    ensures Get(ReadTwice(ReadTwice(m, oldType).options, newType).options, key)
         == Again(m, VendorBlock(m), oldType, newType, key)
  {
    FreeRoundTrip(m, oldType);
    ReadBackVendor(m, oldType);
    if key < VENDOR_OFS {
      StandardReadAgain(m, oldType, newType, key);
    } else {
      VendorReadAgain(m, oldType, newType, key);
    }
  }

  /** The type option reads back as the type alone exactly when the options do not hold one as well. */
  lemma TypeReadBack(m: map<nat, seq<Byte>>, msgType: Byte)
    requires msgType != 0 && Framed(m, 0)
    ensures Get(Parse(EMPTY, Assembled(m, msgType), 0).options, MSG_TYPE) == [msgType] <==> Get(m, MSG_TYPE) == []
  {
    AssembledAt(m, msgType, MSG_TYPE);
    assert |[msgType] + Get(m, MSG_TYPE)| == 1 + |Get(m, MSG_TYPE)|;
  }

  /** A message type put among the options reads back behind the type proper. */
  lemma TypeTwice()
    ensures Get(Parse(EMPTY, Assembled(map[53 := [1]], 2), 0).options, MSG_TYPE) == [2, 1]
  {
    AssembledAt(map[53 := [1]], 2, MSG_TYPE);
  }

  /** An empty option that comes first is lost on a reader that starts without a data block. */
  lemma EmptyFirstIsLost()
    ensures Parse(EMPTY, Block(map[1 := []], 0, 256), 0).options == map[]
  {
    var m: map<nat, seq<Byte>> := map[1 := []];
    ParseWholeBlock(m, 0, EMPTY);
    var r := PutRange(EMPTY, m, 0, 256).options;
    forall key: nat ensures key !in r {
      PutRangeAt(EMPTY, m, 0, 256, key);
    }
  }
}

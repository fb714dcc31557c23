/** The block of memory behind a message's options. */
module DhcpMsg {
  import opened DhcpOptions

  datatype Pointer = Null | Offset(pos: nat)

  /** `struct dhcp_option`: `n` bytes at `data`, or a null pointer. */
  datatype Slot = Slot(data: Pointer, n: nat)

  predicate Inside(s: Slot, used: nat) {
    if s.data.Null? then s.n == 0 else s.data.pos + s.n <= used
  }

  predicate Apart(s: Slot, t: Slot) {
    s.n == 0 || t.n == 0 || s.data.Null? || t.data.Null?
    || s.data.pos + s.n <= t.data.pos || t.data.pos + t.n <= s.data.pos
  }

  predicate AllInside(slots: seq<Slot>, used: nat) {
    forall c :: 0 <= c < |slots| ==> Inside(slots[c], used)
  }

  predicate AllApart(slots: seq<Slot>) {
    forall c, d :: 0 <= c < d < |slots| ==> Apart(slots[c], slots[d])
  }

  /** Bytes the options hold between them. */
  function Live(slots: seq<Slot>): nat {
    if slots == [] then 0 else Live(slots[..|slots| - 1]) + slots[|slots| - 1].n
  }

  function Bytes(s: Slot, block: seq<Byte>): seq<Byte>
    requires Inside(s, |block|)
  {
    if s.data.Null? then [] else block[s.data.pos..s.data.pos + s.n]
  }

  function Contents(slots: seq<Slot>, block: seq<Byte>): map<nat, seq<Byte>>
    requires AllInside(slots, |block|)
  {
    map c: nat | c < |slots| && slots[c].data.Offset? :: Bytes(slots[c], block)
  }

  // ---------------------------------------------------------------- compaction

  /** The live bytes alone, in order of code. */
  function Packed(slots: seq<Slot>, block: seq<Byte>): (r: seq<Byte>)
    requires AllInside(slots, |block|)
    ensures |r| == Live(slots)
  {
    if slots == [] then []
    else Packed(slots[..|slots| - 1], block) + Bytes(slots[|slots| - 1], block)
  }

  function Moved(s: Slot, at: nat): Slot {
    if s.data.Null? then s else Slot(Offset(at), s.n)
  }

  /** The options pointing at their places in `Packed`. */
  function Compacted(slots: seq<Slot>): (r: seq<Slot>)
    ensures |r| == |slots|
  {
    if slots == [] then []
    else
      var front := slots[..|slots| - 1];
      Compacted(front) + [Moved(slots[|slots| - 1], Live(front))]
  }

  lemma {:induction false} LivePrefix(slots: seq<Slot>, c: nat)
    requires c <= |slots|
    ensures Live(slots[..c]) <= Live(slots)
    decreases |slots|
  {
    if c == |slots| {
      assert slots[..c] == slots;
    } else {
      var front := slots[..|slots| - 1];
      LivePrefix(front, c);
      assert front[..c] == slots[..c];
    }
  }

  lemma LiveNext(slots: seq<Slot>, c: nat)
    requires c < |slots|
    ensures Live(slots[..c + 1]) == Live(slots[..c]) + slots[c].n
  {
    assert slots[..c + 1][..c] == slots[..c];
  }

  lemma {:induction false} LiveUpdate(slots: seq<Slot>, c: nat, s: Slot)
    requires c < |slots|
    ensures Live(slots[c := s]) == Live(slots) - slots[c].n + s.n && Live(slots) >= slots[c].n
    decreases |slots|
  {
    var k := |slots| - 1;
    if c == k {
      assert slots[c := s][..k] == slots[..k];
    } else {
      LiveUpdate(slots[..k], c, s);
      assert slots[c := s][..k] == slots[..k][c := s];
    }
  }

  lemma {:induction false} CompactedAt(slots: seq<Slot>, c: nat)
    requires c < |slots|
    ensures Compacted(slots)[c] == Moved(slots[c], Live(slots[..c]))
    decreases |slots|
  {
    if c < |slots| - 1 {
      var front := slots[..|slots| - 1];
      CompactedAt(front, c);
      assert front[..c] == slots[..c];
    }
  }

  lemma SliceLeft<T>(a: seq<T>, b: seq<T>, i: nat, j: nat)
    requires i <= j <= |a|
    ensures (a + b)[i..j] == a[i..j]
  {
  }

  lemma SliceRight<T>(a: seq<T>, b: seq<T>)
    ensures (a + b)[|a|..|a| + |b|] == b
  {
  }

  lemma SlicePrefix<T>(a: seq<T>, k: nat, i: nat, j: nat)
    requires i <= j <= k <= |a|
    ensures a[i..j] == a[..k][i..j]
  {
  }

  lemma Fits(slots: seq<Slot>, c: nat)
    requires c < |slots|
    ensures Live(slots[..c]) + slots[c].n <= Live(slots)
  {
    LiveNext(slots, c);
    LivePrefix(slots, c + 1);
  }

  lemma {:induction false} PackedAt(slots: seq<Slot>, block: seq<Byte>, c: nat)
    requires AllInside(slots, |block|) && c < |slots| && Live(slots[..c]) + slots[c].n <= Live(slots)
    ensures Packed(slots, block)[Live(slots[..c])..Live(slots[..c]) + slots[c].n] == Bytes(slots[c], block)
    decreases |slots|
  {
    var front, last := slots[..|slots| - 1], slots[|slots| - 1];
    if c < |slots| - 1 {
      Fits(front, c);
      assert front[..c] == slots[..c];
      PackedAt(front, block, c);
      SliceLeft(Packed(front, block), Bytes(last, block), Live(slots[..c]), Live(slots[..c]) + slots[c].n);
    } else {
      SliceRight(Packed(front, block), Bytes(last, block));
    }
  }

  lemma CompactedSlot(slots: seq<Slot>, block: seq<Byte>, block': seq<Byte>, c: nat)
    requires AllInside(slots, |block|) && |block'| >= Live(slots) && block'[..Live(slots)] == Packed(slots, block)
    requires c < |slots|
    ensures var s := Compacted(slots)[c];
      && Inside(s, Live(slots)) && (s.data.Null? <==> slots[c].data.Null?)
      && Bytes(s, block') == Bytes(slots[c], block)
  {
    CompactedAt(slots, c);
    Fits(slots, c);
    PackedAt(slots, block, c);
    SlicePrefix(block', Live(slots), Live(slots[..c]), Live(slots[..c]) + slots[c].n);
  }

  lemma CompactedApart(slots: seq<Slot>, c: nat, d: nat)
    requires c < d < |slots|
    ensures Apart(Compacted(slots)[c], Compacted(slots)[d])
  {
    CompactedAt(slots, c);
    CompactedAt(slots, d);
    Fits(slots[..d], c);
    assert slots[..d][..c] == slots[..c];
  }

  /** Compaction leaves every option apart from the others, inside the live bytes, with the bytes it had. */
  lemma CompactedKeeps(slots: seq<Slot>, block: seq<Byte>, block': seq<Byte>)
    requires AllInside(slots, |block|) && |block'| >= Live(slots) && block'[..Live(slots)] == Packed(slots, block)
    ensures AllInside(Compacted(slots), Live(slots)) && AllApart(Compacted(slots))
    ensures Contents(Compacted(slots), block') == Contents(slots, block)
  {
    var r := Compacted(slots);
    forall c | 0 <= c < |r| ensures Inside(r[c], Live(slots)) { CompactedSlot(slots, block, block', c); }
    forall c, d | 0 <= c < d < |r| ensures Apart(r[c], r[d]) { CompactedApart(slots, c, d); }
    assert AllInside(r, |block'|);
    forall c: nat | c < |r| ensures SameSlot(slots[c], block, r[c], block') { CompactedSlot(slots, block, block', c); }
    SameContents(slots, block, r, block');
  }

  /** Both slots are absent, or hold the same bytes. */
  predicate SameSlot(s: Slot, block: seq<Byte>, t: Slot, block': seq<Byte>) {
    && Inside(s, |block|) && Inside(t, |block'|) && (s.data.Null? <==> t.data.Null?)
    && Bytes(s, block) == Bytes(t, block')
  }

  lemma SameContents(slots: seq<Slot>, block: seq<Byte>, slots': seq<Slot>, block': seq<Byte>)
    requires AllInside(slots, |block|) && AllInside(slots', |block'|) && |slots| == |slots'|
    requires forall c: nat :: c < |slots| ==> SameSlot(slots[c], block, slots'[c], block')
    ensures Contents(slots', block') == Contents(slots, block)
  {
    forall c: nat | c < |slots| ensures slots[c].data.Null? <==> slots'[c].data.Null? {
      assert SameSlot(slots[c], block, slots'[c], block');
    }
    forall c | c in Contents(slots, block) ensures Contents(slots, block)[c] == Contents(slots', block')[c] {
      assert SameSlot(slots[c], block, slots'[c], block');
    }
  }

  lemma {:induction false} CompactedLive(slots: seq<Slot>)
    ensures Live(Compacted(slots)) == Live(slots)
    decreases |slots|
  {
    if slots != [] {
      var front := slots[..|slots| - 1];
      CompactedLive(front);
      assert Compacted(slots)[..|front|] == Compacted(front);
    }
  }

  // ---------------------------------------------------------------- appending

  /** Writing past the used part, and pointing one option elsewhere, changes that option alone. */
  lemma OneSlotChanges(slots: seq<Slot>, block: seq<Byte>, used: nat, c: nat, s: Slot, block': seq<Byte>)
    requires AllInside(slots, used) && used <= |block| && used <= |block'| && block'[..used] == block[..used]
    requires c < |slots| && s.data.Offset? && Inside(s, |block'|)
    ensures AllInside(slots[c := s], |block'|)
    ensures Contents(slots[c := s], block') == Contents(slots, block)[c := Bytes(s, block')]
  {
    forall d | 0 <= d < |slots| && d != c ensures Bytes(slots[d], block') == Bytes(slots[d], block) {
      if slots[d].data.Offset? {
        SlicePrefix(block, used, slots[d].data.pos, slots[d].data.pos + slots[d].n);
        SlicePrefix(block', used, slots[d].data.pos, slots[d].data.pos + slots[d].n);
      }
    }
  }

  /** An option at the end of the used part, or one that has just grown there, is apart from the rest. */
  lemma LastApart(slots: seq<Slot>, used: nat, c: nat, s: Slot)
    requires AllInside(slots, used) && AllApart(slots) && c < |slots| && s.data.Offset?
    requires s.data.pos == used || (slots[c].data == s.data && slots[c].n > 0 && s.data.pos + slots[c].n == used)
    ensures AllApart(slots[c := s])
  {
    var r := slots[c := s];
    forall d, e | 0 <= d < e < |r| ensures Apart(r[d], r[e]) {
      assert Apart(slots[d], slots[e]);
    }
  }

  /** A message's memory: the options, the block they point into and how much of it is used. */
  datatype Arena = Arena(slots: seq<Slot>, block: seq<Byte>, used: nat, hasBlock: bool)

  predicate Ok(a: Arena) {
    && |a.slots| == N_OPTIONS && a.used <= |a.block|
    && AllInside(a.slots, a.used) && AllApart(a.slots) && Live(a.slots) <= a.used
    && (!a.hasBlock ==> forall c :: 0 <= c < |a.slots| ==> a.slots[c].data.Null?)
    && a.slots[PAD].data.Null? && a.slots[END].data.Null?
  }

  function Held(a: Arena): map<nat, seq<Byte>>
    requires Ok(a)
  {
    Contents(a.slots, a.block)
  }

  function Written(block: seq<Byte>, at: nat, d: seq<Byte>): seq<Byte>
    requires at + |d| <= |block|
  {
    block[..at] + d + block[at + |d|..]
  }

  lemma WrittenParts(block: seq<Byte>, at: nat, d: seq<Byte>, from: nat)
    requires from <= at && at + |d| <= |block|
    ensures Written(block, at, d)[..at] == block[..at]
    ensures Written(block, at, d)[from..at + |d|] == block[from..at] + d
  {
  }

  lemma WrittenPart(block: seq<Byte>, at: nat, d: seq<Byte>)
    requires at + |d| <= |block|
    ensures Written(block, at, d)[..at] == block[..at] && Written(block, at, d)[at..at + |d|] == d
  {
  }

  lemma WrittenNext(block: seq<Byte>, at: nat, d: seq<Byte>, i: nat)
    requires at + |d| <= |block| && i < |d|
    ensures Written(block, at, d[..i + 1]) == Written(block, at, d[..i])[at + i := d[i]]
  {
  }

  function MovedToEnd(a: Arena, code: nat): Arena
    requires Ok(a) && code < |a.slots| && a.slots[code].data.Offset? && a.used + a.slots[code].n <= |a.block|
  {
    var d := Bytes(a.slots[code], a.block);
    Arena(a.slots[code := Slot(Offset(a.used), |d|)], Written(a.block, a.used, d), a.used + |d|, a.hasBlock)
  }

  function Extended(a: Arena, code: nat, d: seq<Byte>): Arena
    requires code < |a.slots| && a.used + |d| <= |a.block|
  {
    var s := a.slots[code];
    Arena(a.slots[code := s.(n := s.n + |d|)], Written(a.block, a.used, d), a.used + |d|, a.hasBlock)
  }

  function Stored(a: Arena, code: nat, d: seq<Byte>): Arena
    requires code < |a.slots| && a.used + |d| <= |a.block|
  {
    Arena(a.slots[code := Slot(Offset(a.used), |d|)], Written(a.block, a.used, d), a.used + |d|, a.hasBlock)
  }

  predicate AtEnd(a: Arena, code: nat)
    requires code < |a.slots|
  {
    a.slots[code].n > 0 && a.slots[code].data.Offset? && a.slots[code].data.pos + a.slots[code].n == a.used
  }

  lemma MovedToEndKeeps(a: Arena, code: nat)
    requires Ok(a) && code < |a.slots| && a.slots[code].n > 0 && a.used + a.slots[code].n <= |a.block|
    ensures Ok(MovedToEnd(a, code)) && Held(MovedToEnd(a, code)) == Held(a) && AtEnd(MovedToEnd(a, code), code)
  {
    var b, d := MovedToEnd(a, code), Bytes(a.slots[code], a.block);
    WrittenPart(a.block, a.used, d);
    OneSlotChanges(a.slots, a.block, a.used, code, b.slots[code], b.block);
    LastApart(a.slots, a.used, code, b.slots[code]);
    LiveUpdate(a.slots, code, b.slots[code]);
    assert Bytes(b.slots[code], b.block) == d;
  }

  lemma ExtendedHolds(a: Arena, code: nat, d: seq<Byte>)
    requires Ok(a) && code < |a.slots| && AtEnd(a, code) && a.used + |d| <= |a.block|
    ensures Ok(Extended(a, code, d))
    ensures Held(Extended(a, code, d)) == Held(a)[code := Get(Held(a), code) + d]
  {
    var b := Extended(a, code, d);
    WrittenParts(a.block, a.used, d, a.slots[code].data.pos);
    OneSlotChanges(a.slots, a.block, a.used, code, b.slots[code], b.block);
    LastApart(a.slots, a.used, code, b.slots[code]);
    LiveUpdate(a.slots, code, b.slots[code]);
    assert Bytes(b.slots[code], b.block) == Get(Held(a), code) + d;
  }

  lemma StoredHolds(a: Arena, code: nat, d: seq<Byte>)
    requires Ok(a) && a.hasBlock && code < |a.slots| && code != PAD && code != END
    requires a.slots[code].n == 0 && a.used + |d| <= |a.block|
    ensures Ok(Stored(a, code, d))
    ensures Held(Stored(a, code, d)) == Held(a)[code := Get(Held(a), code) + d]
  {
    var b := Stored(a, code, d);
    WrittenParts(a.block, a.used, d, a.used);
    OneSlotChanges(a.slots, a.block, a.used, code, b.slots[code], b.block);
    LastApart(a.slots, a.used, code, b.slots[code]);
    LiveUpdate(a.slots, code, b.slots[code]);
    assert Bytes(b.slots[code], b.block) == Get(Held(a), code) + d;
  }

  class DhcpMsg {
    const options: array<Slot>
    var data: array?<Byte>
    var used: nat

    ghost function Block(): seq<Byte>
      reads this, data
    {
      if data == null then [] else data[..]
    }

    ghost function State(): Arena
      reads this, options, data
    {
      Arena(options[..], Block(), used, data != null)
    }

    ghost predicate Valid()
      reads this, options, data
    {
      Ok(State())
    }

    ghost function View(): Table
      requires Valid()
      reads this, options, data
    {
      Table(Held(State()), data != null)
    }

    constructor ()
      ensures Valid() && View() == EMPTY && fresh(options) && data == null
    {
      options := new Slot[N_OPTIONS](_ => Slot(Null, 0));
      data, used := null, 0;
      new;
      NoneLive(options[..]);
    }

    /** `append_data`. */
    method AppendData(d: seq<Byte>) returns (p: Pointer)
      requires used + |d| <= |Block()|
      modifies `used, data
      ensures used == old(used) + |d| && Block() == Written(old(Block()), old(used), d)
      ensures p == if data == null then Null else Offset(old(used))
    {
      if data == null {
        return Null;
      }
      p := Offset(used);
      ghost var block := data[..];
      for i := 0 to |d|
        invariant used == old(used) && data[..] == Written(block, used, d[..i])
      {
        WrittenNext(block, used, d, i);
        data[used + i] := d[i];
      }
      assert d[..|d|] == d;
      used := used + |d|;
    }

    /** The first `code` of the options `slots` have been copied from `block`. */
    ghost predicate CopiedUpTo(slots: seq<Slot>, block: seq<Byte>, code: nat)
      requires AllInside(slots, |block|)
      reads this, options, data
    {
      && data != null && options.Length == |slots| && code <= |slots|
      && options[..] == Halfway(slots, code)
      && used == Live(slots[..code]) <= data.Length && data[..used] == Packed(slots[..code], block)
    }

    /** Appends `d`, and points option `code` at it. */
    method CopyBytes(code: nat, d: seq<Byte>)
      requires data != null && code < options.Length && used + |d| <= data.Length
      modifies `used, options, data
      ensures used == old(used) + |d| <= data.Length && data[..used] == old(data[..used]) + d
      ensures options[..] == old(options[..])[code := Slot(Offset(old(used)), |d|)]
    {
      ghost var block, slots := data[..], options[..];
      var p := AppendData(d);
      WrittenParts(block, old(used), d, 0);
      options[code] := Slot(p, |d|);
    }

    method CopyOption(block: array<Byte>, code: nat, ghost slots: seq<Slot>)
      requires AllInside(slots, block.Length) && CopiedUpTo(slots, block[..], code)
      requires code < |slots| && Live(slots) <= data.Length && data != block
      modifies `used, options, data
      ensures CopiedUpTo(slots, block[..], code + 1)
    {
      ghost var bytes := block[..];
      CopyStep(slots, bytes, code);
      Fits(slots, code);
      var opt := options[code];
      if opt.data.Offset? {
        var d := ReadSlot(block, opt);
        assert used + opt.n <= data.Length;
        CopyBytes(code, d);
        assert block[..] == bytes;
      }
    }

    /** `copy_data`: packs what the options hold in `block` into the message's own block. */
    method CopyData(block: array<Byte>)
      requires data != null && data != block
      requires AllInside(options[..], block.Length) && Live(options[..]) <= data.Length
      modifies `used, options, data
      ensures options[..] == Compacted(old(options[..])) && used == Live(old(options[..])) <= data.Length
      ensures data[..used] == Packed(old(options[..]), block[..])
    {
      ghost var slots, bytes := options[..], block[..];
      used := 0;
      for code := 0 to options.Length
        invariant block[..] == bytes && CopiedUpTo(slots, bytes, code)
      {
        CopyOption(block, code, slots);
      }
      assert slots[..options.Length] == slots && slots[options.Length..] == [];
    }

    /** `prealloc_data`: makes room for `n` more bytes, compacting into a new block where the old one is too small. */
    method PreallocData(n: nat)
      requires Valid()
      modifies this, options
      ensures Valid() && used + n <= |Block()| && (data == old(data) || fresh(data))
      ensures View() == old(View()).(hasBlock := old(data) != null || n > 0)
      ensures forall c :: 0 <= c < options.Length ==> options[c].n == old(options[c].n)
    {
      var needed := used + n;
      if needed > (if data == null then 0 else data.Length) {
        var oldData := data;
        ghost var slots, block := options[..], Block();
        data := new Byte[if needed * 2 > 64 then needed * 2 else 64];
        if oldData != null {
          CopyData(oldData);
          CompactedKeeps(slots, block, data[..]);
          CompactedLive(slots);
          NullStays(slots);
        }
      }
    }

    /** Moves the bytes of an option to the end of the used part. */
    method MoveToEnd(code: nat)
      requires Valid() && code < N_OPTIONS && options[code].n > 0 && used + options[code].n <= |Block()|
      modifies `used, options, data
      ensures State() == MovedToEnd(old(State()), code)
    {
      var d := ReadSlot(data, options[code]);
      AppendAs(code, d);
    }

    /** Appends `d`, and makes it what option `code` points at. */
    method AppendAs(code: nat, d: seq<Byte>)
      requires data != null && code < options.Length && used + |d| <= |Block()|
      modifies `used, options, data
      ensures State() == Arena(old(options[..])[code := Slot(Offset(old(used)), |d|)],
                               Written(old(Block()), old(used), d), old(used) + |d|, true)
    {
      var p := AppendData(d);
      options[code] := Slot(p, |d|);
    }

    /** Stores `d` at the end of the used part as what option `code` holds. */
    method Store(code: nat, d: seq<Byte>)
      requires Valid() && code < N_OPTIONS && used + |d| <= |Block()|
      requires options[code].n == 0 && code != PAD && code != END && (data == null ==> d == [])
      modifies `used, options, data
      ensures Valid() && View() == Put(old(View()), code, d)
    {
      ghost var a := State();
      if data != null {
        AppendAs(code, d);
        StoredHolds(a, code, d);
      } else {
        options[code] := Slot(Null, |d|);
        assert options[..] == a.slots;
      }
    }

    /** Adds `d` to option `code`, which ends where the used part does. */
    method Extend(code: nat, d: seq<Byte>)
      requires Valid() && code < N_OPTIONS && AtEnd(State(), code) && used + |d| <= |Block()|
      modifies `used, options, data
      ensures Valid() && View() == Put(old(View()), code, d)
    {
      ghost var a := State();
      var opt := options[code];
      var _ := AppendData(d);
      options[code] := opt.(n := opt.n + |d|);
      assert State() == Extended(a, code, d);
      ExtendedHolds(a, code, d);
    }

    /** `dhcp_msg_put`, for bytes that lie outside the message's block. */
    method PutOption(code: nat, d: seq<Byte>)
      requires Valid() && code < N_OPTIONS
      modifies this, options, data
      ensures Valid() && View() == Put(old(View()), code, d) && (data == old(data) || fresh(data))
    {
      if code == PAD || code == END {
        return;
      }
      PreallocData(|d| + options[code].n);
      var opt := options[code];
      if opt.n > 0 {
        if used - opt.n != opt.data.pos {
          MovedToEndKeeps(State(), code);
          MoveToEnd(code);
        }
        Extend(code, d);
      } else {
        Store(code, d);
      }
    }

    /** `dhcp_msg_copy`: the copy always has a block of its own. */
    constructor Copy(src: DhcpMsg)
      requires src.Valid()
      ensures Valid() && View() == src.View().(hasBlock := true) && fresh(options) && fresh(data)
    {
      options := new Slot[N_OPTIONS](i requires 0 <= i < src.options.Length reads src.options => src.options[i]);
      data, used := new Byte[src.used], 0;
      new;
      ghost var slots := src.options[..];
      assert options[..] == slots;
      NullStays(slots);
      CompactedLive(slots);
      if src.data != null {
        CopyData(src.data);
        CompactedKeeps(slots, src.data[..], data[..]);
      } else {
        NoneLive(slots);
      }
    }

    /** `parse_options`, on bytes that lie outside the message's block. */
    method ParseOptions(b: seq<Byte>, ofs: nat)
      requires Valid() && ofs <= VENDOR_OFS
      modifies this, options, data
      ensures Valid() && View() == Parse(old(View()), b, ofs)
    {
      var rest := b;
      ghost var all := Parse(View(), b, ofs);
      while rest != [] && rest[0] != END
        invariant Valid() && (data == old(data) || fresh(data)) && Parse(View(), rest, ofs) == all
        decreases |rest|
      {
        if rest[0] == PAD {
          rest := rest[1..];
        } else if |rest| < 2 || |rest| < PayloadEnd(rest) {
          return;
        } else {
          PutOption(rest[0] + ofs, rest[2..PayloadEnd(rest)]);
          rest := rest[PayloadEnd(rest)..];
        }
      }
    }

    /** The options part of `dhcp_assemble`. */
    method Assemble(msgType: Byte) returns (b: seq<Byte>)
      requires Valid()
      ensures b == Assembled(View().options, msgType)
    {
      var head := [];
      if msgType != 0 {
        head := EncodeOption(head, MSG_TYPE, [msgType]);
        assert head == Chunks(MSG_TYPE, [msgType]);
      }
      var standard := AssembleBlock(0);
      var vendor := AssembleBlock(VENDOR_OFS);
      var tail := head + standard;
      if vendor != [] {
        tail := EncodeOption(tail, VENDOR_SPECIFIC, vendor);
      }
      assert tail == head + standard + VendorBytes(vendor);
      b := tail + [END];
    }

    /** Options `ofs` up to `ofs + 256` on the wire. */
    method AssembleBlock(ofs: nat) returns (b: seq<Byte>)
      requires Valid() && ofs <= VENDOR_OFS
      ensures b == DhcpOptions.Block(View().options, ofs, 256)
    {
      b := [];
      ghost var m := View().options;
      for i := 0 to 256
        invariant b == DhcpOptions.Block(m, ofs, i)
      {
        b := AppendOption(b, ofs + i, i);
      }
    }

    method AppendOption(b: seq<Byte>, key: nat, code: Byte) returns (r: seq<Byte>)
      requires Valid() && key < N_OPTIONS
      ensures r == b + OptionBytes(View().options, key, code)
    {
      var present, d := GetOption(key);
      if present {
        r := EncodeOption(b, code, d);
      } else {
        r := b;
        assert b + [] == b;
      }
    }

    method GetOption(code: nat) returns (present: bool, d: seq<Byte>)
      requires Valid() && code < N_OPTIONS
      ensures (present <==> code in View().options) && d == Get(View().options, code)
    {
      var opt := options[code];
      present := opt.data.Offset?;
      d := if present then data[opt.data.pos..opt.data.pos + opt.n] else [];
    }
  }

  /** `put_option`, for an option whose data pointer is not null. */
  method EncodeOption(b: seq<Byte>, code: Byte, d: seq<Byte>) returns (r: seq<Byte>)
    ensures r == b + Chunks(code, d)
  {
    if d == [] {
      return b + [code, 0];
    }
    r := b;
    var rest := d;
    while rest != []
      invariant r + (if rest == [] then [] else Chunks(code, rest)) == b + Chunks(code, d)
      decreases |rest|
    {
      var chunk: Byte := if |rest| > 255 then 248 else |rest|;
      Assoc(r, [code, chunk] + rest[..chunk], if |rest| > 255 then Chunks(code, rest[chunk..]) else []);
      r := r + ([code, chunk] + rest[..chunk]);
      rest := rest[chunk..];
    }
  }

  lemma NullStays(slots: seq<Slot>)
    ensures forall c :: 0 <= c < |slots| ==>
      Compacted(slots)[c].n == slots[c].n && (Compacted(slots)[c].data.Null? <==> slots[c].data.Null?)
  {
    forall c | 0 <= c < |slots|
      ensures Compacted(slots)[c].n == slots[c].n && (Compacted(slots)[c].data.Null? <==> slots[c].data.Null?)
    {
      CompactedAt(slots, c);
    }
  }

  /** The bytes an option holds in `block`. */
  method ReadSlot(block: array<Byte>, s: Slot) returns (d: seq<Byte>)
    requires Inside(s, block.Length) && s.data.Offset?
    ensures d == Bytes(s, block[..]) && |d| == s.n
  {
    d := block[s.data.pos..s.data.pos + s.n];
    assert d == block[..][s.data.pos..s.data.pos + s.n];
  }

  lemma SetNext<T>(front: seq<T>, a: seq<T>, k: nat, x: T)
    requires |front| == k < |a|
    ensures (front + a[k..])[k] == a[k] && (front + a[k..])[k := x] == (front + [x]) + a[k + 1..]
    ensures front + a[k..] == (front + [a[k]]) + a[k + 1..]
  {
  }

  lemma Next(slots: seq<Slot>, block: seq<Byte>, c: nat)
    requires AllInside(slots, |block|) && c < |slots|
    ensures Live(slots[..c + 1]) == Live(slots[..c]) + slots[c].n
    ensures Compacted(slots[..c + 1]) == Compacted(slots[..c]) + [Moved(slots[c], Live(slots[..c]))]
    ensures Packed(slots[..c + 1], block) == Packed(slots[..c], block) + Bytes(slots[c], block)
    ensures slots[c].data.Null? ==> Packed(slots[..c + 1], block) == Packed(slots[..c], block)
  {
    assert slots[..c + 1][..c] == slots[..c];
  }

  /** The options once the first `c` have been copied. */
  function Halfway(slots: seq<Slot>, c: nat): seq<Slot>
    requires c <= |slots|
  {
    Compacted(slots[..c]) + slots[c..]
  }

  lemma CopyStep(slots: seq<Slot>, block: seq<Byte>, c: nat)
    requires AllInside(slots, |block|) && c < |slots|
    ensures Halfway(slots, c)[c] == slots[c]
    ensures Halfway(slots, c + 1) == Halfway(slots, c)[c := Moved(slots[c], Live(slots[..c]))]
    ensures slots[c].data.Null? ==> Halfway(slots, c + 1) == Halfway(slots, c)
    ensures Live(slots[..c + 1]) == Live(slots[..c]) + slots[c].n
    ensures Packed(slots[..c + 1], block) == Packed(slots[..c], block) + Bytes(slots[c], block)
    ensures slots[c].data.Null? ==> Packed(slots[..c + 1], block) == Packed(slots[..c], block)
  {
    Next(slots, block, c);
    SetNext(Compacted(slots[..c]), slots, c, Moved(slots[c], Live(slots[..c])));
  }

  lemma {:induction false} NoneLive(slots: seq<Slot>)
    requires forall c :: 0 <= c < |slots| ==> slots[c].n == 0
    ensures Live(slots) == 0
  {
    if slots != [] { NoneLive(slots[..|slots| - 1]); }
  }
}

/** Tags: 32-bit words in which two 1-bits stand for a category, and tag sets that
    accumulate them. A tag set may match tags that were never added, but it never misses
    one that was. */
module Tag {
  type Word = bv32

  const TAG_SET_SIZE: nat := 4

  /** At least one tag, that is at least two 1-bits, in common. */
  predicate Intersects(a: Word, b: Word) {
    var x := a & b;
    x & (x - 1) != 0
  }

  /** Exactly two bits are set. */
  predicate IsValid(tag: Word) {
    var x := tag & (tag - 1);
    var y := x & (x - 1);
    x != 0 && y == 0
  }

  // ---------------------------------------------------------------- making tags

  predicate OneBit(p: Word) { p != 0 && p & (p - 1) == 0 }

  lemma TwoBitsValid(p: Word, q: Word)
    requires OneBit(p) && OneBit(q) && p != q
    ensures IsValid(p | q)
  {
  }

  lemma ShiftedBits(x: Word, y: Word)
    requires x < 32 && y < 32 && x != y
    ensures OneBit(1 << x) && OneBit(1 << y) && (1 as Word) << x != (1 as Word) << y
  {
  }

  /** Two different bits picked by a bit number and one of the 31 others. */
  function TwoBits(x: Word, y: Word): (tag: Word)
    requires x < 32 && y < 31
    ensures IsValid(tag)
  {
    var z := if y >= x then y + 1 else y;
    ShiftedBits(x, z);
    TwoBitsValid(1 << x, 1 << z);
    (1 << x) | (1 << z)
  }

  /** A tag made from a 32-bit seed. */
  function CreateDeterministic(seed: nat): (tag: Word)
    ensures IsValid(tag)
  {
    TwoBits((seed % 32) as Word, (seed / 32 % 31) as Word)
  }

  /** Every choice of a bit, and of one of the 31 others, is made by some seed. */
  lemma EveryChoiceIsMade(a: nat, b: nat)
    requires a < 32 && b < 31
    ensures CreateDeterministic(a + 32 * b) == TwoBits(a as Word, b as Word)
  {
    SeedParts(a, b);
  }

  /** And so every pair of bits is the tag of some choice. */
  lemma EveryPairIsChosen(x: Word, y: Word)
    requires x < 32 && y < 32 && x != y
    ensures TwoBits(x, if y > x then y - 1 else y) == ((1 as Word) << x) | ((1 as Word) << y)
  {
  }

  lemma SeedParts(x: nat, z: nat)
    requires x < 32 && z < 31
    ensures (x + 32 * z) % 32 == x && (x + 32 * z) / 32 % 31 == z
  {
  }

  // ---------------------------------------------------------------- bits in common

  lemma IntersectsMore(a: Word, more: Word, t: Word)
    requires Intersects(a, t)
    ensures Intersects(a | more, t) && Intersects(more | a, t)
  {
  }

  /** A valid tag intersects a word only by being contained in it. */
  lemma ValidContained(tag: Word, a: Word)
    requires IsValid(tag) && Intersects(a, tag)
    ensures a & tag == tag
  {
  }

  lemma ContainedIntersects(a: Word, tag: Word, t: Word)
    requires a & tag == tag && Intersects(tag, t)
    ensures Intersects(a, t)
  {
  }

  lemma IntersectsAllOnes(a: Word, t: Word)
    requires Intersects(a, t)
    ensures Intersects(0xffff_ffff, t)
  {
  }

  // ---------------------------------------------------------------- tag sets as values

  datatype Tags = Tags(total: Word, tags: seq<Word>, n: nat)

  predicate WellFormed(s: Tags) { |s.tags| == TAG_SET_SIZE }

  const EMPTY: Tags := Tags(0, [0, 0, 0, 0], 0)

  predicate SetIntersects(s: Tags, t: Word)
    requires WellFormed(s)
  {
    && Intersects(s.total, t)
    && (Intersects(s.tags[0], t) || Intersects(s.tags[1], t)
        || Intersects(s.tags[2], t) || Intersects(s.tags[3], t))
  }

  /** The slots after `w` went into slot `i`, and also into the first if it is full. */
  function PutSlot<T>(slots: seq<T>, i: nat, w: T, full: bool): (r: seq<T>)
    requires i < |slots|
    ensures |r| == |slots| && r[i] == w
    ensures forall j :: 0 <= j < |slots| && j != i ==> r[j] == slots[j] || (full && r[j] == w)
  {
    if full then slots[i := w][0 := w] else slots[i := w]
  }

  function WithTag(w: Word, tag: Word): Word { w | tag }

  predicate IsFull(w: Word) { w == 0xffff_ffff }

  /** Puts `tag` into the next slot; a slot that has become all ones is copied to the first. */
  function Store(s: Tags, tag: Word): (r: Tags)
    requires WellFormed(s)
    ensures WellFormed(r)
  {
    var i := s.n % TAG_SET_SIZE;
    var w := WithTag(s.tags[i], tag);
    Tags(WithTag(s.total, tag), PutSlot(s.tags, i, w, IsFull(w)), (s.n + 1) % 0x1_0000_0000)
  }

  function SetAdd(s: Tags, tag: Word): (r: Tags)
    requires WellFormed(s)
    ensures WellFormed(r)
  {
    if tag != 0 && (!IsValid(tag) || !SetIntersects(s, tag)) then Store(s, tag) else s
  }

  lemma IntersectsBySlot(s: Tags, t: Word, i: nat)
    requires WellFormed(s) && i < TAG_SET_SIZE && Intersects(s.total, t) && Intersects(s.tags[i], t)
    ensures SetIntersects(s, t)
  {
    assert i == 0 || i == 1 || i == 2 || i == 3;
  }

  lemma SlotOf(s: Tags, t: Word) returns (i: nat)
    requires WellFormed(s) && SetIntersects(s, t)
    ensures i < TAG_SET_SIZE && Intersects(s.tags[i], t) && Intersects(s.total, t)
  {
    i := if Intersects(s.tags[0], t) then 0 else if Intersects(s.tags[1], t) then 1
         else if Intersects(s.tags[2], t) then 2 else 3;
  }

  lemma StoreKeeps(s: Tags, tag: Word, t: Word, i: nat)
    requires WellFormed(s) && i < TAG_SET_SIZE && Intersects(s.total, t) && Intersects(s.tags[i], t)
    ensures SetIntersects(Store(s, tag), t)
  {
    TotalKept(s, tag, t);
    SlotKept(s, tag, t, i);
    IntersectsBySlot(Store(s, tag), t, i);
  }

  lemma TotalKept(s: Tags, tag: Word, t: Word)
    requires WellFormed(s) && Intersects(s.total, t)
    ensures Intersects(Store(s, tag).total, t)
  {
    IntersectsMore(s.total, tag, t);
  }

  lemma SlotKept(s: Tags, tag: Word, t: Word, i: nat)
    requires WellFormed(s) && i < TAG_SET_SIZE && Intersects(s.tags[i], t)
    ensures Intersects(Store(s, tag).tags[i], t)
  {
    var k := s.n % TAG_SET_SIZE;
    if i == k || Store(s, tag).tags[i] == s.tags[i] {
      KeptBits(s.tags[i], tag, Store(s, tag).tags[i], t);
    } else {
      IntersectsAllOnes(s.tags[i], t);
    }
  }

  lemma KeptBits(a: Word, tag: Word, b: Word, t: Word)
    requires Intersects(a, t) && (b == a || b == a | tag || b == 0xffff_ffff)
    ensures Intersects(b, t)
  {
    IntersectsMore(a, tag, t);
    IntersectsAllOnes(a, t);
  }

  lemma StoreMatches(s: Tags, tag: Word, t: Word)
    requires WellFormed(s) && Intersects(tag, t)
    ensures SetIntersects(Store(s, tag), t)
  {
    AddedBits(s.total, tag, s.total | tag, t);
    SlotMatches(s, tag, t);
    IntersectsBySlot(Store(s, tag), t, s.n % TAG_SET_SIZE);
  }

  lemma SlotMatches(s: Tags, tag: Word, t: Word)
    requires WellFormed(s) && Intersects(tag, t)
    ensures Intersects(Store(s, tag).tags[s.n % TAG_SET_SIZE], t)
  {
    var k := s.n % TAG_SET_SIZE;
    AddedBits(s.tags[k], tag, Store(s, tag).tags[k], t);
  }

  lemma AddedBits(a: Word, tag: Word, b: Word, t: Word)
    requires Intersects(tag, t) && (b == a | tag || b == 0xffff_ffff)
    ensures Intersects(b, t)
  {
    IntersectsMore(tag, a, t);
    IntersectsAllOnes(tag, t);
  }

  /** Adding a tag keeps every match. */
  lemma AddKeeps(s: Tags, tag: Word, t: Word)
    requires WellFormed(s) && SetIntersects(s, t)
    ensures SetIntersects(SetAdd(s, tag), t)
  {
    var i := SlotOf(s, t);
    StoreKeeps(s, tag, t, i);
  }

  /** A tag that is not stored again is already in the set, with all that intersects it. */
  lemma AlreadyMatched(s: Tags, tag: Word, t: Word)
    requires WellFormed(s) && IsValid(tag) && SetIntersects(s, tag) && Intersects(tag, t)
    ensures SetIntersects(s, t)
  {
    var i := SlotOf(s, tag);
    ValidContained(tag, s.tags[i]);
    ValidContained(tag, s.total);
    ContainedIntersects(s.tags[i], tag, t);
    ContainedIntersects(s.total, tag, t);
    IntersectsBySlot(s, t, i);
  }

  /** A tag just added is matched, and so is everything that intersects it. */
  lemma AddMatches(s: Tags, tag: Word, t: Word)
    requires WellFormed(s) && Intersects(tag, t)
    ensures SetIntersects(SetAdd(s, tag), t)
  {
    if tag != 0 && (!IsValid(tag) || !SetIntersects(s, tag)) {
      StoreMatches(s, tag, t);
    } else {
      AlreadyMatched(s, tag, t);
    }
  }

  /** The set `s` after a history of additions. */
  function AddAll(s: Tags, history: seq<Word>): (r: Tags)
    requires WellFormed(s)
    ensures WellFormed(r)
  {
    if history == [] then s else SetAdd(AddAll(s, history[..|history| - 1]), history[|history| - 1])
  }

  /** Over any history, a tag set never loses a tag added to it. */
  lemma {:induction false} NeverMisses(s: Tags, history: seq<Word>, k: nat, t: Word)
    requires WellFormed(s) && k < |history| && Intersects(history[k], t)
    ensures SetIntersects(AddAll(s, history), t)
  {
    var before, last := history[..|history| - 1], history[|history| - 1];
    if k == |history| - 1 {
      AddMatches(AddAll(s, before), last, t);
    } else {
      assert before[k] == history[k];
      NeverMisses(s, before, k, t);
      AddKeeps(AddAll(s, before), last, t);
    }
  }

  /** What a word matches its parts need not, but a word matches nothing its bits do not. */
  lemma PartsIntersect(a: Word, b: Word, t: Word)
    requires Intersects(a, t) && Within(a, b)
    ensures Intersects(b, t)
  {
  }

  lemma ZeroMatchesNothing(t: Word)
    ensures !Intersects(0, t)
  {
  }

  lemma ValidNotFull(tag: Word)
    requires IsValid(tag)
    ensures !IsFull(tag) && 0 | tag == tag && tag != 0
  {
  }

  /** The first `n` slots hold one tag of the history each, and the others nothing. */
  ghost predicate OneEach(s: Tags, history: seq<Word>) {
    && WellFormed(s) && s.n <= |history|
    && forall i :: 0 <= i < TAG_SET_SIZE ==> if i < s.n then s.tags[i] in history else s.tags[i] == 0
  }

  lemma StoreOneEach(s: Tags, before: seq<Word>, tag: Word)
    requires OneEach(s, before) && s.n < TAG_SET_SIZE && IsValid(tag)
    ensures OneEach(Store(s, tag), before + [tag])
  {
    ValidNotFull(tag);
    assert s.n % TAG_SET_SIZE == s.n;
    var r := Store(s, tag);
    assert r.tags == s.tags[s.n := tag];
    forall i | 0 <= i < TAG_SET_SIZE
      ensures if i < r.n then r.tags[i] in before + [tag] else r.tags[i] == 0
    {
      if i == s.n { assert (before + [tag])[|before|] == tag; }
    }
  }

  lemma {:induction false} FewOneEach(history: seq<Word>)
    requires |history| <= TAG_SET_SIZE && forall k :: 0 <= k < |history| ==> IsValid(history[k])
    ensures OneEach(AddAll(EMPTY, history), history)
  {
    if history != [] {
      var before, last := history[..|history| - 1], history[|history| - 1];
      FewOneEach(before);
      StoreOneEach(AddAll(EMPTY, before), before, last);
      assert before + [last] == history;
    }
  }

  /** A set to which no more tags were added than it has slots matches exactly what intersects
      one of them. */
  lemma FewAreExact(history: seq<Word>, t: Word)
    requires |history| <= TAG_SET_SIZE && forall k :: 0 <= k < |history| ==> IsValid(history[k])
    ensures SetIntersects(AddAll(EMPTY, history), t) <==> exists k :: 0 <= k < |history| && Intersects(history[k], t)
  {
    var s := AddAll(EMPTY, history);
    if SetIntersects(s, t) {
      FewOneEach(history);
      var i := SlotOf(s, t);
      ZeroMatchesNothing(t);
    }
    if k :| 0 <= k < |history| && Intersects(history[k], t) {
      NeverMisses(EMPTY, history, k, t);
    }
  }

  /** All tags of the history in one word. */
  function Union(history: seq<Word>): Word {
    if history == [] then 0 else Both(Union(history[..|history| - 1]), history[|history| - 1])
  }

  predicate Within(a: Word, u: Word) { a & u == a }

  function Both(u: Word, tag: Word): Word { u | tag }

  lemma UnionGrows(a: Word, u: Word, tag: Word)
    requires Within(a, u)
    ensures Within(a, Both(u, tag)) && Within(WithTag(a, tag), Both(u, tag))
  {
  }

  lemma AddWithin(s: Tags, tag: Word, u: Word)
    requires WellFormed(s) && Within(s.total, u)
    ensures Within(SetAdd(s, tag).total, Both(u, tag))
  {
    UnionGrows(s.total, u, tag);
    assert SetAdd(s, tag).total == s.total || SetAdd(s, tag).total == WithTag(s.total, tag);
  }

  lemma {:induction false} TotalWithin(history: seq<Word>)
    ensures Within(AddAll(EMPTY, history).total, Union(history))
  {
    if history != [] {
      TotalWithin(history[..|history| - 1]);
      AddWithin(AddAll(EMPTY, history[..|history| - 1]), history[|history| - 1], Union(history[..|history| - 1]));
    }
  }

  /** However many were added, a set matches nothing that all of them together do not. */
  lemma MatchesWithinUnion(history: seq<Word>, t: Word)
    requires SetIntersects(AddAll(EMPTY, history), t)
    ensures Intersects(Union(history), t)
  {
    TotalWithin(history);
    PartsIntersect(AddAll(EMPTY, history).total, Union(history), t);
  }

  // ---------------------------------------------------------------- the mutable tag set

  class TagSet {
    var total: Word
    const tags: array<Word>
    var n: nat

    ghost predicate Valid()
      reads this, tags
    {
      tags.Length == TAG_SET_SIZE && n < 0x1_0000_0000
    }

    ghost function View(): (s: Tags)
      reads this, tags
    {
      Tags(total, tags[..], n)
    }

    constructor ()
      ensures Valid() && fresh(tags) && View() == EMPTY
    {
      total, n := 0, 0;
      tags := new Word[TAG_SET_SIZE](_ => 0);
    }

    predicate IntersectsTag(t: Word)
      requires Valid()
      reads this, tags
      ensures IntersectsTag(t) <==> SetIntersects(View(), t)
    {
      && Intersects(total, t)
      && (Intersects(tags[0], t) || Intersects(tags[1], t) || Intersects(tags[2], t) || Intersects(tags[3], t))
    }

    method Add(tag: Word)
      requires Valid()
      modifies this, tags
      ensures Valid() && View() == SetAdd(old(View()), tag)
    {
      if tag != 0 && (!IsValid(tag) || !IntersectsTag(tag)) {
        StoreTag(tag);
      }
    }

    method StoreTag(tag: Word)
      requires Valid()
      modifies this, tags
      ensures Valid() && View() == Store(old(View()), tag)
    {
      var i := n % TAG_SET_SIZE;
      var w := WithTag(tags[i], tag);
      WriteSlot(tags, i, w, IsFull(w));
      n := (n + 1) % 0x1_0000_0000;
      total := WithTag(total, tag);
    }
  }

  method WriteSlot<T>(slots: array<T>, i: nat, w: T, full: bool)
    requires i < slots.Length
    modifies slots
    ensures slots[..] == PutSlot(old(slots[..]), i, w, full)
  {
    slots[i] := w;
    if full {
      slots[0] := slots[i];
    }
  }
}

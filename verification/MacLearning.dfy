/** The MAC learning table as the source keeps it: a fixed array of entries, a hash table of
    buckets, and two lists that between them hold every entry, the free ones and those in
    use in the order last learned. Proved to be the list of entries of MacTable. */
module MacLearning {
  import opened Wrappers
  import opened Tag
  import opened MacTable

  const MAC_HASH_BITS: nat := 10
  const MAC_HASH_SIZE: nat := 1024

  /** The source masks the hash with the number of hash bits, so only bits 1 and 3 count. */
  function Slot(hash: nat): (b: nat)
    ensures b < MAC_HASH_SIZE
  {
    hash / 2 % 2 * 2 + hash / 8 % 2 * 8
  }

  // ---------------------------------------------------------------- lists of entry numbers

  predicate Once(s: seq<nat>) { forall i, j :: 0 <= i < j < |s| ==> s[i] != s[j] }

  /** Every element is the number of an entry. */
  predicate Numbers(s: seq<nat>) { forall i :: 0 <= i < |s| ==> s[i] < MAC_MAX }

  function IndexOf(s: seq<nat>, e: nat): (i: nat)
    requires e in s
    ensures i < |s| && s[i] == e
  {
    if s[0] == e then 0 else 1 + IndexOf(s[1..], e)
  }

  function Cut(s: seq<nat>, i: nat): seq<nat>
    requires i < |s|
  {
    s[..i] + s[i + 1..]
  }

  /** The list without `e`. */
  function Remove(s: seq<nat>, e: nat): seq<nat> {
    if e in s then Cut(s, IndexOf(s, e)) else s
  }

  lemma CutMembers(s: seq<nat>, i: nat)
    requires i < |s| && Once(s)
    ensures forall x :: x in Cut(s, i) <==> x in s && x != s[i]
  {
    assert s == s[..i] + [s[i]] + s[i + 1..];
  }

  lemma CutOnce(s: seq<nat>, i: nat)
    requires i < |s| && Once(s)
    ensures Once(Cut(s, i)) && (Numbers(s) ==> Numbers(Cut(s, i)))
  {
  }

  lemma RemoveFacts(s: seq<nat>, e: nat)
    requires Once(s)
    ensures Once(Remove(s, e)) && (Numbers(s) ==> Numbers(Remove(s, e)))
    ensures forall x :: x in Remove(s, e) <==> x in s && x != e
    ensures |Remove(s, e)| == if e in s then |s| - 1 else |s|
  {
    if e in s {
      CutMembers(s, IndexOf(s, e));
      CutOnce(s, IndexOf(s, e));
    }
  }

  // ---------------------------------------------------------------- the structure as a value

  datatype Lists = Lists(entries: seq<Entry>, table: seq<seq<nat>>, free: seq<nat>, lrus: seq<nat>)

  predicate Sized(l: Lists) {
    |l.entries| == MAC_MAX && |l.table| == MAC_HASH_SIZE && Numbers(l.free) && Numbers(l.lrus)
  }

  /** Every entry is on one of the two lists, once. */
  ghost predicate Partition(l: Lists) {
    && Sized(l) && Once(l.free) && Once(l.lrus) && |l.free| + |l.lrus| == MAC_MAX
    && forall e :: e in l.free ==> e !in l.lrus
  }

  /** The bucket holds, once each, the entries in use whose key hashes to `b`. */
  ghost predicate Hashed(l: Lists, hash: Key -> nat, b: nat)
    requires Sized(l) && b < MAC_HASH_SIZE
  {
    && Once(l.table[b]) && Numbers(l.table[b])
    && forall e: nat | e < MAC_MAX :: e in l.table[b] <==> e in l.lrus && Slot(hash(l.entries[e].key)) == b
  }

  ghost predicate AllHashed(l: Lists, hash: Key -> nat)
    requires Sized(l)
  {
    forall b :: 0 <= b < MAC_HASH_SIZE ==> Hashed(l, hash, b)
  }

  /** The entries in use, least recently learned first. */
  function Known(l: Lists): (t: seq<Entry>)
    requires Sized(l)
    ensures |t| == |l.lrus| && forall i :: 0 <= i < |l.lrus| ==> t[i] == l.entries[l.lrus[i]]
  {
    seq(|l.lrus|, i requires 0 <= i < |l.lrus| => l.entries[l.lrus[i]])
  }

  ghost predicate Ok(l: Lists, hash: Key -> nat) {
    Partition(l) && AllHashed(l, hash) && UniqueKeys(Known(l))
  }

  /** The entry in use for a key is found in the key's bucket. */
  lemma BucketFinds(l: Lists, hash: Key -> nat, k: Key, e: nat)
    requires Ok(l, hash) && e < MAC_MAX && e in l.table[Slot(hash(k))] && l.entries[e].key == k
    ensures e in l.lrus && Find(Known(l), k) == Some(IndexOf(l.lrus, e))
  {
    assert Hashed(l, hash, Slot(hash(k)));
    FindUnique(Known(l), k, IndexOf(l.lrus, e));
  }

  lemma BucketMisses(l: Lists, hash: Key -> nat, k: Key)
    requires Ok(l, hash)
    requires forall e: nat | e < MAC_MAX && e in l.table[Slot(hash(k))] :: l.entries[e].key != k
    ensures Find(Known(l), k).None?
  {
    assert Hashed(l, hash, Slot(hash(k)));
    forall i | 0 <= i < |l.lrus| ensures Known(l)[i].key != k {
      assert l.lrus[i] in l.lrus;
    }
  }

  // ---------------------------------------------------------------- the list operations

  /** Entry `e`, in use, becomes the most recently learned and is rewritten under its key. */
  function Touch(l: Lists, e: nat, x: Entry): Lists
    requires e < |l.entries|
  {
    l.(entries := l.entries[e := x], lrus := Remove(l.lrus, e) + [e])
  }

  lemma TouchKnown(l: Lists, e: nat, x: Entry)
    requires Partition(l) && e in l.lrus && e < MAC_MAX
    ensures Sized(Touch(l, e, x))
    ensures Known(Touch(l, e, x)) == Drop(Known(l), IndexOf(l.lrus, e)) + [x]
  {
    RemoveFacts(l.lrus, e);
    var i, m := IndexOf(l.lrus, e), Touch(l, e, x);
    var r := Drop(Known(l), i) + [x];
    forall j | 0 <= j < |r| ensures Known(m)[j] == r[j] {
      TouchAt(l, e, x, j);
    }
  }

  lemma TouchAt(l: Lists, e: nat, x: Entry, j: nat)
    requires Partition(l) && e in l.lrus && e < MAC_MAX && j < |l.lrus| && Sized(Touch(l, e, x))
    ensures |Touch(l, e, x).lrus| == |l.lrus|
    ensures Known(Touch(l, e, x))[j] == (Drop(Known(l), IndexOf(l.lrus, e)) + [x])[j]
  {
    var i, m := IndexOf(l.lrus, e), Touch(l, e, x);
    if j < |l.lrus| - 1 {
      var k := if j < i then j else j + 1;
      assert m.lrus[j] == l.lrus[k] && l.lrus[k] != e;
    }
  }

  lemma TouchPartition(l: Lists, e: nat, x: Entry)
    requires Partition(l) && e in l.lrus && e < MAC_MAX
    ensures Partition(Touch(l, e, x))
    ensures forall f :: f in Touch(l, e, x).lrus <==> f in l.lrus
  {
    RemoveFacts(l.lrus, e);
  }

  lemma MovedUnique(t: seq<Entry>, i: nat, x: Entry)
    requires UniqueKeys(t) && i < |t| && x.key == t[i].key
    ensures UniqueKeys(Drop(t, i) + [x])
  {
  }

  lemma TouchOk(l: Lists, hash: Key -> nat, e: nat, x: Entry)
    requires Ok(l, hash) && e in l.lrus && e < MAC_MAX && x.key == l.entries[e].key
    ensures Ok(Touch(l, e, x), hash)
    ensures Known(Touch(l, e, x)) == Drop(Known(l), IndexOf(l.lrus, e)) + [x]
  {
    TouchKnown(l, e, x);
    TouchPartition(l, e, x);
    MovedUnique(Known(l), IndexOf(l.lrus, e), x);
    var m := Touch(l, e, x);
    forall b | 0 <= b < MAC_HASH_SIZE ensures Hashed(m, hash, b) {
      assert Hashed(l, hash, b);
    }
  }

  /** Entry `e` leaves its bucket and the list of entries in use. */
  function Unlink(l: Lists, hash: Key -> nat, e: nat): Lists
    requires e < |l.entries| && |l.table| == MAC_HASH_SIZE
  {
    var b := Slot(hash(l.entries[e].key));
    l.(table := l.table[b := Remove(l.table[b], e)], lrus := Remove(l.lrus, e))
  }

  /** Unlinked front entry, put at the front of the free list. */
  function FreeFront(l: Lists, hash: Key -> nat): Lists
    requires Sized(l) && l.lrus != []
  {
    Unlink(l, hash, l.lrus[0]).(free := [l.lrus[0]] + l.free)
  }

  lemma FrontRemoved(s: seq<nat>)
    requires s != []
    ensures Remove(s, s[0]) == s[1..]
  {
  }

  lemma FreeFrontPartition(l: Lists, hash: Key -> nat)
    requires Partition(l) && l.lrus != []
    ensures Partition(FreeFront(l, hash)) && Known(FreeFront(l, hash)) == Known(l)[1..]
    ensures forall f :: f in FreeFront(l, hash).lrus <==> f in l.lrus && f != l.lrus[0]
  {
    var e := l.lrus[0];
    FrontRemoved(l.lrus);
    RemoveFacts(l.lrus, e);
    assert e in l.lrus;
    assert e !in l.free;
  }

  lemma FreeFrontOk(l: Lists, hash: Key -> nat)
    requires Ok(l, hash) && l.lrus != []
    ensures Ok(FreeFront(l, hash), hash) && Known(FreeFront(l, hash)) == Known(l)[1..]
  {
    FreeFrontPartition(l, hash);
    var e := l.lrus[0];
    var b := Slot(hash(l.entries[e].key));
    assert Hashed(l, hash, b);
    RemoveFacts(l.table[b], e);
    var m := FreeFront(l, hash);
    forall c | 0 <= c < MAC_HASH_SIZE ensures Hashed(m, hash, c) {
      assert Hashed(l, hash, c);
    }
  }

  /** The front of the free list is written and linked as the most recently learned. */
  function LinkFree(l: Lists, hash: Key -> nat, x: Entry): Lists
    requires Sized(l) && l.free != []
  {
    var e, b := l.free[0], Slot(hash(x.key));
    Lists(l.entries[e := x], l.table[b := [e] + l.table[b]], l.free[1..], l.lrus + [e])
  }

  lemma LinkFreePartition(l: Lists, hash: Key -> nat, x: Entry)
    requires Partition(l) && l.free != []
    ensures Partition(LinkFree(l, hash, x)) && Known(LinkFree(l, hash, x)) == Known(l) + [x]
    ensures forall f :: f in LinkFree(l, hash, x).lrus <==> f in l.lrus || f == l.free[0]
  {
    var e := l.free[0];
    assert e in l.free;
    var m := LinkFree(l, hash, x);
    forall f | f in m.free ensures f !in m.lrus {
      assert f in l.free;
    }
    forall i | 0 <= i < |l.lrus| ensures l.lrus[i] != e {
      assert l.lrus[i] in l.lrus;
    }
  }

  lemma LinkFreeOk(l: Lists, hash: Key -> nat, x: Entry)
    requires Ok(l, hash) && l.free != [] && Find(Known(l), x.key).None?
    ensures Ok(LinkFree(l, hash, x), hash) && Known(LinkFree(l, hash, x)) == Known(l) + [x]
  {
    LinkFreePartition(l, hash, x);
    var e := l.free[0];
    assert e in l.free;
    var m := LinkFree(l, hash, x);
    forall c | 0 <= c < MAC_HASH_SIZE ensures Hashed(m, hash, c) {
      assert Hashed(l, hash, c);
    }
  }

  // ---------------------------------------------------------------- the mutable table

  /** The lists with `x` in a free entry or, where there is none, in the least recently learned. */
  function WithNew(l: Lists, hash: Key -> nat, x: Entry): Lists
    requires Ok(l, hash)
  {
    if l.free == [] then FreeFrontOk(l, hash); LinkFree(FreeFront(l, hash), hash, x) else LinkFree(l, hash, x)
  }

  lemma NewEntryOk(l: Lists, hash: Key -> nat, x: Entry)
    requires Ok(l, hash) && MacTable.Inv(Known(l)) && Find(Known(l), x.key).None?
    requires IsValid(x.tag) && !Multicast(x.key.mac)
    ensures Ok(WithNew(l, hash, x), hash) && Known(WithNew(l, hash, x)) == Others(Known(l), x.key) + [x]
    ensures MacTable.Inv(Known(WithNew(l, hash, x)))
  {
    if l.free == [] {
      FreeFrontOk(l, hash);
      LinkFreeOk(FreeFront(l, hash), hash, x) by { TailMisses(Known(l), x.key); }
    } else {
      LinkFreeOk(l, hash, x);
    }
    MacTable.OthersInv(Known(l), x.key);
    MacTable.PushInv(Others(Known(l), x.key), x);
  }


  class MacLearning {
    const hash: Key -> nat
    const unknownTag: Key -> Word
    const entries: array<Entry>
    const table: array<seq<nat>>
    var free: seq<nat>
    var lrus: seq<nat>

    ghost function View(): Lists
      reads this, entries, table
    {
      Lists(entries[..], table[..], free, lrus)
    }

    ghost predicate Valid()
      reads this, entries, table
    {
      Ok(View(), hash) && MacTable.Inv(Known(View())) && forall k :: IsValid(unknownTag(k))
    }

    /** A new table; `secretHash` is the hash seeded with the table's secret. */
    constructor (hash: Key -> nat, secretHash: nat -> nat)
      ensures Valid() && fresh(entries) && fresh(table)
      ensures Known(View()) == [] && this.hash == hash
      ensures forall k :: unknownTag(k) == CreateDeterministic(secretHash(hash(k)))
    {
      this.hash := hash;
      unknownTag := k => CreateDeterministic(secretHash(hash(k)));
      entries := new Entry[MAC_MAX](_ => Entry(Key(0, 0), 0, 0, 0));
      table := new seq<nat>[MAC_HASH_SIZE](_ => []);
      lrus := [];
      free := [];
      new;
      for i := 0 to MAC_MAX
        invariant lrus == [] && |free| == i
        invariant forall j :: 0 <= j < i ==> free[j] == i - 1 - j
        invariant forall b :: 0 <= b < MAC_HASH_SIZE ==> table[b] == []
      {
        free := [i] + free;
      }
      assert Known(View()) == [];
      forall b | 0 <= b < MAC_HASH_SIZE ensures Hashed(View(), hash, b) {
        assert View().table[b] == [];
      }
    }

    /** The entry for `k` in bucket `b`, if there is one. */
    method SearchBucket(b: nat, k: Key) returns (found: Option<nat>)
      requires Valid() && b == Slot(hash(k))
      ensures found.Some? ==>
        && found.value in lrus && found.value < MAC_MAX
        && Find(Known(View()), k) == Some(IndexOf(lrus, found.value))
      ensures found.None? ==> Find(Known(View()), k).None?
    {
      assert Hashed(View(), hash, b);
      var bucket := table[b];
      for i := 0 to |bucket|
        invariant forall j :: 0 <= j < i ==> entries[bucket[j]].key != k
      {
        if entries[bucket[i]].key == k {
          assert bucket[i] in View().table[b];
          BucketFinds(View(), hash, k, bucket[i]);
          return Some(bucket[i]);
        }
      }
      BucketMisses(View(), hash, k);
      return None;
    }

    /** Gives `k` an entry: a free one, or else the least recently learned. */
    method NewEntry(k: Key, x: Entry) returns (e: nat)
      requires Valid() && Find(Known(View()), k).None? && x.key == k
      requires IsValid(x.tag) && !Multicast(k.mac)
      modifies this, entries, table
      ensures Valid()
      ensures Known(View()) == Others(old(Known(View())), k) + [x]
    {
      ghost var l := View();
      NewEntryOk(l, hash, x);
      if free != [] {
        e := free[0];
        free := free[1..];
      } else {
        e := lrus[0];
        FrontRemoved(lrus);
        var old_b := Slot(hash(entries[e].key));
        table[old_b] := Remove(table[old_b], e);
        lrus := Remove(lrus, e);
      }
      var b := Slot(hash(k));
      table[b] := [e] + table[b];
      entries[e] := x;
      lrus := lrus + [e];
      assert View() == WithNew(l, hash, x);
    }

    /** Learns that a frame from `k` arrived on `port`; returns the tag of the flows that now
        need revalidation, or 0. */
    method Learn(k: Key, port: nat, now: int, newTag: Word) returns (stale: Word)
      requires Valid() && IsValid(newTag)
      modifies this, entries, table
      ensures Valid()
      ensures Known(View()) == LearnTable(old(Known(View())), k, port, now, newTag)
      ensures stale == LearnTag(old(Known(View())), unknownTag, k, port)
    {
      if Multicast(k.mac) {
        return 0;
      }
      ghost var l := View();
      MacTable.LearnInv(Known(l), k, port, now, newTag);
      var found := SearchBucket(Slot(hash(k)), k);
      if found.None? {
        // The new entry starts on no port, so the frame always teaches something.
        stale := unknownTag(k);
        var e := NewEntry(k, Entry(k, port, newTag, now + MAC_AGE));
      } else {
        var e := found.value;
        var x := entries[e].(expires := now + MAC_AGE);
        stale := 0;
        if x.port != port {
          stale := x.tag;
          x := x.(port := port, tag := newTag);
        }
        TouchOk(l, hash, e, x);
        MoveToBack(e, x);
      }
    }

    /** Rewrites entry `e` and makes it the most recently learned. */
    method MoveToBack(e: nat, x: Entry)
      requires e < MAC_MAX == entries.Length && e in lrus
      modifies `lrus, entries
      ensures View() == Touch(old(View()), e, x)
    {
      lrus := Remove(lrus, e) + [e];
      entries[e] := x;
    }

    /** Where frames for `k` should go, and the tag to attach to flows that rely on it. */
    method Lookup(k: Key) returns (answer: Answer, tag: Word)
      requires Valid()
      ensures answer == LookupPort(Known(View()), k)
      ensures tag == LookupTag(Known(View()), unknownTag, k)
    {
      if Multicast(k.mac) {
        return Flood, 0;
      }
      var found := SearchBucket(Slot(hash(k)), k);
      if found.Some? {
        return Port(entries[found.value].port), entries[found.value].tag;
      } else {
        return Flood, unknownTag(k);
      }
    }

    /** Puts the least recently learned entry on the free list. */
    method FreeLru()
      requires Valid() && lrus != []
      modifies this, table
      ensures Valid() && Known(View()) == old(Known(View()))[1..] && |lrus| == old(|lrus|) - 1
    {
      ghost var l := View();
      FreeFrontOk(l, hash);
      MacTable.TailInv(Known(l));
      var e := lrus[0];
      FrontRemoved(lrus);
      var b := Slot(hash(entries[e].key));
      table[b] := Remove(table[b], e);
      lrus := Remove(lrus, e);
      free := [e] + free;
      assert View() == FreeFront(l, hash);
    }

    method Flush()
      requires Valid()
      modifies this, table
      ensures Valid() && Known(View()) == []
    {
      while lrus != []
        invariant Valid()
        decreases |lrus|
      {
        FreeLru();
      }
    }

    /** Reports the tag of the least recently learned entry and frees it. */
    method Expire(set_: TagSet?)
      requires Valid() && lrus != [] && (set_ != null ==> set_.Valid())
      modifies this, table, set_, if set_ != null then {set_.tags} else {}
      ensures Valid() && Known(View()) == old(Known(View()))[1..] && |lrus| == old(|lrus|) - 1
      ensures set_ != null ==>
        set_.Valid() && set_.View() == SetAdd(old(set_.View()), old(Known(View()))[0].tag)
    {
      if set_ != null {
        set_.Add(entries[lrus[0]].tag);
      }
      FreeLru();
    }

    /** Of the entries `t`, the first `n` have been dropped and their tags added to what `set_` held before. */
    ghost predicate Dropped(t: seq<Entry>, n: nat, set_: TagSet?, before: Tags)
      requires Valid() && (set_ != null ==> set_.Valid()) && WellFormed(before)
      reads this, entries, table, set_, if set_ != null then {set_.tags} else {}
    {
      n <= |t| && Known(View()) == t[n..] && (set_ != null ==> set_.View() == AddAll(before, EntryTags(t[..n])))
    }

    method ExpireNext(set_: TagSet?, ghost t: seq<Entry>, ghost n: nat, ghost before: Tags, now: int)
      requires Valid() && (set_ != null ==> set_.Valid()) && WellFormed(before) && Dropped(t, n, set_, before)
      requires n < |t| && t[n].expires <= now
      modifies this, table, set_, if set_ != null then {set_.tags} else {}
      ensures Valid() && (set_ != null ==> set_.Valid()) && Dropped(t, n + 1, set_, before)
    {
      ExpireOneMore(t, n, now);
      AddAllOneMore(before, EntryTags(t[..n]), t[n].tag);
      Expire(set_);
    }

    /** Drops the entries at the front that have expired, and adds their tags to `set_`. */
    method Run(now: int, set_: TagSet?)
      requires Valid() && (set_ != null ==> set_.Valid())
      modifies this, table, set_, if set_ != null then {set_.tags} else {}
      ensures Valid() && Known(View()) == Apply(old(Known(View())), MacTable.Run(now))
      ensures set_ != null ==>
        set_.Valid()
        && set_.View() == AddAll(old(set_.View()), Emitted(old(Known(View())), unknownTag, MacTable.Run(now)))
    {
      ghost var t, n := Known(View()), 0;
      ghost var before := if set_ != null then set_.View() else EMPTY;
      var next := FrontExpired(now);
      while next
        invariant Valid() && (set_ != null ==> set_.Valid()) && Dropped(t, n, set_, before)
        invariant n + Expired(t[n..], now) == Expired(t, now)
        invariant next == (t[n..] != [] && t[n..][0].expires <= now)
        decreases |t| - n
      {
        ExpireOneMore(t, n, now);
        ExpireNext(set_, t, n, before, now);
        n := n + 1;
        next := FrontExpired(now);
      }
    }

    method FrontExpired(now: int) returns (r: bool)
      requires Valid()
      ensures r == (Known(View()) != [] && Known(View())[0].expires <= now)
    {
      r := lrus != [] && now >= entries[lrus[0]].expires;
    }
  }

  lemma ExpireOneMore(t: seq<Entry>, n: nat, now: int)
    requires n < |t| && t[n].expires <= now
    ensures t[n..][1..] == t[n + 1..] && t[n..][0] == t[n]
    ensures EntryTags(t[..n + 1]) == EntryTags(t[..n]) + [t[n].tag]
    ensures Expired(t[n..], now) == 1 + Expired(t[n + 1..], now)
  {
    assert t[n..][1..] == t[n + 1..];
  }

  lemma AddAllOneMore(s: Tags, history: seq<Word>, tag: Word)
    requires WellFormed(s)
    ensures AddAll(s, history + [tag]) == SetAdd(AddAll(s, history), tag)
  {
    assert (history + [tag])[..|history|] == history;
  }

  lemma TailMisses(t: seq<Entry>, k: Key)
    requires Find(t, k).None?
    ensures t != [] ==> Find(t[1..], k).None?
  {
  }
}

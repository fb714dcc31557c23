/** What the MAC learning table knows, as a list of entries from the least to the most
    recently learned, and the results that hold of it over whole histories. */
module MacTable {
  import opened Wrappers
  import opened Tag

  const MAC_MAX: nat := 1024
  const MAC_AGE: nat := 60

  datatype Key = Key(mac: nat, vlan: nat)

  datatype Entry = Entry(key: Key, port: int, tag: Word, expires: int)

  /** The lowest bit of the first octet marks a group address. */
  predicate Multicast(mac: nat) { mac / 0x100_0000_0000 % 2 == 1 }

  // ---------------------------------------------------------------- the table

  predicate UniqueKeys(t: seq<Entry>) {
    forall i, j :: 0 <= i < j < |t| ==> t[i].key != t[j].key
  }

  predicate TagsValid(t: seq<Entry>) {
    forall i :: 0 <= i < |t| ==> IsValid(t[i].tag)
  }

  ghost predicate Inv(t: seq<Entry>) {
    && |t| <= MAC_MAX && UniqueKeys(t) && TagsValid(t)
    && forall i :: 0 <= i < |t| ==> !Multicast(t[i].key.mac)
  }

  function Find(t: seq<Entry>, k: Key): (r: Option<nat>)
    ensures r.Some? ==> r.value < |t| && t[r.value].key == k
    ensures r.None? ==> forall i :: 0 <= i < |t| ==> t[i].key != k
  {
    if t == [] then None
    else if t[|t| - 1].key == k then Some(|t| - 1)
    else Find(t[..|t| - 1], k)
  }

  lemma FindUnique(t: seq<Entry>, k: Key, i: nat)
    requires UniqueKeys(t) && i < |t| && t[i].key == k
    ensures Find(t, k) == Some(i)
  {
  }

  function Drop(t: seq<Entry>, i: nat): seq<Entry>
    requires i < |t|
  {
    t[..i] + t[i + 1..]
  }

  /** The entries that stay when `k` is learned: all but its own old entry, or, if it is new
      and the table is full, all but the least recently learned. */
  function Others(t: seq<Entry>, k: Key): seq<Entry> {
    match Find(t, k)
    case Some(i) => Drop(t, i)
    case None => if |t| < MAC_MAX then t else t[1..]
  }

  /** The entry for `k` after it was learned on `port`. */
  function Learned(t: seq<Entry>, k: Key, port: nat, now: int, newTag: Word): (e: Entry)
    ensures e.key == k && e.port == port && e.expires == now + MAC_AGE
  {
    match Find(t, k)
    case Some(i) => if t[i].port != port then Entry(k, port, newTag, now + MAC_AGE)
                    else t[i].(expires := now + MAC_AGE)
    case None => Entry(k, port, newTag, now + MAC_AGE)
  }

  /** What learning that `k` is on `port` does to the table. */
  function LearnTable(t: seq<Entry>, k: Key, port: nat, now: int, newTag: Word): seq<Entry> {
    if Multicast(k.mac) then t else Others(t, k) + [Learned(t, k, port, now, newTag)]
  }

  /** The tag of the flows that learning makes stale; 0 if nothing new was learned. */
  function LearnTag(t: seq<Entry>, unknown: Key -> Word, k: Key, port: nat): Word {
    if Multicast(k.mac) then 0
    else match Find(t, k)
      case Some(i) => if t[i].port != port then t[i].tag else 0
      case None => unknown(k)
  }

  datatype Answer = Flood | Port(port: int)

  function LookupPort(t: seq<Entry>, k: Key): Answer {
    if Multicast(k.mac) then Flood
    else match Find(t, k)
      case Some(i) => Port(t[i].port)
      case None => Flood
  }

  /** The tag of flows that depend on the answer; a group address always floods. */
  function LookupTag(t: seq<Entry>, unknown: Key -> Word, k: Key): Word {
    if Multicast(k.mac) then 0
    else match Find(t, k)
      case Some(i) => t[i].tag
      case None => unknown(k)
  }

  /** The number of entries at the front of the table that have expired. */
  function Expired(t: seq<Entry>, now: int): (n: nat)
    ensures n <= |t|
    ensures forall i :: 0 <= i < n ==> t[i].expires <= now
    ensures n < |t| ==> t[n].expires > now
  {
    if t == [] || now < t[0].expires then 0 else 1 + Expired(t[1..], now)
  }

  function EntryTags(t: seq<Entry>): (r: seq<Word>)
    ensures |r| == |t| && forall i :: 0 <= i < |t| ==> r[i] == t[i].tag
  {
    seq(|t|, i requires 0 <= i < |t| => t[i].tag)
  }

  // ---------------------------------------------------------------- histories

  datatype Op =
    | Learn(key: Key, port: nat, now: int, newTag: Word)
    | Run(now: int)
    | Flush

  predicate Legal(op: Op) { op.Learn? ==> IsValid(op.newTag) }

  function Apply(t: seq<Entry>, op: Op): seq<Entry> {
    match op
    case Learn(k, port, now, newTag) => LearnTable(t, k, port, now, newTag)
    case Run(now) => t[Expired(t, now)..]
    case Flush => []
  }

  /** The tags reported as needing revalidation. */
  function Emitted(t: seq<Entry>, unknown: Key -> Word, op: Op): seq<Word> {
    match op
    case Learn(k, port, _, _) => [LearnTag(t, unknown, k, port)]
    case Run(now) => EntryTags(t[..Expired(t, now)])
    case Flush => []
  }

  function ApplyAll(t: seq<Entry>, ops: seq<Op>): seq<Entry> {
    if ops == [] then t else Apply(ApplyAll(t, ops[..|ops| - 1]), ops[|ops| - 1])
  }

  function EmittedAll(t: seq<Entry>, unknown: Key -> Word, ops: seq<Op>): seq<Word> {
    if ops == [] then []
    else EmittedAll(t, unknown, ops[..|ops| - 1])
         + Emitted(ApplyAll(t, ops[..|ops| - 1]), unknown, ops[|ops| - 1])
  }

  lemma OthersInv(t: seq<Entry>, k: Key)
    requires Inv(t)
    ensures Inv(Others(t, k)) && |Others(t, k)| < MAC_MAX
    ensures forall i :: 0 <= i < |Others(t, k)| ==> Others(t, k)[i].key != k && Others(t, k)[i] in t
  {
    match Find(t, k)
    case Some(i) => DropInv(t, i);
    case None => TailInv(t);
  }

  lemma DropInv(t: seq<Entry>, i: nat)
    requires Inv(t) && i < |t|
    ensures Inv(Drop(t, i))
    ensures forall j :: 0 <= j < |Drop(t, i)| ==> Drop(t, i)[j].key != t[i].key && Drop(t, i)[j] in t
  {
  }

  lemma TailInv(t: seq<Entry>)
    requires Inv(t)
    ensures t != [] ==> Inv(t[1..])
  {
  }

  lemma PushInv(t: seq<Entry>, e: Entry)
    requires Inv(t) && |t| < MAC_MAX && IsValid(e.tag) && !Multicast(e.key.mac)
    requires forall i :: 0 <= i < |t| ==> t[i].key != e.key
    ensures Inv(t + [e])
  {
  }

  lemma LearnInv(t: seq<Entry>, k: Key, port: nat, now: int, newTag: Word)
    requires Inv(t) && IsValid(newTag)
    ensures Inv(LearnTable(t, k, port, now, newTag))
  {
    if !Multicast(k.mac) {
      OthersInv(t, k);
      PushInv(Others(t, k), Learned(t, k, port, now, newTag));
    }
  }

  lemma ApplyInv(t: seq<Entry>, op: Op)
    requires Inv(t) && Legal(op)
    ensures Inv(Apply(t, op))
  {
    match op
    case Learn(k, port, now, newTag) => LearnInv(t, k, port, now, newTag);
    case _ =>
  }

  lemma {:induction false} ApplyAllInv(t: seq<Entry>, ops: seq<Op>)
    requires Inv(t) && forall k :: 0 <= k < |ops| ==> Legal(ops[k])
    ensures Inv(ApplyAll(t, ops))
  {
    if ops != [] {
      ApplyAllInv(t, ops[..|ops| - 1]);
      ApplyInv(ApplyAll(t, ops[..|ops| - 1]), ops[|ops| - 1]);
    }
  }

  // ---------------------------------------------------------------- revalidation

  /** The operation drops the entry for `k` without reporting its tag. */
  predicate SilentlyDrops(t: seq<Entry>, op: Op, k: Key) {
    || op.Flush?
    || (op.Learn? && !Multicast(op.key.mac) && Find(t, op.key).None? && |t| >= MAC_MAX && t[0].key == k)
  }

  lemma ValidSelf(tag: Word)
    requires IsValid(tag)
    ensures Intersects(tag, tag)
  {
  }

  /** What a look-up of `k` gives after the operation, if it does not report `k`. */
  lemma LearnStable(t: seq<Entry>, unknown: Key -> Word, op: Op, k: Key)
    requires Inv(t) && op.Learn? && Legal(op) && IsValid(unknown(k)) && !SilentlyDrops(t, op, k)
    requires !Intersects(LearnTag(t, unknown, op.key, op.port), LookupTag(t, unknown, k))
    ensures LookupPort(Apply(t, op), k) == LookupPort(t, k)
    ensures LookupTag(Apply(t, op), unknown, k) == LookupTag(t, unknown, k)
  {
    if !Multicast(op.key.mac) && !Multicast(k.mac) {
      if op.key == k {
        LearnAgain(t, unknown, op);
      } else {
        LearnOther(t, op, k);
      }
      SameEntrySameAnswer(t, Apply(t, op), unknown, k);
    }
  }

  lemma SameEntrySameAnswer(t: seq<Entry>, t': seq<Entry>, unknown: Key -> Word, k: Key)
    requires Find(t, k).Some? == Find(t', k).Some?
    requires Find(t, k).Some? ==>
      var e, e' := t[Find(t, k).value], t'[Find(t', k).value]; e.port == e'.port && e.tag == e'.tag
    ensures LookupPort(t', k) == LookupPort(t, k) && LookupTag(t', unknown, k) == LookupTag(t, unknown, k)
  {
  }

  /** Learning `k` itself without a reported tag means it was on that port before. */
  lemma LearnAgain(t: seq<Entry>, unknown: Key -> Word, op: Op)
    requires Inv(t) && op.Learn? && IsValid(unknown(op.key)) && !Multicast(op.key.mac)
    requires !Intersects(LearnTag(t, unknown, op.key, op.port), LookupTag(t, unknown, op.key))
    ensures Find(t, op.key).Some? && t[Find(t, op.key).value].port == op.port
    ensures
      var i, t' := Find(t, op.key).value, Apply(t, op);
      Find(t', op.key).Some? && t'[Find(t', op.key).value] == t[i].(expires := op.now + MAC_AGE)
  {
    ValidSelf(LookupTag(t, unknown, op.key));
  }

  /** Where the entry for another key than the one learned goes. */
  function Shifted(t: seq<Entry>, op: Op, i: nat): int
    requires op.Learn? && i < |t|
  {
    match Find(t, op.key)
    case Some(m) => if i < m then i else i - 1
    case None => if |t| < MAC_MAX then i else i - 1
  }

  lemma ShiftedEntry(t: seq<Entry>, op: Op, i: nat)
    requires |t| <= MAC_MAX && op.Learn? && i < |t| && t[i].key != op.key && !Multicast(op.key.mac)
    requires !SilentlyDrops(t, op, t[i].key)
    ensures 0 <= Shifted(t, op, i) < |Apply(t, op)| && Apply(t, op)[Shifted(t, op, i)] == t[i]
  {
  }

  lemma NotLearned(t: seq<Entry>, op: Op, k: Key)
    requires Inv(t) && op.Learn? && op.key != k && Find(t, k).None?
    ensures Find(Apply(t, op), k).None?
  {
    OthersInv(t, op.key);
  }

  /** Learning another key moves entries but keeps the one for `k`. */
  lemma LearnOther(t: seq<Entry>, op: Op, k: Key)
    requires Inv(t) && op.Learn? && Legal(op) && op.key != k && !SilentlyDrops(t, op, k) && !Multicast(op.key.mac)
    ensures Find(t, k).Some? == Find(Apply(t, op), k).Some?
    ensures Find(t, k).Some? ==> Apply(t, op)[Find(Apply(t, op), k).value] == t[Find(t, k).value]
  {
    match Find(t, k)
    case Some(i) =>
      ShiftedEntry(t, op, i);
      ApplyInv(t, op);
      FindUnique(Apply(t, op), k, Shifted(t, op, i));
    case None => NotLearned(t, op, k);
  }

  lemma TagListed(t: seq<Entry>, n: nat, i: nat)
    requires i < n <= |t|
    ensures t[i].tag in EntryTags(t[..n])
  {
    assert EntryTags(t[..n])[i] == t[i].tag;
  }

  lemma RunStable(t: seq<Entry>, unknown: Key -> Word, now: int, k: Key)
    requires Inv(t)
    requires forall g :: g in EntryTags(t[..Expired(t, now)]) ==> !Intersects(g, LookupTag(t, unknown, k))
    ensures LookupPort(Apply(t, Run(now)), k) == LookupPort(t, k)
    ensures LookupTag(Apply(t, Run(now)), unknown, k) == LookupTag(t, unknown, k)
  {
    var n := Expired(t, now);
    match Find(t, k)
    case Some(i) =>
      ValidSelf(t[i].tag);
      if i < n { TagListed(t, n, i); }
      if !Multicast(k.mac) {
        assert t[n..][i - n] == t[i];
        FindUnique(t[n..], k, i - n);
      }
    case None =>
  }

  /** No operation of the history drops `k` silently. */
  predicate NeverDropped(t: seq<Entry>, ops: seq<Op>, k: Key) {
    forall j :: 0 <= j < |ops| ==> !SilentlyDrops(ApplyAll(t, ops[..j]), ops[j], k)
  }

  /** Either some reported tag covers the tag of the look-up, or its answer still stands. */
  lemma {:induction false} StaleOrReported(t: seq<Entry>, unknown: Key -> Word, ops: seq<Op>, k: Key)
    requires Inv(t) && (forall j :: 0 <= j < |ops| ==> Legal(ops[j]))
    requires IsValid(unknown(k)) && NeverDropped(t, ops, k)
    ensures (exists g :: g in EmittedAll(t, unknown, ops) && Intersects(g, LookupTag(t, unknown, k)))
         || (LookupPort(ApplyAll(t, ops), k) == LookupPort(t, k)
             && LookupTag(ApplyAll(t, ops), unknown, k) == LookupTag(t, unknown, k))
  {
    if ops != [] {
      var front, op := ops[..|ops| - 1], ops[|ops| - 1];
      var u := ApplyAll(t, front);
      forall j | 0 <= j < |front| ensures !SilentlyDrops(ApplyAll(t, front[..j]), front[j], k) {
        assert front[..j] == ops[..j];
      }
      StaleOrReported(t, unknown, front, k);
      ApplyAllInv(t, front);
      var tag := LookupTag(t, unknown, k);
      if g :| g in EmittedAll(t, unknown, front) && Intersects(g, tag) {
        assert g in EmittedAll(t, unknown, ops);
      } else if g :| g in Emitted(u, unknown, op) && Intersects(g, tag) {
        assert g in EmittedAll(t, unknown, ops);
      } else {
        assert !SilentlyDrops(u, op, k);
        if op.Learn? {
          assert LearnTag(u, unknown, op.key, op.port) in Emitted(u, unknown, op);
          LearnStable(u, unknown, op, k);
        } else {
          RunStable(u, unknown, op.now, k);
        }
      }
    }
  }

  lemma ValidNotZero(tag: Word)
    requires IsValid(tag)
    ensures tag != 0
  {
  }

  /** Where an address is found once it has been learned. */
  lemma LearnedFound(t: seq<Entry>, op: Op)
    requires Inv(t) && op.Learn? && Legal(op) && !Multicast(op.key.mac)
    ensures
      var t' := Apply(t, op);
      Find(t', op.key) == Some(|t'| - 1) && t'[|t'| - 1] == Learned(t, op.key, op.port, op.now, op.newTag)
  {
    ApplyInv(t, op);
    FindUnique(Apply(t, op), op.key, |Apply(t, op)| - 1);
  }

  /** Learning reports something if and only if it changes the answer for the address learned.
      What it then reports is the tag that flows had from the old answer, and flows get a new
      one from the new answer; otherwise they keep theirs. */
  lemma LearnReportsExactly(t: seq<Entry>, unknown: Key -> Word, op: Op)
    requires Inv(t) && op.Learn? && Legal(op) && IsValid(unknown(op.key))
    ensures
      var t', tag := Apply(t, op), LearnTag(t, unknown, op.key, op.port);
      if LookupPort(t', op.key) == LookupPort(t, op.key)
      then tag == 0 && LookupTag(t', unknown, op.key) == LookupTag(t, unknown, op.key)
      else tag != 0 && tag == LookupTag(t, unknown, op.key) && LookupTag(t', unknown, op.key) == op.newTag
  {
    if !Multicast(op.key.mac) {
      LearnedFound(t, op);
      ValidNotZero(LookupTag(t, unknown, op.key));
    }
  }

  /** An expiry run reports exactly the tags of the entries that go: an address in the table is
      answered by flooding afterwards if and only if its entry is among those whose tags are
      reported, in table order, and none that has not expired is. */
  lemma RunReportsExactly(t: seq<Entry>, unknown: Key -> Word, now: int, i: nat)
    requires Inv(t) && i < |t|
    ensures
      var t', tags := Apply(t, Run(now)), Emitted(t, unknown, Run(now));
      && |tags| + |t'| == |t|
      && (if i < |tags| then tags[i] == t[i].tag && LookupPort(t', t[i].key) == Flood
          else LookupPort(t', t[i].key) == Port(t[i].port))
      && (now < t[i].expires ==> i >= |tags|)
  {
    var n := Expired(t, now);
    var t' := t[n..];
    if i >= n {
      assert t'[i - n] == t[i];
      FindUnique(t', t[i].key, i - n);
    } else {
      assert Find(t', t[i].key).None?;
    }
  }

  /** A group address floods whatever is learned or expires, so no report ever touches flows to it. */
  lemma GroupsNeverChange(t: seq<Entry>, unknown: Key -> Word, ops: seq<Op>, k: Key, g: Word)
    requires Multicast(k.mac)
    ensures LookupPort(ApplyAll(t, ops), k) == Flood
    ensures !Intersects(g, LookupTag(ApplyAll(t, ops), unknown, k))
  {
    assert g & 0 == 0;
  }

  /** Some reported tag covers flows that depend on the answer for `k`. */
  ghost predicate Reported(t: seq<Entry>, unknown: Key -> Word, op: Op, k: Key) {
    exists g :: g in Emitted(t, unknown, op) && Intersects(g, LookupTag(t, unknown, k))
  }

  lemma UnreportedStable(t: seq<Entry>, unknown: Key -> Word, op: Op, k: Key)
    requires Inv(t) && Legal(op) && IsValid(unknown(k)) && !SilentlyDrops(t, op, k)
    requires !Reported(t, unknown, op, k)
    ensures LookupPort(Apply(t, op), k) == LookupPort(t, k)
  {
    if op.Learn? {
      assert LearnTag(t, unknown, op.key, op.port) in Emitted(t, unknown, op);
      LearnStable(t, unknown, op, k);
    } else {
      RunStable(t, unknown, op.now, k);
    }
  }

  /** A silent drop turns the answer for an address in the table into flooding. */
  lemma DropFloods(t: seq<Entry>, op: Op, k: Key)
    requires Inv(t) && SilentlyDrops(t, op, k)
    ensures LookupPort(Apply(t, op), k) == Flood
  {
    if op.Learn? {
      assert Find(Apply(t, op), k).None?;
    }
  }

  /** The one way revalidation misses a change: the address is in the table, and either a
      flush drops it, or the eviction of it reports a tag that has nothing to do with it. */
  lemma MissedExactly(t: seq<Entry>, unknown: Key -> Word, op: Op, k: Key)
    requires Inv(t) && Legal(op) && IsValid(unknown(k))
    ensures
      (LookupPort(Apply(t, op), k) != LookupPort(t, k) && !Reported(t, unknown, op, k))
      <==> (&& Find(t, k).Some? && SilentlyDrops(t, op, k)
            && (op.Learn? ==> !Intersects(unknown(op.key), LookupTag(t, unknown, k))))
  {
    if SilentlyDrops(t, op, k) {
      DropFloods(t, op, k);
      if op.Learn? {
        assert Emitted(t, unknown, op) == [unknown(op.key)];
      }
    } else if !Reported(t, unknown, op, k) {
      UnreportedStable(t, unknown, op, k);
    }
  }

  /** In a full table, learning a new address turns the answer for the address learned
      longest ago from its port into flooding. That is reported only if the tag given to
      unknown addresses of the new one's kind happens to meet the old one's tag. */
  lemma EvictionFloods(t: seq<Entry>, unknown: Key -> Word, op: Op)
    requires Inv(t) && |t| == MAC_MAX && op.Learn? && !Multicast(op.key.mac) && Find(t, op.key).None?
    ensures LookupPort(t, t[0].key) == Port(t[0].port) && LookupPort(Apply(t, op), t[0].key) == Flood
    ensures Reported(t, unknown, op, t[0].key) <==> Intersects(unknown(op.key), t[0].tag)
  {
    FindUnique(t, t[0].key, 0);
    DropFloods(t, op, t[0].key);
    assert LookupTag(t, unknown, t[0].key) == t[0].tag;
    var tags := Emitted(t, unknown, op);
    assert tags == [unknown(op.key)] && tags[0] in tags;
  }

  /** A flush turns every answer into flooding and reports nothing. */
  lemma FlushFloods(t: seq<Entry>, unknown: Key -> Word, i: nat)
    requires Inv(t) && i < |t|
    ensures LookupPort(t, t[i].key) == Port(t[i].port) && LookupPort(Apply(t, Flush), t[i].key) == Flood
    ensures !Reported(t, unknown, Flush, t[i].key)
  {
    FindUnique(t, t[i].key, i);
  }

  /** Learning `n` individual addresses, one after the other. */
  function Fill(n: nat, tag: Word): (ops: seq<Op>)
    ensures |ops| == n
  {
    seq(n, i requires 0 <= i < n => Learn(Key(i, 0), i, 0, tag))
  }

  function FullTable(n: nat, tag: Word): (t: seq<Entry>)
    ensures |t| == n && forall i :: 0 <= i < n ==> t[i] == Entry(Key(i, 0), i, tag, MAC_AGE)
  {
    seq(n, i requires 0 <= i < n => Entry(Key(i, 0), i, tag, MAC_AGE))
  }

  lemma FilledOneMore(n: nat, tag: Word)
    requires n < MAC_MAX
    ensures Apply(FullTable(n, tag), Learn(Key(n, 0), n, 0, tag)) == FullTable(n + 1, tag)
  {
    var k := Key(n, 0);
    assert Find(FullTable(n, tag), k).None?;
    assert FullTable(n + 1, tag) == FullTable(n, tag) + [Entry(k, n, tag, MAC_AGE)];
  }

  lemma {:induction false} Filled(n: nat, tag: Word)
    requires n <= MAC_MAX && IsValid(tag)
    ensures ApplyAll([], Fill(n, tag)) == FullTable(n, tag)
  {
    if n > 0 {
      Filled(n - 1, tag);
      assert Fill(n, tag)[..n - 1] == Fill(n - 1, tag);
      FilledOneMore(n - 1, tag);
    }
  }

  /** Such a table is filled by 1024 addresses; the next one evicts the first, and no tag of
      the first is reported if the tags do not meet. */
  lemma EvictionIsMissed(unknown: Key -> Word, tag: Word)
    requires IsValid(tag) && !Intersects(unknown(Key(MAC_MAX, 0)), tag)
    ensures
      var t, op := ApplyAll([], Fill(MAC_MAX, tag)), Learn(Key(MAC_MAX, 0), 0, 0, tag);
      && LookupPort(t, Key(0, 0)) == Port(0) && LookupPort(Apply(t, op), Key(0, 0)) == Flood
      && !Reported(t, unknown, op, Key(0, 0))
  {
    var t, op := ApplyAll([], Fill(MAC_MAX, tag)), Learn(Key(MAC_MAX, 0), 0, 0, tag);
    FilledInv(MAC_MAX, tag);
    Filled(MAC_MAX, tag);
    EvictionFloods(t, unknown, op);
  }

  lemma FilledInv(n: nat, tag: Word)
    requires IsValid(tag)
    ensures Inv(ApplyAll([], Fill(n, tag)))
  {
    ApplyAllInv([], Fill(n, tag));
  }

  /** Revalidation is sound: if the answer for `k` changes, then any tag set to which all
      tags reported since the look-up were added matches the tag the look-up gave. */
  lemma ChangedAnswerIsReported(t: seq<Entry>, unknown: Key -> Word, ops: seq<Op>, k: Key)
    requires Inv(t) && (forall j :: 0 <= j < |ops| ==> Legal(ops[j]))
    requires IsValid(unknown(k)) && NeverDropped(t, ops, k)
    requires LookupPort(ApplyAll(t, ops), k) != LookupPort(t, k)
    ensures forall s :: WellFormed(s) ==>
              SetIntersects(AddAll(s, EmittedAll(t, unknown, ops)), LookupTag(t, unknown, k))
  {
    StaleOrReported(t, unknown, ops, k);
    var tags := EmittedAll(t, unknown, ops);
    var g :| g in tags && Intersects(g, LookupTag(t, unknown, k));
    var j :| 0 <= j < |tags| && tags[j] == g;
    forall s | WellFormed(s) ensures SetIntersects(AddAll(s, tags), LookupTag(t, unknown, k)) {
      NeverMisses(s, tags, j, LookupTag(t, unknown, k));
    }
  }

  // ---------------------------------------------------------------- least recently learned

  function Keys(t: seq<Entry>): (r: seq<Key>)
    ensures |r| == |t| && forall i :: 0 <= i < |t| ==> r[i] == t[i].key
  {
    seq(|t|, i requires 0 <= i < |t| => t[i].key)
  }

  function Position(ks: seq<Key>, k: Key): (r: Option<nat>)
    ensures r.Some? ==> r.value < |ks| && ks[r.value] == k
    ensures r.None? ==> k !in ks
  {
    if ks == [] then None
    else if ks[|ks| - 1] == k then Some(|ks| - 1) else Position(ks[..|ks| - 1], k)
  }

  function Without(ks: seq<Key>, k: Key): seq<Key> {
    match Position(ks, k)
    case Some(i) => ks[..i] + ks[i + 1..]
    case None => ks
  }

  predicate Differ(ks: seq<Key>, i: nat, j: nat)
    requires i < |ks| && j < |ks|
  {
    ks[i] != ks[j]
  }

  predicate Distinct(ks: seq<Key>) { forall i, j :: 0 <= i < j < |ks| ==> Differ(ks, i, j) }

  lemma MovedDistinct(ks: seq<Key>, k: Key)
    requires Distinct(ks)
    ensures Distinct(Without(ks, k) + [k])
  {
    var ls := Without(ks, k) + [k];
    forall i, j | 0 <= i < j < |ls| ensures Differ(ls, i, j) {
      match Position(ks, k)
      case Some(p) =>
        if j < |ls| - 1 {
          assert Differ(ks, if i < p then i else i + 1, if j < p then j else j + 1);
        } else {
          assert i < p ==> Differ(ks, i, p);
          assert i >= p ==> Differ(ks, p, i + 1);
        }
      case None =>
        if j < |ks| { assert Differ(ks, i, j); }
    }
  }

  /** All individual addresses ever learned, each once, in the order last learned. */
  function Recent(ops: seq<Op>): seq<Key> {
    if ops == [] then [] else RecentAfter(Recent(ops[..|ops| - 1]), ops[|ops| - 1])
  }

  /** The list after one more operation. */
  function RecentAfter(ks: seq<Key>, op: Op): seq<Key> {
    if op.Learn? && !Multicast(op.key.mac) then Without(ks, op.key) + [op.key] else ks
  }

  /** The port on which `k` was last learned. */
  function LastPort(ops: seq<Op>, k: Key): Option<nat> {
    if ops == [] then None
    else
      var op := ops[|ops| - 1];
      if op.Learn? && op.key == k then Some(op.port) else LastPort(ops[..|ops| - 1], k)
  }

  /** Where the last `n` of the keys begin. */
  function Start(ks: seq<Key>, n: nat): (d: nat)
    ensures d <= |ks|
  {
    if |ks| <= n then 0 else |ks| - n
  }

  function Suffix(ks: seq<Key>, n: nat): seq<Key> { ks[Start(ks, n)..] }

  lemma {:induction false} RecentDistinct(ops: seq<Op>)
    ensures Distinct(Recent(ops))
  {
    if ops != [] {
      RecentDistinct(ops[..|ops| - 1]);
      MovedDistinct(Recent(ops[..|ops| - 1]), if ops[|ops| - 1].Learn? then ops[|ops| - 1].key else Key(0, 0));
    }
  }

  lemma CutBehind<T>(s: seq<T>, d: nat, j: nat, x: T)
    requires d <= j < |s|
    ensures (s[..j] + s[j + 1..] + [x])[d..] == s[d..][..j - d] + s[d..][j - d + 1..] + [x]
  {
  }

  lemma CutBefore<T>(s: seq<T>, i: nat, d: nat, x: T)
    requires i < d < |s|
    ensures (s[..i] + s[i + 1..] + [x])[d..] == s[d..][1..] + [x]
  {
  }

  /** Moving one of the last `n` keys to the end. */
  lemma SuffixMoved(ks: seq<Key>, k: Key, n: nat, i: nat)
    requires Distinct(ks) && i < |Suffix(ks, n)| && Suffix(ks, n)[i] == k
    ensures Suffix(Without(ks, k) + [k], n) == Suffix(ks, n)[..i] + Suffix(ks, n)[i + 1..] + [k]
  {
    PositionAt(ks, Start(ks, n) + i);
    CutBehind(ks, Start(ks, n), Start(ks, n) + i, k);
  }

  lemma PositionAt(ks: seq<Key>, i: nat)
    requires Distinct(ks) && i < |ks|
    ensures Position(ks, ks[i]) == Some(i)
  {
    var p := Position(ks, ks[i]).value;
    assert p < i ==> Differ(ks, p, i);
    assert i < p ==> Differ(ks, i, p);
  }

  lemma InSuffix(ks: seq<Key>, n: nat, i: nat)
    requires Start(ks, n) <= i < |ks|
    ensures ks[i] in Suffix(ks, n)
  {
    assert Suffix(ks, n)[i - Start(ks, n)] == ks[i];
  }

  /** A key that is not among the last `n` pushes the first of them out. */
  lemma SuffixPushed(ks: seq<Key>, k: Key, n: nat)
    requires Distinct(ks) && n > 0 && k !in Suffix(ks, n)
    ensures Suffix(Without(ks, k) + [k], n)
            == (if |Suffix(ks, n)| < n then Suffix(ks, n) else Suffix(ks, n)[1..]) + [k]
  {
    match Position(ks, k)
    case Some(i) =>
      var d := |ks| - |Suffix(ks, n)|;
      if i >= d { InSuffix(ks, n, i); }
      CutBefore(ks, i, d, k);
    case None => SuffixAppended(ks, k, n);
  }

  lemma SuffixAppended(ks: seq<Key>, k: Key, n: nat)
    requires n > 0
    ensures Suffix(ks + [k], n) == (if |Suffix(ks, n)| < n then Suffix(ks, n) else Suffix(ks, n)[1..]) + [k]
  {
    if |ks| >= n { CutFront(ks, |ks| - n, k); }
  }

  lemma CutFront<T>(s: seq<T>, d: nat, x: T)
    requires d < |s|
    ensures (s + [x])[d + 1..] == s[d..][1..] + [x]
  {
  }

  lemma KeysCut(t: seq<Entry>, i: nat, e: Entry)
    requires i < |t|
    ensures Keys(t[..i] + t[i + 1..] + [e]) == Keys(t)[..i] + Keys(t)[i + 1..] + [e.key]
  {
  }

  lemma KeysPushed(t: seq<Entry>, e: Entry)
    ensures Keys(t + [e]) == Keys(t) + [e.key]
    ensures t != [] ==> Keys(t[1..] + [e]) == Keys(t)[1..] + [e.key]
  {
  }

  lemma LearnKeys(t: seq<Entry>, op: Op)
    requires op.Learn? && !Multicast(op.key.mac)
    ensures
      var ks, k := Keys(t), op.key;
      Keys(Apply(t, op)) ==
        match Find(t, k)
        case Some(i) => ks[..i] + ks[i + 1..] + [k]
        case None => (if |ks| < MAC_MAX then ks else ks[1..]) + [k]
  {
    var e := Learned(t, op.key, op.port, op.now, op.newTag);
    match Find(t, op.key)
    case Some(i) => KeysCut(t, i, e);
    case None => KeysPushed(t, e);
  }

  /** After learning, the table is still the end of the list of addresses last learned. */
  lemma LearnKeepsSuffix(u: seq<Entry>, op: Op, ks: seq<Key>)
    requires Inv(u) && op.Learn? && !Multicast(op.key.mac) && Distinct(ks)
    requires Keys(u) == Suffix(ks, |u|)
    ensures Keys(Apply(u, op)) == Suffix(Without(ks, op.key) + [op.key], |Apply(u, op)|)
  {
    LearnKeys(u, op);
    var n := |Keys(Apply(u, op))|;
    match Find(u, op.key)
    case Some(i) =>
      assert n == |u|;
      SuffixMoved(ks, op.key, n, i);
    case None =>
      assert op.key !in Keys(u);
      SuffixPushedBy(ks, op.key, |u|, n);
  }

  /** A key that is not among the last `n` comes after all or all but one of them. */
  lemma SuffixPushedBy(ks: seq<Key>, k: Key, n: nat, m: nat)
    requires Distinct(ks) && n <= |ks| && k !in Suffix(ks, n) && m > 0 && (m == n || m == n + 1)
    ensures Suffix(Without(ks, k) + [k], m) == (if m == n + 1 then Suffix(ks, n) else Suffix(ks, n)[1..]) + [k]
  {
    if m == n {
      SuffixPushed(ks, k, n);
    } else {
      match Position(ks, k)
      case Some(i) =>
        if i >= |ks| - n { InSuffix(ks, n, i); }
        CutEarlier(ks, i, |ks| - n, k);
      case None =>
        assert (ks + [k])[|ks| - n..] == ks[|ks| - n..] + [k];
    }
  }

  lemma CutEarlier<T>(s: seq<T>, i: nat, d: nat, x: T)
    requires i < d <= |s|
    ensures (s[..i] + s[i + 1..] + [x])[d - 1..] == s[d..] + [x]
  {
  }

  lemma SuffixOfSuffix(ks: seq<Key>, n: nat, m: nat)
    requires m <= n <= |ks|
    ensures Suffix(ks, n)[n - m..] == Suffix(ks, m)
  {
  }

  lemma DropKeepsSuffix(u: seq<Entry>, n: nat, ks: seq<Key>)
    requires n <= |u| <= |ks| && Keys(u) == Suffix(ks, |u|)
    ensures Keys(u[n..]) == Suffix(ks, |u| - n)
  {
    assert Keys(u[n..]) == Keys(u)[n..];
    SuffixOfSuffix(ks, |u|, |u| - n);
  }

  /** The table holds the end of the list. */
  predicate HoldsEnd(t: seq<Entry>, ks: seq<Key>) { |t| <= |ks| && Keys(t) == Suffix(ks, |t|) }

  lemma ApplyHoldsEnd(u: seq<Entry>, op: Op, ks: seq<Key>)
    requires Inv(u) && Distinct(ks) && HoldsEnd(u, ks)
    ensures HoldsEnd(Apply(u, op), RecentAfter(ks, op))
  {
    if op.Learn? {
      if !Multicast(op.key.mac) {
        LearnKeepsSuffix(u, op, ks);
        LearnGrows(u, op, ks);
      }
    } else if op.Run? {
      DropKeepsSuffix(u, Expired(u, op.now), ks);
    }
  }

  /** Whatever was learned, expired and flushed, the table holds the individual addresses
      learned most recently, in the order in which they were last learned: one that is
      missing was last learned before every one that is there. */
  lemma {:induction false} HoldsMostRecent(ops: seq<Op>)
    requires forall j :: 0 <= j < |ops| ==> Legal(ops[j])
    ensures |ApplyAll([], ops)| <= |Recent(ops)|
    ensures Keys(ApplyAll([], ops)) == Suffix(Recent(ops), |ApplyAll([], ops)|)
  {
    if ops != [] {
      var front := ops[..|ops| - 1];
      HoldsMostRecent(front);
      RecentDistinct(front);
      ApplyAllInv([], front);
      ApplyHoldsEnd(ApplyAll([], front), ops[|ops| - 1], Recent(front));
    }
  }

  lemma LearnGrows(u: seq<Entry>, op: Op, ks: seq<Key>)
    requires op.Learn? && !Multicast(op.key.mac) && Distinct(ks) && |u| <= |ks| && Keys(u) == Suffix(ks, |u|)
    ensures |Apply(u, op)| <= |Without(ks, op.key) + [op.key]|
  {
    match Find(u, op.key)
    case Some(i) =>
    case None =>
      match Position(ks, op.key)
      case Some(i) =>
        if |u| == |ks| {
          assert Keys(u)[i] == op.key;
        }
      case None =>
  }

  /** Event `j` is the last to teach the table the individual address `k`. */
  predicate LearnsLast(ops: seq<Op>, k: Key, j: nat) {
    && j < |ops| && ops[j].Learn? && ops[j].key == k && !Multicast(k.mac)
    && forall i :: j < i < |ops| ==> !(ops[i].Learn? && ops[i].key == k)
  }

  /** The operation neither flushes nor reaches the time at which an entry expires. */
  predicate Spares(op: Op, expires: int) { !op.Flush? && (op.Run? ==> op.now < expires) }

  /** Last learned by event `j`, and spared by all events since. */
  predicate Kept(ops: seq<Op>, k: Key, j: nat) {
    LearnsLast(ops, k, j) && forall i :: j < i < |ops| ==> Spares(ops[i], ops[j].now + MAC_AGE)
  }

  /** Every entry expires a full age after its address was last learned. */
  lemma {:induction false} ExpiresAfterLast(ops: seq<Op>, i: nat) returns (j: nat)
    requires (forall m :: 0 <= m < |ops| ==> Legal(ops[m])) && i < |ApplyAll([], ops)|
    ensures LearnsLast(ops, ApplyAll([], ops)[i].key, j)
    ensures ApplyAll([], ops)[i].expires == ops[j].now + MAC_AGE
  {
    var front, op := ops[..|ops| - 1], ops[|ops| - 1];
    var u := ApplyAll([], front);
    ApplyAllInv([], front);
    var e := EntryFrom(u, op, i);
    if op.Learn? && e.key == op.key {
      j := |front|;
    } else {
      var m :| 0 <= m < |u| && u[m] == e;
      j := ExpiresAfterLast(front, m);
      LastStill(ops, e.key, j);
    }
  }

  /** An entry is the one just learned or was there before. */
  lemma EntryFrom(u: seq<Entry>, op: Op, i: nat) returns (e: Entry)
    requires Inv(u) && i < |Apply(u, op)|
    ensures e == Apply(u, op)[i]
    ensures if op.Learn? && e.key == op.key then e.expires == op.now + MAC_AGE && !Multicast(e.key.mac) else e in u
  {
    e := Apply(u, op)[i];
    if op.Learn? && e.key == op.key {
      LearnedPort(u, op, i);
    } else {
      EntryKept(u, op, i);
    }
  }

  lemma LastStill(ops: seq<Op>, k: Key, j: nat)
    requires ops != [] && LearnsLast(ops[..|ops| - 1], k, j) && !(ops[|ops| - 1].Learn? && ops[|ops| - 1].key == k)
    ensures LearnsLast(ops, k, j) && ops[j] == ops[..|ops| - 1][j]
  {
    var front := ops[..|ops| - 1];
    assert forall i :: 0 <= i < |front| ==> front[i] == ops[i];
  }

  /** One more operation: what it means for the address to be kept. */
  lemma KeptOneMore(ops: seq<Op>, k: Key, j: nat)
    requires ops != [] && j < |ops| - 1
    ensures
      var op := ops[|ops| - 1];
      Kept(ops, k, j) <==>
        (&& Kept(ops[..|ops| - 1], k, j) && !(op.Learn? && op.key == k)
         && Spares(op, ops[j].now + MAC_AGE))
  {
    var front := ops[..|ops| - 1];
    assert forall i :: 0 <= i < |front| ==> front[i] == ops[i];
  }

  /** Learning another address leaves the last `n` with nothing they did not have. */
  lemma SuffixKeeps(ks: seq<Key>, k: Key, other: Key, n: nat)
    requires Distinct(ks) && n > 0 && k != other && k in Suffix(Without(ks, other) + [other], n)
    ensures k in Suffix(ks, n)
  {
    if other in Suffix(ks, n) {
      var i :| 0 <= i < |Suffix(ks, n)| && Suffix(ks, n)[i] == other;
      SuffixMoved(ks, other, n, i);
    } else {
      SuffixPushed(ks, other, n);
    }
  }

  lemma SuffixGrows(ks: seq<Key>, k: Key, m: nat, n: nat)
    requires m <= n && k in Suffix(ks, m)
    ensures k in Suffix(ks, n)
  {
    var i :| 0 <= i < |Suffix(ks, m)| && Suffix(ks, m)[i] == k;
    InSuffix(ks, n, |ks| - |Suffix(ks, m)| + i);
  }

  predicate Holds(t: seq<Entry>, k: Key) { k in Keys(t) }

  /** An address the table holds when another is learned stays if and only if it is still
      among the last 1024 learned. */
  lemma LearnDropsOldest(u: seq<Entry>, op: Op, ks: seq<Key>, k: Key)
    requires op.Learn? && op.key != k && Holds(u, k) && |u| <= MAC_MAX
    requires |Apply(u, op)| <= MAC_MAX && Keys(Apply(u, op)) == Suffix(ks, |Apply(u, op)|)
    ensures Holds(Apply(u, op), k) <==> k in Suffix(ks, MAC_MAX)
  {
    var t := Apply(u, op);
    if Holds(t, k) {
      SuffixGrows(ks, k, |t|, MAC_MAX);
    } else if |t| < MAC_MAX {
      var i :| 0 <= i < |u| && Keys(u)[i] == k;
      StaysUnlessFull(u, op, i);
    }
  }

  lemma StaysUnlessFull(u: seq<Entry>, op: Op, i: nat)
    requires |u| <= MAC_MAX && op.Learn? && i < |u| && op.key != u[i].key && |Apply(u, op)| < MAC_MAX
    ensures Holds(Apply(u, op), u[i].key)
  {
    if Multicast(op.key.mac) {
      assert Keys(u)[i] == u[i].key;
    } else {
      ShiftedEntry(u, op, i);
      assert Keys(Apply(u, op))[Shifted(u, op, i)] == u[i].key;
    }
  }

  /** Every entry names the port on which its address was last learned. */
  lemma {:induction false} PortsAreLatest(ops: seq<Op>)
    requires forall j :: 0 <= j < |ops| ==> Legal(ops[j])
    ensures forall i :: 0 <= i < |ApplyAll([], ops)| ==>
              var e := ApplyAll([], ops)[i]; LastPort(ops, e.key) == Some(e.port)
  {
    if ops != [] {
      var front, op := ops[..|ops| - 1], ops[|ops| - 1];
      PortsAreLatest(front);
      ApplyAllInv([], front);
      ApplyInv(ApplyAll([], front), op);
      var u, t := ApplyAll([], front), ApplyAll([], ops);
      forall i | 0 <= i < |t| ensures LastPort(ops, t[i].key) == Some(t[i].port) {
        if op.Learn? && t[i].key == op.key {
          LearnedPort(u, op, i);
        } else {
          EntryKept(u, op, i);
        }
      }
    }
  }

  lemma LearnedPort(t: seq<Entry>, op: Op, i: nat)
    requires Inv(t) && op.Learn? && i < |Apply(t, op)| && Apply(t, op)[i].key == op.key
    ensures Apply(t, op)[i].port == op.port && Apply(t, op)[i].expires == op.now + MAC_AGE
    ensures !Multicast(op.key.mac)
  {
  }

  lemma EntryKept(t: seq<Entry>, op: Op, i: nat)
    requires Inv(t) && i < |Apply(t, op)| && !(op.Learn? && Apply(t, op)[i].key == op.key)
    ensures Apply(t, op)[i] in t
  {
  }

  // ---------------------------------------------------------------- expiry

  /** Entries expire in table order, none later than a full age from `now`. */
  predicate Timely(t: seq<Entry>, now: int) {
    && (forall i, j :: 0 <= i < j < |t| ==> t[i].expires <= t[j].expires)
    && (forall i :: 0 <= i < |t| ==> t[i].expires <= now + MAC_AGE)
  }

  /** The times of the operations do not decrease, and none is later than `now`. */
  predicate Clocked(ops: seq<Op>, now: int) {
    ops == []
    || (var front, op := ops[..|ops| - 1], ops[|ops| - 1];
        if op.Flush? then Clocked(front, now) else op.now <= now && Clocked(front, op.now))
  }

  lemma PushTimely(t: seq<Entry>, e: Entry, before: int, now: int)
    requires Timely(t, before) && before <= now && e.expires == now + MAC_AGE
    ensures Timely(t + [e], now)
  {
  }

  lemma PartTimely(t: seq<Entry>, now: int)
    requires Timely(t, now)
    ensures forall i :: 0 <= i < |t| ==> Timely(Drop(t, i), now)
    ensures forall i :: 0 <= i <= |t| ==> Timely(t[i..], now)
  {
  }

  lemma ApplyTimely(t: seq<Entry>, op: Op, before: int, now: int)
    requires Timely(t, before) && before <= now && (!op.Flush? ==> before <= op.now <= now)
    ensures Timely(Apply(t, op), now)
  {
    PartTimely(t, before);
    if op.Learn? && !Multicast(op.key.mac) {
      PushTimely(Others(t, op.key), Learned(t, op.key, op.port, op.now, op.newTag), before, op.now);
    }
  }

  lemma {:induction false} HistoryTimely(ops: seq<Op>, now: int)
    requires Clocked(ops, now)
    ensures Timely(ApplyAll([], ops), now)
  {
    if ops != [] {
      var front, op := ops[..|ops| - 1], ops[|ops| - 1];
      var before := if op.Flush? then now else op.now;
      HistoryTimely(front, before);
      ApplyTimely(ApplyAll([], front), op, before, now);
    }
  }

  function Live(t: seq<Entry>, now: int): seq<Entry> {
    if t == [] then []
    else if t[0].expires > now then [t[0]] + Live(t[1..], now) else Live(t[1..], now)
  }

  lemma {:induction false} LiveAll(t: seq<Entry>, now: int)
    requires forall i :: 0 <= i < |t| ==> t[i].expires > now
    ensures Live(t, now) == t
  {
    if t != [] { LiveAll(t[1..], now); }
  }

  lemma {:induction false} ExpiredFrontOnly(t: seq<Entry>, now: int)
    requires forall i, j :: 0 <= i < j < |t| ==> t[i].expires <= t[j].expires
    ensures t[Expired(t, now)..] == Live(t, now)
  {
    if t != [] {
      if t[0].expires > now { LiveAll(t, now); } else { ExpiredFrontOnly(t[1..], now); }
    }
  }

  /** With a clock that does not run backwards, expiry keeps exactly the live entries. */
  lemma RunKeepsLive(ops: seq<Op>, now: int)
    requires Clocked(ops, now)
    ensures Apply(ApplyAll([], ops), Run(now)) == Live(ApplyAll([], ops), now)
  {
    HistoryTimely(ops, now);
    ExpiredFrontOnly(ApplyAll([], ops), now);
  }

  // ---------------------------------------------------------------- which addresses are held

  /** An expiry run takes away exactly the addresses last learned a full age ago or more. */
  lemma RunDropsExpired(ops: seq<Op>, now: int, k: Key, j: nat)
    requires Clocked(ops, now) && (forall m :: 0 <= m < |ops| ==> Legal(ops[m]))
    requires Holds(ApplyAll([], ops), k) && LearnsLast(ops, k, j)
    ensures Holds(Apply(ApplyAll([], ops), Run(now)), k) <==> now < ops[j].now + MAC_AGE
  {
    var t := ApplyAll([], ops);
    HistoryTimely(ops, now);
    ApplyAllInv([], ops);
    var i :| 0 <= i < |t| && Keys(t)[i] == k;
    var last := ExpiresAfterLast(ops, i);
    assert last == j;
    ExpiryExact(t, now, i);
  }

  lemma ExpiryExact(t: seq<Entry>, now: int, i: nat)
    requires Timely(t, now) && Inv(t) && i < |t|
    ensures Holds(t[Expired(t, now)..], t[i].key) <==> now < t[i].expires
  {
    var n := Expired(t, now);
    if now < t[i].expires {
      assert Keys(t[n..])[i - n] == t[i].key;
    }
  }

  ghost predicate Unexpired(ops: seq<Op>, k: Key) { exists j: nat :: Kept(ops, k, j) }

  ghost predicate HeldExactly(ops: seq<Op>, k: Key) {
    Holds(ApplyAll([], ops), k) <==> k in Suffix(Recent(ops), MAC_MAX) && Unexpired(ops, k)
  }

  lemma UnexpiredBefore(ops: seq<Op>, k: Key)
    requires ops != [] && Unexpired(ops, k) && !(ops[|ops| - 1].Learn? && ops[|ops| - 1].key == k)
    ensures Unexpired(ops[..|ops| - 1], k)
  {
    var j: nat :| Kept(ops, k, j);
    KeptOneMore(ops, k, j);
  }

  lemma HeldAfterLearn(ops: seq<Op>, k: Key)
    requires ops != [] && (forall m :: 0 <= m < |ops| ==> Legal(ops[m])) && !Multicast(k.mac)
    requires ops[|ops| - 1].Learn? && HeldExactly(ops[..|ops| - 1], k)
    ensures HeldExactly(ops, k)
  {
    var front, op := ops[..|ops| - 1], ops[|ops| - 1];
    if op.key == k {
      LearnedIsHeld(ApplyAll([], front), op, Recent(front));
      LearnedIsUnexpired(ops);
    } else if Holds(ApplyAll([], front), k) {
      UnexpiredStill(ops, k);
      HeldInRecent(ops, k);
    } else {
      NotHeldBefore(ops, k);
    }
  }

  lemma LearnedIsUnexpired(ops: seq<Op>)
    requires ops != [] && ops[|ops| - 1].Learn? && !Multicast(ops[|ops| - 1].key.mac)
    ensures Unexpired(ops, ops[|ops| - 1].key)
  {
    assert Kept(ops, ops[|ops| - 1].key, |ops| - 1);
  }

  lemma UnexpiredStill(ops: seq<Op>, k: Key)
    requires ops != [] && ops[|ops| - 1].Learn? && ops[|ops| - 1].key != k && Unexpired(ops[..|ops| - 1], k)
    ensures Unexpired(ops, k)
  {
    var j: nat :| Kept(ops[..|ops| - 1], k, j);
    KeptOneMore(ops, k, j);
  }

  lemma HeldInRecent(ops: seq<Op>, k: Key)
    requires ops != [] && (forall m :: 0 <= m < |ops| ==> Legal(ops[m]))
    requires ops[|ops| - 1].Learn? && ops[|ops| - 1].key != k && Holds(ApplyAll([], ops[..|ops| - 1]), k)
    ensures Holds(ApplyAll([], ops), k) <==> k in Suffix(Recent(ops), MAC_MAX)
  {
    ApplyAllInv([], ops[..|ops| - 1]);
    ApplyAllInv([], ops);
    HoldsMostRecent(ops);
    LearnDropsOldest(ApplyAll([], ops[..|ops| - 1]), ops[|ops| - 1], Recent(ops), k);
  }

  lemma NotHeldBefore(ops: seq<Op>, k: Key)
    requires ops != [] && (forall m :: 0 <= m < |ops| ==> Legal(ops[m]))
    requires
      var front, op := ops[..|ops| - 1], ops[|ops| - 1];
      op.Learn? && op.key != k && !Holds(ApplyAll([], front), k) && HeldExactly(front, k)
    ensures HeldExactly(ops, k)
  {
    var front, op := ops[..|ops| - 1], ops[|ops| - 1];
    ApplyAllInv([], front);
    if Holds(ApplyAll([], ops), k) {
      WasHeld(ApplyAll([], front), op, k);
    }
    if Unexpired(ops, k) && k in Suffix(Recent(ops), MAC_MAX) {
      UnexpiredBefore(ops, k);
      RecentDistinct(front);
      if !Multicast(op.key.mac) {
        SuffixKeeps(Recent(front), k, op.key, MAC_MAX);
      }
    }
  }

  lemma LearnedIsHeld(u: seq<Entry>, op: Op, ks: seq<Key>)
    requires op.Learn? && !Multicast(op.key.mac)
    ensures Holds(Apply(u, op), op.key) && op.key in Suffix(Without(ks, op.key) + [op.key], MAC_MAX)
  {
    var t, ls := Apply(u, op), Without(ks, op.key) + [op.key];
    assert Keys(t)[|t| - 1] == op.key;
    InSuffix(ls, MAC_MAX, |ls| - 1);
  }

  lemma WasHeld(u: seq<Entry>, op: Op, k: Key)
    requires Inv(u) && op.Learn? && op.key != k && Holds(Apply(u, op), k)
    ensures Holds(u, k)
  {
    var t := Apply(u, op);
    var i :| 0 <= i < |t| && Keys(t)[i] == k;
    EntryKept(u, op, i);
    var m :| 0 <= m < |u| && u[m] == t[i];
    assert Keys(u)[m] == k;
  }

  lemma HeldAfterRun(ops: seq<Op>, now: int, k: Key)
    requires ops != [] && Clocked(ops, now) && (forall m :: 0 <= m < |ops| ==> Legal(ops[m]))
    requires ops[|ops| - 1].Run? && HeldExactly(ops[..|ops| - 1], k)
    ensures HeldExactly(ops, k)
  {
    var front, op := ops[..|ops| - 1], ops[|ops| - 1];
    if Unexpired(ops, k) {
      UnexpiredBefore(ops, k);
    }
    if Holds(ApplyAll([], front), k) {
      var j: nat :| Kept(front, k, j);
      RunDropsExpired(front, op.now, k, j);
      UnexpiredAfterRun(ops, k, j);
    } else {
      RunAddsNothing(ApplyAll([], front), op.now, k);
    }
  }

  lemma UnexpiredAfterRun(ops: seq<Op>, k: Key, j: nat)
    requires ops != [] && ops[|ops| - 1].Run? && Kept(ops[..|ops| - 1], k, j)
    ensures Unexpired(ops, k) <==> ops[|ops| - 1].now < ops[..|ops| - 1][j].now + MAC_AGE
  {
    KeptOneMore(ops, k, j);
    if Unexpired(ops, k) {
      var i: nat :| Kept(ops, k, i);
      KeptOneMore(ops, k, i);
      assert i == j;
    }
  }

  lemma RunAddsNothing(u: seq<Entry>, now: int, k: Key)
    requires !Holds(u, k)
    ensures !Holds(Apply(u, Run(now)), k)
  {
    var n := Expired(u, now);
    assert Keys(u[n..]) == Keys(u)[n..];
  }

  lemma FlushedIsExpired(ops: seq<Op>, k: Key)
    requires ops != [] && ops[|ops| - 1].Flush?
    ensures !Unexpired(ops, k)
  {
    if Unexpired(ops, k) {
      var j: nat :| Kept(ops, k, j);
      KeptOneMore(ops, k, j);
    }
  }

  /** With a clock that does not run backwards, the table holds an address if and only if it
      is among the last 1024 learned and, since it was last learned, there was no flush and
      no expiry run at or after the time it expires. */
  lemma {:induction false} HeldIfAndOnlyIf(ops: seq<Op>, now: int, k: Key)
    requires Clocked(ops, now) && (forall m :: 0 <= m < |ops| ==> Legal(ops[m]))
    ensures Holds(ApplyAll([], ops), k) <==> k in Suffix(Recent(ops), MAC_MAX) && Unexpired(ops, k)
  {
    ApplyAllInv([], ops);
    if ops != [] && !Multicast(k.mac) {
      var front, op := ops[..|ops| - 1], ops[|ops| - 1];
      HeldIfAndOnlyIf(front, if op.Flush? then now else op.now, k);
      match op
      case Learn(_, _, _, _) => HeldAfterLearn(ops, k);
      case Run(_) => HeldAfterRun(ops, now, k);
      case Flush => FlushedIsExpired(ops, k);
    }
  }
}

/** The chained hash table of `hmap.h` and `hmap.c`. */
module Hmap {
  import opened Bits
  import opened HmapMask

  class Node {
    var hash: nat
    var next: Node?
  }

  predicate Distinct<T(==)>(c: seq<T>) { forall i, j :: 0 <= i < j < |c| ==> c[i] != c[j] }

  lemma WithoutOne<T>(c: seq<T>, k: nat)
    requires Distinct(c) && k < |c|
    ensures var d := c[..k] + c[k + 1..];
      Distinct(d) && forall x :: x in d <==> x in c && x != c[k]
  {
    var d := c[..k] + c[k + 1..];
    forall x | x in c && x != c[k] ensures x in d {
      var j :| 0 <= j < |c| && c[j] == x;
      assert x == d[if j < k then j else j - 1];
    }
  }

  /** `c` without `x`. */
  function Without<T(==)>(c: seq<T>, x: T): seq<T> {
    if c == [] then [] else if c[0] == x then c[1..] else [c[0]] + Without(c[1..], x)
  }

  lemma {:induction false} WithoutAt<T>(c: seq<T>, k: nat)
    requires Distinct(c) && k < |c|
    ensures Without(c, c[k]) == c[..k] + c[k + 1..]
  {
    if k > 0 {
      var t := c[1..];
      assert t[k - 1] == c[k];
      WithoutAt(t, k - 1);
      assert [c[0]] + (t[..k - 1] + t[k..]) == c[..k] + c[k + 1..];
    }
  }

  ghost function Elems<T>(c: seq<T>): set<T> { set x | x in c }

  /** The first `n` chains, one after another. */
  function Flat<T>(cs: seq<seq<T>>, n: nat): seq<T>
    requires n <= |cs|
  {
    if n == 0 then [] else Flat(cs, n - 1) + cs[n - 1]
  }

  predicate Apart<T(==)>(cs: seq<seq<T>>) {
    && (forall i :: 0 <= i < |cs| ==> Distinct(cs[i]))
    && forall i, j, x :: 0 <= i < j < |cs| && x in cs[i] ==> x !in cs[j]
  }

  lemma {:induction false} InFlat<T>(cs: seq<seq<T>>, n: nat, x: T)
    requires n <= |cs|
    ensures x in Flat(cs, n) <==> exists i :: 0 <= i < n && x in cs[i]
  {
    if n > 0 { InFlat(cs, n - 1, x); }
  }

  lemma JoinDistinct<T>(a: seq<T>, b: seq<T>)
    requires Distinct(a) && Distinct(b) && forall x :: x in a ==> x !in b
    ensures Distinct(a + b)
  {
    forall i, j | 0 <= i < j < |a + b| ensures (a + b)[i] != (a + b)[j] {
      if i < |a| <= j { assert a[i] in a && b[j - |a|] in b; }
    }
  }

  lemma {:induction false} FlatDistinct<T>(cs: seq<seq<T>>, n: nat)
    requires n <= |cs| && Apart(cs)
    ensures Distinct(Flat(cs, n))
  {
    if n > 0 {
      FlatDistinct(cs, n - 1);
      var front := Flat(cs, n - 1);
      forall x | x in front ensures x !in cs[n - 1] { InFlat(cs, n - 1, x); }
      JoinDistinct(Flat(cs, n - 1), cs[n - 1]);
    }
  }

  /** The node about to be visited has not been visited before. */
  lemma NextIsNew<T>(cs: seq<seq<T>>, i: nat, j: nat)
    requires Apart(cs) && i < |cs| && j < |cs[i]|
    ensures cs[i][j] !in Flat(cs, i) + cs[i][..j]
    ensures Flat(cs, i) + cs[i][..j + 1] == Flat(cs, i) + cs[i][..j] + [cs[i][j]]
  {
    InFlat(cs, i, cs[i][j]);
    assert cs[i][..j + 1] == cs[i][..j] + [cs[i][j]];
  }

  lemma WithoutMiddle<T>(pre: seq<T>, c: seq<T>, j: nat)
    requires j < |c| && Distinct(pre + c[j..])
    ensures Without(pre + c[j..], c[j]) == pre + c[j + 1..]
    ensures pre + c[j..] == (pre + [c[j]]) + c[j + 1..]
  {
    var d := pre + c[j..];
    WithoutAt(d, |pre|);
    assert d[..|pre|] == pre && d[|pre| + 1..] == c[j + 1..];
  }

  lemma {:induction false} FlatSkip<T>(cs: seq<seq<T>>, i: nat, k: nat)
    requires i <= k <= |cs| && forall m :: i <= m < k ==> cs[m] == []
    ensures Flat(cs, k) == Flat(cs, i)
    decreases k
  {
    if i < k { FlatSkip(cs, i, k - 1); }
  }

  /** `c` lists the nodes from `head` on. */
  ghost predicate Chain(head: Node?, c: seq<Node>)
    reads c`next
  {
    && head == (if c == [] then null else c[0])
    && forall j :: 0 <= j < |c| ==> Linked(c, j)
  }

  ghost predicate Linked(c: seq<Node>, j: nat)
    requires j < |c|
    reads c`next
  {
    c[j].next == if j + 1 < |c| then c[j + 1] else null
  }

  predicate Home(sl: map<Node, nat>, i: nat, x: Node) { x in sl && sl[x] == i }

  predicate InChain(cs: seq<seq<Node>>, i: nat, x: Node) { i < |cs| && x in cs[i] }

  /** Chain `i` holds exactly the nodes whose slot is `i`, once each. */
  ghost predicate Placed(cs: seq<seq<Node>>, sl: map<Node, nat>) {
    && (forall i, x {:trigger Home(sl, i, x)} :: 0 <= i < |cs| && x in cs[i] ==> Home(sl, i, x))
    && (forall i {:trigger Distinct(cs[i])} :: 0 <= i < |cs| ==> Distinct(cs[i]))
    && forall x {:trigger InChain(cs, sl[x], x)} :: x in sl ==> InChain(cs, sl[x], x)
  }

  lemma PlacedWith(cs: seq<seq<Node>>, sl: map<Node, nat>, x: Node, i: nat)
    requires Placed(cs, sl) && x !in sl && i < |cs|
    ensures Placed(cs[i := [x] + cs[i]], sl[x := i])
  {
    var ds, dl := cs[i := [x] + cs[i]], sl[x := i];
    assert !Home(sl, i, x);
    assert Distinct(cs[i]);
    forall k, y | 0 <= k < |ds| && y in ds[k] ensures Home(dl, k, y) { assert y in cs[k] ==> Home(sl, k, y); }
    forall k | 0 <= k < |ds| ensures Distinct(ds[k]) { assert Distinct(cs[k]); }
    forall y | y in dl ensures InChain(ds, dl[y], y) { if y != x { assert InChain(cs, sl[y], y); } }
  }

  lemma PlacedWithout(cs: seq<seq<Node>>, sl: map<Node, nat>, x: Node)
    requires Placed(cs, sl) && x in sl
    ensures sl[x] < |cs| && Placed(cs[sl[x] := Without(cs[sl[x]], x)], sl - {x})
  {
    assert InChain(cs, sl[x], x);
    var i, c := sl[x], cs[sl[x]];
    var ds, dl := cs[i := Without(c, x)], sl - {x};
    assert Distinct(c);
    var k :| 0 <= k < |c| && c[k] == x;
    WithoutOne(c, k);
    WithoutAt(c, k);
    forall k, y | 0 <= k < |ds| && y in ds[k] ensures Home(dl, k, y) { assert Home(sl, k, y); }
    forall k | 0 <= k < |ds| ensures Distinct(ds[k]) { assert Distinct(cs[k]); }
    forall y | y in dl ensures InChain(ds, dl[y], y) { assert InChain(cs, sl[y], y); }
  }

  lemma PlacedApart(cs: seq<seq<Node>>, sl: map<Node, nat>)
    requires Placed(cs, sl)
    ensures Apart(cs)
  {
    forall i | 0 <= i < |cs| ensures Distinct(cs[i]) { }
    forall i, j, x | 0 <= i < j < |cs| && x in cs[i] ensures x !in cs[j] {
      assert Home(sl, i, x) && !Home(sl, j, x);
    }
  }

  /** Going through the chains is going through the nodes. */
  lemma FlatIsAll(cs: seq<seq<Node>>, sl: map<Node, nat>, x: Node)
    requires Placed(cs, sl)
    ensures x in Flat(cs, |cs|) <==> x in sl
  {
    InFlat(cs, |cs|, x);
    if x in sl { assert InChain(cs, sl[x], x); }
    forall i | 0 <= i < |cs| && x in cs[i] ensures x in sl { assert Home(sl, i, x); }
  }

  /** Of the set `s`, `left` are those that have not been both visited and dropped. */
  ghost predicate Dropped(s: set<Node>, drop: set<Node>, visited: seq<Node>, left: set<Node>) {
    left <= s && forall x :: x in s ==> (x in left <==> !(x in drop && x in visited))
  }

  lemma DropNext(s: set<Node>, drop: set<Node>, visited: seq<Node>, left: set<Node>, node: Node)
    requires Dropped(s, drop, visited, left)
    ensures Dropped(s, drop, visited + [node], if node in drop then left - {node} else left)
  {
  }

  lemma AllVisited(cs: seq<seq<Node>>, sl: map<Node, nat>, drop: set<Node>, visited: seq<Node>, left: set<Node>)
    requires Placed(cs, sl) && visited == Flat(cs, |cs|) && Dropped(sl.Keys, drop, visited, left)
    ensures Distinct(visited) && left == sl.Keys - drop && forall x :: x in visited <==> x in sl
  {
    PlacedApart(cs, sl);
    FlatDistinct(cs, |cs|);
    forall x ensures x in visited <==> x in sl { FlatIsAll(cs, sl, x); }
  }

  class Hmap {
    var buckets: array<Node?>
    var n: nat
    ghost var chains: seq<seq<Node>>
    ghost var slot: map<Node, nat>

    function Mask(): int
      reads this`buckets
    {
      buckets.Length - 1
    }

    ghost predicate MasksTo(x: Node, i: nat)
      requires Mask() >= 0
      reads this`buckets, x`hash
    {
      And(x.hash, Mask()) == i
    }

    /** Every node is in the slot its masked hash names. */
    ghost predicate HashedBy(sl: map<Node, nat>)
      requires Mask() >= 0
      reads this`buckets, sl.Keys`hash
    {
      forall x {:trigger MasksTo(x, sl[x])} :: x in sl ==> MasksTo(x, sl[x])
    }

    /** Bucket `i` links up the nodes of chain `i`. */
    ghost predicate LinkAt(cs: seq<seq<Node>>, sl: map<Node, nat>, i: nat)
      requires i < |cs| == buckets.Length
      reads this`buckets, buckets, sl.Keys`next
    {
      (forall x :: x in cs[i] ==> x in sl) && Chain(buckets[i], cs[i])
    }

    /** The buckets link up the chains `cs`, which hold the nodes of `sl`. */
    ghost predicate Links(cs: seq<seq<Node>>, sl: map<Node, nat>)
      reads this`buckets, buckets, sl.Keys`next
    {
      && |cs| == buckets.Length && Placed(cs, sl)
      && forall i {:trigger LinkAt(cs, sl, i)} :: 0 <= i < |cs| ==> LinkAt(cs, sl, i)
    }

    ghost predicate Valid()
      reads this, buckets, slot.Keys
    {
      buckets.Length >= 1 && IsMask(Mask()) && n == |slot| && HashedBy(slot) && Links(chains, slot)
    }

    constructor ()
      ensures Valid() && slot == map[] && Mask() == 0 && fresh(buckets)
    {
      buckets := new Node?[1](_ => null);
      n, chains, slot := 0, [[]], map[];
      new;
      assert Pow2(0) == 1;
    }

    /** Puts `node` at the front of bucket `i`, whose nodes are `c`. */
    method Push(i: nat, node: Node, hash: nat, ghost c: seq<Node>)
      requires i < buckets.Length && Chain(buckets[i], c) && node !in c
      modifies buckets, node
      ensures buckets[..] == old(buckets[..])[i := node] && node.hash == hash && Chain(node, [node] + c)
    {
      node.hash := hash;
      node.next := buckets[i];
      buckets[i] := node;
      forall j | 0 <= j < |c| + 1 ensures Linked([node] + c, j) {
        if j > 0 { assert old(Linked(c, j - 1)); }
      }
    }

    /** Puts `node` into bucket `i` and leaves the other buckets as they were. */
    method PushOnly(i: nat, node: Node, hash: nat, ghost cs: seq<seq<Node>>, ghost sl: map<Node, nat>)
      requires Links(cs, sl) && i < |cs| && node !in sl
      modifies buckets, node
      ensures Links(cs[i := [node] + cs[i]], sl[node := i]) && node.hash == hash
    {
      ghost var c, ds, dl := cs[i], cs[i := [node] + cs[i]], sl[node := i];
      assert LinkAt(cs, sl, i) && !Home(sl, i, node);
      PlacedWith(cs, sl, node, i);
      Push(i, node, hash, c);
      forall k | 0 <= k < |ds| ensures LinkAt(ds, dl, k) {
        assert old(LinkAt(cs, sl, k)) && !Home(sl, k, node);
        assert buckets[k] == buckets[..][k];
        if k != i {
          forall j | 0 <= j < |cs[k]| ensures Linked(cs[k], j) { assert old(Linked(cs[k], j)); }
        }
      }
    }

    /** Records that the buckets now hold `dl`. */
    method Count(count: nat, ghost ds: seq<seq<Node>>, ghost dl: map<Node, nat>)
      requires Mask() >= 0 && IsMask(Mask()) && count == |dl| && HashedBy(dl) && Links(ds, dl)
      modifies this`n, this`chains, this`slot
      ensures Valid() && n == count && chains == ds && slot == dl
    {
      n := count;
      chains, slot := ds, dl;
    }

    /** `hmap_insert_fast`. */
    method InsertFast(node: Node, hash: nat)
      requires Valid() && node !in slot
      modifies this`n, this`chains, this`slot, buckets, node
      ensures Valid() && slot == old(slot)[node := And(hash, Mask())] && node.hash == hash
    {
      var i := And(hash, Mask());
      ghost var cs, sl := chains, slot;
      ghost var ds, dl := cs[i := [node] + cs[i]], sl[node := i];
      PushOnly(i, node, hash, cs, sl);
      assert HashedBy(dl);
      Count(n + 1, ds, dl);
    }

    /** Takes node `k` out of bucket `i`, whose nodes are `c`. */
    method Unlink(i: nat, node: Node, ghost c: seq<Node>, ghost k: nat)
      requires i < buckets.Length && Chain(buckets[i], c) && Distinct(c) && k < |c| && c[k] == node
      modifies buckets, c`next
      ensures Chain(buckets[i], c[..k] + c[k + 1..])
      ensures forall j :: 0 <= j < buckets.Length && j != i ==> buckets[j] == old(buckets[j])
      ensures node.next == old(node.next)
    {
      assert Linked(c, k);
      ghost var d := c[..k] + c[k + 1..];
      if buckets[i] == node {
        buckets[i] := node.next;
        assert k == 0;
      } else {
        var p := buckets[i];
        ghost var j := 0;
        while p.next != node
          invariant 0 <= j < k && p == c[j]
          decreases k - j
        {
          assert Linked(c, j);
          p, j := p.next, j + 1;
        }
        assert Linked(c, j) && j == k - 1;
        p.next := node.next;
      }
      forall j | 0 <= j < |d| ensures Linked(d, j) {
        if j < k { assert old(Linked(c, j)); } else { assert old(Linked(c, j + 1)); }
      }
    }

    /** Takes `node` out of its bucket and leaves the other buckets linked as they were. */
    method UnlinkOnly(i: nat, node: Node, ghost cs: seq<seq<Node>>, ghost sl: map<Node, nat>)
      requires Links(cs, sl) && Home(sl, i, node) && i < |cs| && Mask() >= 0 && HashedBy(sl)
      modifies buckets, sl.Keys`next
      ensures Links(cs[i := Without(cs[i], node)], sl - {node}) && node.next == old(node.next)
      ensures HashedBy(sl - {node})
    {
      ghost var c := cs[i];
      ghost var ds, dl := cs[i := Without(c, node)], sl - {node};
      assert InChain(cs, sl[node], node) && Distinct(c) && LinkAt(cs, sl, i);
      ghost var k :| 0 <= k < |c| && c[k] == node;
      WithoutAt(c, k);
      WithoutOne(c, k);
      PlacedWithout(cs, sl, node);
      forall x | x in dl ensures MasksTo(x, dl[x]) { assert MasksTo(x, sl[x]); }
      Unlink(i, node, c, k);
      forall m | 0 <= m < |ds| ensures LinkAt(ds, dl, m) {
        assert old(LinkAt(cs, sl, m));
        forall x | x in ds[m] ensures x in dl { assert Home(sl, m, x); }
        if m != i {
          forall j | 0 <= j < |cs[m]| ensures Linked(cs[m], j) {
            assert old(Linked(cs[m], j)) && Home(sl, m, cs[m][j]) && !Home(sl, i, cs[m][j]);
          }
        }
      }
    }

    /** Takes `node` out of bucket `i`, where it is. */
    method RemoveFrom(i: nat, node: Node)
      requires Valid() && Home(slot, i, node) && i < |chains|
      modifies this`n, this`chains, this`slot, buckets, slot.Keys`next
      ensures Valid() && slot == old(slot) - {node} && node.next == old(node.next)
      ensures chains == old(chains)[i := Without(old(chains[i]), node)]
    {
      ghost var cs, sl := chains, slot;
      Fewer(sl, node);
      UnlinkOnly(i, node, cs, sl);
      Count(n - 1, cs[i := Without(cs[i], node)], sl - {node});
    }

    /** `hmap_remove`. */
    method Remove(node: Node)
      requires Valid() && node in slot
      modifies this`n, this`chains, this`slot, buckets, slot.Keys`next
      ensures Valid() && slot == old(slot) - {node} && node.next == old(node.next)
      ensures var i := old(slot[node]);
        i < |old(chains)| && chains == old(chains)[i := Without(old(chains[i]), node)]
    {
      assert MasksTo(node, slot[node]);
      RemoveFrom(And(node.hash, Mask()), node);
    }

    // -------------------------------------------------------------- searching

    /** `hmap_next_with_hash__`, from node `k` of chain `c`. */
    method ScanHash(from: Node?, hash: nat, ghost c: seq<Node>, ghost k: nat) returns (r: Node?, ghost j: nat)
      requires k <= |c| && from == (if k < |c| then c[k] else null)
      requires forall m :: 0 <= m < |c| ==> Linked(c, m)
      ensures k <= j <= |c| && r == (if j < |c| then c[j] else null)
      ensures (forall m :: k <= m < j ==> c[m].hash != hash) && (r != null ==> r.hash == hash)
    {
      r, j := from, k;
      while r != null && r.hash != hash
        invariant k <= j <= |c| && r == (if j < |c| then c[j] else null)
        invariant forall m :: k <= m < j ==> c[m].hash != hash
        decreases |c| - j
      {
        assert Linked(c, j);
        r, j := r.next, j + 1;
      }
    }

    /** Visits the nodes of one chain that have the given hash. */
    method VisitChain(head: Node?, hash: nat, ghost c: seq<Node>) returns (visited: seq<Node>)
      requires Chain(head, c) && Distinct(c)
      ensures Distinct(visited) && forall x :: x in visited <==> x in c && x.hash == hash
    {
      visited := [];
      var node, j := ScanHash(head, hash, c, 0);
      while node != null
        invariant j <= |c| && node == (if j < |c| then c[j] else null) && (node != null ==> node.hash == hash)
        invariant Distinct(visited)
        invariant forall x :: x in visited <==> x in c[..j] && x.hash == hash
        decreases |c| - j
      {
        assert Linked(c, j);
        assert c[..j + 1] == c[..j] + [c[j]];
        visited := visited + [node];
        ghost var k := j;
        node, j := ScanHash(node.next, hash, c, j + 1);
        assert forall x :: x in c[..j] && x.hash == hash ==> x in c[..k + 1];
      }
      assert c[..j] == c;
    }

    /** `HMAP_FOR_EACH_WITH_HASH`: visits every node with the given hash, once each. */
    method VisitWithHash(hash: nat) returns (visited: seq<Node>)
      requires Valid()
      ensures Distinct(visited) && forall x :: x in visited <==> x in slot && x.hash == hash
    {
      var i := And(hash, Mask());
      assert LinkAt(chains, slot, i) && Distinct(chains[i]);
      visited := VisitChain(buckets[i], hash, chains[i]);
      forall x | x in slot && x.hash == hash ensures x in visited {
        assert MasksTo(x, slot[x]) && InChain(chains, slot[x], x);
      }
    }

    /** `hmap_next__`. */
    method FirstFrom(start: nat) returns (r: Node?, ghost i: nat)
      requires Valid() && start <= |chains|
      ensures start <= i <= |chains| && (forall m :: start <= m < i ==> chains[m] == [])
      ensures if i < |chains| then chains[i] != [] && r == chains[i][0] else r == null
    {
      var k := start;
      while k < buckets.Length
        invariant start <= k <= |chains| && forall m :: start <= m < k ==> chains[m] == []
      {
        assert LinkAt(chains, slot, k);
        if buckets[k] != null {
          return buckets[k], k;
        }
        k := k + 1;
      }
      return null, k;
    }

    // -------------------------------------------------------------- iterating

    /**
     * The iteration over the chains `cs` is about to visit node `j` of chain
     * `i`: of the nodes visited, those in `drop` are gone, and `pre` are those
     * of chain `i` that stayed.
     */
    ghost predicate At(cs: seq<seq<Node>>, drop: set<Node>, i: nat, j: nat, pre: seq<Node>)
      reads this
    {
      && |cs| == |chains| && i <= |cs| && (forall m :: i < m < |cs| ==> chains[m] == cs[m])
      && (i < |cs| ==> j < |cs[i]| && chains[i] == pre + cs[i][j..])
    }

    lemma Neighbours(i: nat, k: nat)
      requires Valid() && i < |chains| && k < |chains[i]|
      ensures Distinct(chains[i]) && chains[i][k] in slot && slot[chains[i][k]] == i
      ensures chains[i][k].next == if k + 1 < |chains[i]| then chains[i][k + 1] else null
    {
      assert LinkAt(chains, slot, i) && Distinct(chains[i]);
      assert Home(slot, i, chains[i][k]) && Linked(chains[i], k);
    }

    /** Visits one node, and removes it if it is one to drop. */
    method VisitOne(node: Node, drop: set<Node>, ghost cs: seq<seq<Node>>, ghost i: nat, ghost j: nat, ghost pre: seq<Node>)
      returns (next: Node?, ghost pre': seq<Node>)
      requires Valid() && i < |cs| && At(cs, drop, i, j, pre) && node == cs[i][j]
      modifies this`n, this`chains, this`slot, buckets, slot.Keys`next
      ensures Valid() && slot.Keys == (if node in drop then old(slot).Keys - {node} else old(slot).Keys)
      ensures |cs| == |chains| && (forall m :: i < m < |cs| ==> chains[m] == cs[m]) && chains[i] == pre' + cs[i][j + 1..]
      ensures next == if j + 1 < |cs[i]| then cs[i][j + 1] else null
    {
      Neighbours(i, |pre|);
      WithoutMiddle(pre, cs[i], j);
      if node in drop {
        Remove(node);
        pre' := pre;
      } else {
        pre' := pre + [node];
      }
      next := node.next;
    }

    /** The nodes visited before node `j` of chain `i`. */
    static ghost function Before(cs: seq<seq<Node>>, i: nat, j: nat): seq<Node>
      requires i <= |cs| && (i < |cs| ==> j <= |cs[i]|)
    {
      Flat(cs, i) + if i < |cs| then cs[i][..j] else []
    }

    /** `hmap_next`, after the node's own successor has been read. */
    method Advance(next: Node?, bucket: nat, drop: set<Node>, ghost cs: seq<seq<Node>>, ghost j: nat, ghost pre: seq<Node>)
      returns (node: Node?, ghost i': nat, ghost j': nat, ghost pre': seq<Node>)
      requires Valid() && bucket < |cs| == |chains| && j < |cs[bucket]| && chains[bucket] == pre + cs[bucket][j + 1..]
      requires forall m :: bucket < m < |cs| ==> chains[m] == cs[m]
      requires next == if j + 1 < |cs[bucket]| then cs[bucket][j + 1] else null
      ensures At(cs, drop, i', j', pre') && Before(cs, i', j') == Flat(cs, bucket) + cs[bucket][..j + 1]
      ensures node == if i' < |cs| then cs[i'][j'] else null
      ensures i' > bucket || (i' == bucket && j' == j + 1)
    {
      if next != null {
        return next, bucket, j + 1, pre;
      }
      node, i' := FirstFrom(bucket + 1);
      j', pre' := 0, [];
      assert cs[bucket][..j + 1] == cs[bucket];
      FlatSkip(cs, bucket + 1, i');
      if i' < |cs| { assert chains[i'] == [] + cs[i'][0..]; }
    }

    /** Where the iteration stands: `node` comes next, `visited` have been, and those of them to drop are gone. */
    ghost predicate Visiting(cs: seq<seq<Node>>, sl: map<Node, nat>, drop: set<Node>, visited: seq<Node>,
                             node: Node?, i: nat, j: nat, pre: seq<Node>)
      reads this
    {
      && At(cs, drop, i, j, pre) && node == (if i < |cs| then cs[i][j] else null) && visited == Before(cs, i, j)
      && Dropped(sl.Keys, drop, visited, slot.Keys)
    }

    method VisitStep(node: Node, drop: set<Node>, visited: seq<Node>,
                     ghost cs: seq<seq<Node>>, ghost sl: map<Node, nat>, ghost i: nat, ghost j: nat, ghost pre: seq<Node>)
      returns (next: Node?, ghost i': nat, ghost j': nat, ghost pre': seq<Node>)
      requires Valid() && Apart(cs) && Visiting(cs, sl, drop, visited, node, i, j, pre)
      modifies this`n, this`chains, this`slot, buckets, slot.Keys`next
      ensures Valid() && Visiting(cs, sl, drop, visited + [node], next, i', j', pre')
      ensures slot.Keys <= old(slot.Keys)
      ensures i' > i || (i' == i && j' == j + 1)
    {
      NextIsNew(cs, i, j);
      Neighbours(i, |pre|);
      DropNext(sl.Keys, drop, visited, slot.Keys, node);
      assert MasksTo(node, slot[node]);
      var bucket := And(node.hash, Mask());
      var succ, pre2 := VisitOne(node, drop, cs, i, j, pre);
      next, i', j', pre' := Advance(succ, bucket, drop, cs, j, pre2);
    }

    /**
     * `HMAP_FOR_EACH`, with a body that removes the nodes in `drop` as it
     * comes to them: every node is visited exactly once all the same.
     */
    method ForEach(drop: set<Node>) returns (visited: seq<Node>)
      requires Valid()
      modifies this`n, this`chains, this`slot, buckets, slot.Keys`next
      ensures Valid() && slot.Keys == old(slot.Keys) - drop
      ensures Distinct(visited) && forall x :: x in visited <==> x in old(slot)
    {
      ghost var cs, sl := chains, slot;
      PlacedApart(cs, sl);
      visited := [];
      var node, i := VisitFirst(drop);
      ghost var j: nat, pre: seq<Node> := 0, [];
      while node != null
        invariant Valid() && Visiting(cs, sl, drop, visited, node, i, j, pre)
        decreases |cs| - i, if i < |cs| then |cs[i]| - j else 0
      {
        var next;
        ghost var i2, j2, pre2;
        next, i2, j2, pre2 := VisitStep(node, drop, visited, cs, sl, i, j, pre);
        visited := visited + [node];
        node, i, j, pre := next, i2, j2, pre2;
      }
      assert visited == Flat(cs, |cs|);
      AllVisited(cs, sl, drop, visited, slot.Keys);
    }

    /** `hmap_first`. */
    method VisitFirst(drop: set<Node>) returns (node: Node?, ghost i: nat)
      requires Valid()
      ensures Visiting(chains, slot, drop, [], node, i, 0, [])
    {
      node, i := FirstFrom(0);
      FlatSkip(chains, 0, i);
      if i < |chains| { assert chains[i] == [] + chains[i][0..]; }
    }

    // -------------------------------------------------------------- resizing

    /** An empty table with `mask + 1` buckets. */
    constructor Sized(mask: nat)
      requires IsMask(mask)
      ensures Valid() && slot == map[] && Mask() == mask && fresh(buckets)
    {
      buckets := new Node?[mask + 1](_ => null);
      n, chains, slot := 0, seq(mask + 1, _ => []), map[];
    }

    /** Moves node `j` of chain `c` of another table into this one. */
    method MoveOne(node: Node, ghost c: seq<Node>, ghost j: nat, ghost hs: map<Node, nat>) returns (next: Node?)
      requires Valid() && j < |c| && node == c[j] && node !in slot && Distinct(c) && Rest(c, j) && Hashes(Elems(c), hs)
      modifies this`n, this`chains, this`slot, buckets, node
      ensures Valid() && slot.Keys == old(slot.Keys) + {node} && Hashes(Elems(c), hs)
      ensures Rest(c, j + 1) && next == if j + 1 < |c| then c[j + 1] else null
    {
      assert Linked(c, j);
      next := node.next;
      InsertFast(node, node.hash);
      forall m | j + 1 <= m < |c| ensures Linked(c, m) { assert old(Linked(c, m)); }
      forall x | x in Elems(c) ensures HashIs(x, hs[x]) { assert old(HashIs(x, hs[x])); }
    }

    /** Moves the nodes of a chain of another table into this one. */
    method MoveChain(head: Node?, ghost c: seq<Node>, ghost hs: map<Node, nat>)
      requires Valid() && Chain(head, c) && Distinct(c) && Elems(c) !! slot.Keys && Hashes(Elems(c), hs)
      modifies this`n, this`chains, this`slot, buckets, c
      ensures Valid() && slot.Keys == old(slot.Keys) + Elems(c) && Hashes(Elems(c), hs)
    {
      var node := head;
      ghost var j, ks := 0, slot.Keys;
      while node != null
        invariant j <= |c| && node == (if j < |c| then c[j] else null) && Valid() && Rest(c, j)
        invariant Moved(ks, c, j, slot.Keys) && Hashes(Elems(c), hs)
        decreases |c| - j
      {
        OneMore(c, j, ks, slot.Keys);
        node := MoveOne(node, c, j, hs);
        j := j + 1;
      }
      assert c[..j] == c;
    }

    /** Moves chain `i`, whose first node is `head`, into this table, which has the chains before it. */
    method MoveNext(head: Node?, i: nat, ghost cs: seq<seq<Node>>, ghost hs: map<Node, nat>)
      requires Valid() && Apart(cs) && i < |cs| && slot.Keys == Elems(Flat(cs, i)) && Chain(head, cs[i])
      requires Hashes(Elems(cs[i]), hs)
      modifies this`n, this`chains, this`slot, buckets, cs[i]
      ensures Valid() && slot.Keys == Elems(Flat(cs, i + 1)) && Hashes(Elems(cs[i]), hs)
    {
      NextChain(cs, i);
      MoveChain(head, cs[i], hs);
    }

    /** The buckets from `i` on still link up the chains `cs`. */
    ghost predicate LinksFrom(cs: seq<seq<Node>>, sl: map<Node, nat>, i: nat)
      reads this`buckets, buckets, sl.Keys`next
    {
      |cs| == buckets.Length && forall m {:trigger LinkAt(cs, sl, m)} :: i <= m < |cs| ==> LinkAt(cs, sl, m)
    }

    /** Moves the nodes of bucket `i` into `tmp`. */
    method MoveBucket(tmp: Hmap, i: nat, ghost cs: seq<seq<Node>>, ghost sl: map<Node, nat>, ghost hs: map<Node, nat>)
      requires tmp.Valid() && tmp != this && tmp.buckets != buckets && Apart(cs) && i < |cs|
      requires tmp.slot.Keys == Elems(Flat(cs, i)) && LinksFrom(cs, sl, i) && Hashes(sl.Keys, hs)
      modifies tmp`n, tmp`chains, tmp`slot, tmp.buckets, cs[i]
      ensures tmp.Valid() && tmp.slot.Keys == Elems(Flat(cs, i + 1)) && LinksFrom(cs, sl, i + 1) && Hashes(sl.Keys, hs)
    {
      assert LinkAt(cs, sl, i);
      forall x | x in Elems(cs[i]) ensures HashIs(x, hs[x]) { }
      tmp.MoveNext(buckets[i], i, cs, hs);
      forall m | i + 1 <= m < |cs| ensures LinkAt(cs, sl, m) {
        assert old(LinkAt(cs, sl, m));
        forall j | 0 <= j < |cs[m]| ensures Linked(cs[m], j) { assert old(Linked(cs[m], j)) && cs[m][j] !in cs[i]; }
      }
      forall x | x in sl.Keys ensures HashIs(x, hs[x]) { assert old(HashIs(x, hs[x])); }
    }

    /** Moves every node into the empty table `tmp`. */
    method MoveAll(tmp: Hmap)
      requires Valid() && tmp.Valid() && tmp.slot == map[] && tmp != this && tmp.buckets != buckets
      modifies tmp`n, tmp`chains, tmp`slot, tmp.buckets, slot.Keys
      ensures tmp.Valid() && tmp.slot.Keys == slot.Keys
      ensures forall x :: x in slot ==> x.hash == old(x.hash)
    {
      ghost var cs, sl := chains, slot;
      ghost var hs: map<Node, nat> := map x: Node | x in slot :: x.hash;
      PlacedApart(cs, sl);
      forall i, x | 0 <= i < |cs| && x in cs[i] ensures x in sl { assert Home(sl, i, x); }
      for i := 0 to buckets.Length
        invariant tmp.Valid() && LinksFrom(cs, sl, i) && tmp.slot.Keys == Elems(Flat(cs, i)) && Hashes(sl.Keys, hs)
      {
        MoveBucket(tmp, i, cs, sl, hs);
      }
      forall x | x in slot ensures x.hash == old(x.hash) { assert HashIs(x, hs[x]); }
      forall x ensures x in Flat(cs, |cs|) <==> x in sl { FlatIsAll(cs, sl, x); }
    }

    /** `hmap_swap`, as far as this table goes. */
    method Adopt(tmp: Hmap)
      requires tmp.Valid() && tmp != this
      modifies this
      ensures Valid() && buckets == tmp.buckets && slot == tmp.slot && chains == tmp.chains
    {
      buckets, n := tmp.buckets, tmp.n;
      chains, slot := tmp.chains, tmp.slot;
      forall x | x in slot ensures MasksTo(x, slot[x]) { assert tmp.MasksTo(x, slot[x]); }
      forall i | 0 <= i < |chains| ensures LinkAt(chains, slot, i) { assert tmp.LinkAt(chains, slot, i); }
    }

    /** `resize`: every node goes to the bucket it has under the new mask, with the hash it had. */
    method Resize(newMask: nat)
      requires Valid() && IsMask(newMask)
      modifies this, slot.Keys
      ensures Valid() && Mask() == newMask && slot.Keys == old(slot.Keys) && fresh(buckets)
      ensures forall x :: x in slot ==> x.hash == old(x.hash)
    {
      MaskPasses(newMask);
      var tmp := new Hmap.Sized(newMask);
      MoveAll(tmp);
      Adopt(tmp);
    }

    /** `hmap_expand` and, given another capacity, `hmap_reserve`. */
    method Reserve(capacity: nat, ghost width: nat)
      requires Valid() && capacity < Pow2(width) && 0 < width <= 64
      modifies this, slot.Keys
      ensures Valid() && slot.Keys == old(slot.Keys) && capacity / 2 <= Mask() && old(Mask()) <= Mask()
      ensures forall x :: x in slot ==> x.hash == old(x.hash)
      ensures buckets == old(buckets) || fresh(buckets)
    {
      var newMask := CalcMask(capacity);
      CalcMaskFits(capacity, width);
      if newMask > Mask() {
        Resize(newMask);
      }
    }

    /** `hmap_shrink`. */
    method Shrink(ghost width: nat)
      requires Valid() && n < Pow2(width) && 0 < width <= 64
      modifies this, slot.Keys
      ensures Valid() && slot.Keys == old(slot.Keys) && Mask() <= old(Mask())
      ensures old(n / 2 <= Mask()) ==> n / 2 <= Mask()
      ensures forall x :: x in slot ==> x.hash == old(x.hash)
    {
      var newMask := CalcMask(n);
      CalcMaskFits(n, width);
      if newMask < Mask() {
        Resize(newMask);
      }
    }

    /** `hmap_insert`: afterwards a bucket holds two nodes on average at most. */
    method Insert(node: Node, hash: nat, ghost width: nat)
      requires Valid() && node !in slot && n + 1 < Pow2(width) && 0 < width <= 64
      modifies this, buckets, slot.Keys, node
      ensures Valid() && slot.Keys == old(slot.Keys) + {node} && n / 2 <= Mask() && node.hash == hash
      ensures forall x :: x in old(slot) ==> x.hash == old(x.hash)
    {
      InsertFast(node, hash);
      if n / 2 > Mask() {
        Reserve(n, width);
      }
    }
  }

  ghost predicate HashIs(x: Node, h: nat)
    reads x`hash
  {
    x.hash == h
  }

  /** The nodes of `s` have the hashes `hs`. */
  ghost predicate Hashes(s: set<Node>, hs: map<Node, nat>)
    reads s`hash
  {
    s <= hs.Keys && forall x {:trigger HashIs(x, hs[x])} :: x in s ==> HashIs(x, hs[x])
  }

  ghost predicate Rest(c: seq<Node>, j: nat)
    reads c`next
  {
    forall m :: j <= m < |c| ==> Linked(c, m)
  }

  lemma NextChain<T>(cs: seq<seq<T>>, i: nat)
    requires Apart(cs) && i < |cs|
    ensures Elems(cs[i]) !! Elems(Flat(cs, i)) && Elems(Flat(cs, i + 1)) == Elems(Flat(cs, i)) + Elems(cs[i])
  {
    forall x | x in Elems(Flat(cs, i)) ensures x !in cs[i] { InFlat(cs, i, x); }
  }

  /** `s` is `ks` and the first `j` elements of `c`. */
  ghost predicate Moved<T>(ks: set<T>, c: seq<T>, j: nat, s: set<T>) { j <= |c| && s == ks + Elems(c[..j]) }

  lemma OneMore<T>(c: seq<T>, j: nat, ks: set<T>, s: set<T>)
    requires j < |c| && Distinct(c) && Elems(c) !! ks && Moved(ks, c, j, s)
    ensures c[j] !in s && Moved(ks, c, j + 1, s + {c[j]})
  {
    assert c[j] in Elems(c);
    assert c[..j + 1] == c[..j] + [c[j]];
  }

  lemma Fewer<K, V>(m: map<K, V>, k: K)
    requires k in m
    ensures |m - {k}| == |m| - 1
  {
    assert m.Keys == (m - {k}).Keys + {k};
    assert |m.Keys| == |m| && |(m - {k}).Keys| == |m - {k}|;
  }
}

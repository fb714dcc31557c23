/**
 * The sparse arrays of `port-array.h` and `port-array.c`: tries of three levels
 * that share their empty nodes.  Memory is explicit: middle and bottom nodes
 * are numbered, and number 0 of each kind is the shared empty node.
 */
module PortArray {
  const SIZE := 0x1_0000

  /** A pointer held in an array, null as 0. */
  type Pointer = nat

  datatype World = World(middles: seq<seq<nat>>, bottoms: seq<seq<Pointer>>, arrays: seq<seq<nat>>)

  function Zeros(n: nat): seq<nat> { seq(n, _ => 0) }

  /** Row `x` with `v` at place `i`. */
  function Put<T>(rows: seq<seq<T>>, x: nat, i: nat, v: T): (r: seq<seq<T>>)
    requires x < |rows| && i < |rows[x]|
    ensures |r| == |rows| && |r[x]| == |rows[x]|
  {
    var row: seq<T> := rows[x][i := v];
    rows[x := row]
  }

  /** Before any array exists there are the two shared empty nodes. */
  const START := World([Zeros(32)], [Zeros(64)], [])

  // ---------------------------------------------------------------- indexes

  // The bits of an index that each level uses.
  function Top(idx: nat): nat { idx / 2048 }

  function Middle(idx: nat): nat { idx / 64 % 32 }

  function Bottom(idx: nat): nat { idx % 64 }

  function Index(i: nat, j: nat, k: nat): nat { 2048 * i + 64 * j + k }

  lemma IndexParts(i: nat, j: nat, k: nat)
    requires j < 32 && k < 64
    ensures Top(Index(i, j, k)) == i && Middle(Index(i, j, k)) == j && Bottom(Index(i, j, k)) == k
  {
    assert Index(i, j, k) / 64 == 32 * i + j;
  }

  lemma PartsIndex(idx: nat)
    ensures Index(Top(idx), Middle(idx), Bottom(idx)) == idx
  {
  }

  // ---------------------------------------------------------------- well-formed memory

  predicate MiddleOk(w: World, m: nat)
    requires m < |w.middles|
  {
    |w.middles[m]| == 32 && forall j :: 0 <= j < 32 ==> w.middles[m][j] < |w.bottoms|
  }

  predicate ArrayOk(w: World, a: nat)
    requires a < |w.arrays|
  {
    |w.arrays[a]| == 32 && forall i :: 0 <= i < 32 ==> w.arrays[a][i] < |w.middles|
  }

  predicate BottomOk(w: World, b: nat)
    requires b < |w.bottoms|
  {
    |w.bottoms[b]| == 64
  }

  predicate Shaped(w: World) {
    && (forall m {:trigger MiddleOk(w, m)} :: 0 <= m < |w.middles| ==> MiddleOk(w, m))
    && (forall b {:trigger BottomOk(w, b)} :: 0 <= b < |w.bottoms| ==> BottomOk(w, b))
    && (forall a {:trigger ArrayOk(w, a)} :: 0 <= a < |w.arrays| ==> ArrayOk(w, a))
  }

  /** The shared empty nodes are there, and empty. */
  predicate SharedEmpty(w: World) {
    |w.middles| > 0 && |w.bottoms| > 0 && w.middles[0] == Zeros(32) && w.bottoms[0] == Zeros(64)
  }

  /** Slots `(x, i)` and `(y, k)` of the nodes `ns` point to one node only if they are one slot, or to the shared node. */
  predicate Alone(ns: seq<seq<nat>>, x: nat, i: nat, y: nat, k: nat) {
    (x < |ns| && i < |ns[x]| && y < |ns| && k < |ns[y]| && ns[x][i] == ns[y][k] && ns[x][i] != 0) ==> x == y && i == k
  }

  ghost predicate Owned(ns: seq<seq<nat>>) {
    forall x: nat, i: nat, y: nat, k: nat {:trigger Alone(ns, x, i, y, k)} :: Alone(ns, x, i, y, k)
  }

  ghost predicate Inv(w: World) { Shaped(w) && SharedEmpty(w) && Owned(w.arrays) && Owned(w.middles) }

  /** The bottom node that place `(i, j)` of array `a` leads to. */
  function Leaf(w: World, a: nat, i: nat, j: nat): (b: nat)
    requires Shaped(w) && a < |w.arrays| && i < 32 && j < 32
    ensures b < |w.bottoms| && |w.bottoms[b]| == 64
  {
    assert ArrayOk(w, a);
    assert MiddleOk(w, w.arrays[a][i]);
    assert BottomOk(w, w.middles[w.arrays[a][i]][j]);
    w.middles[w.arrays[a][i]][j]
  }

  function Cell(w: World, a: nat, i: nat, j: nat, k: nat): Pointer
    requires Shaped(w) && a < |w.arrays| && i < 32 && j < 32 && k < 64
  {
    w.bottoms[Leaf(w, a, i, j)][k]
  }

  /** `port_array_get`. */
  function Get(w: World, a: nat, idx: nat): Pointer
    requires Shaped(w) && a < |w.arrays| && idx < SIZE
  {
    Cell(w, a, Top(idx), Middle(idx), Bottom(idx))
  }

  // ---------------------------------------------------------------- operations

  /** `port_array_init` on a new array. */
  function Init(w: World): World { w.(arrays := w.arrays + [Zeros(32)]) }

  /** Gives place `i` of array `a` a middle node of its own. */
  function OwnMiddle(w: World, a: nat, i: nat): World
    requires Inv(w) && a < |w.arrays| && i < 32
  {
    assert ArrayOk(w, a);
    if w.arrays[a][i] != 0 then w
    else w.(middles := w.middles + [w.middles[0]], arrays := Put(w.arrays, a, i, |w.middles|))
  }

  /** Gives place `(i, j)` of array `a` a bottom node of its own. */
  function OwnBottom(w: World, a: nat, i: nat, j: nat): World
    requires Inv(w) && a < |w.arrays| && i < 32 && j < 32
  {
    assert ArrayOk(w, a);
    var m := w.arrays[a][i];
    assert MiddleOk(w, m);
    if w.middles[m][j] != 0 then w
    else w.(bottoms := w.bottoms + [w.bottoms[0]], middles := Put(w.middles, m, j, |w.bottoms|))
  }

  function Store(w: World, a: nat, i: nat, j: nat, k: nat, p: Pointer): World
    requires Inv(w) && a < |w.arrays| && i < 32 && j < 32 && k < 64
  {
    var b := Leaf(w, a, i, j);
    w.(bottoms := Put(w.bottoms, b, k, p))
  }

  // ---------------------------------------------------------------- what each step keeps

  lemma AloneAt(ns: seq<seq<nat>>, x: nat, i: nat, y: nat, k: nat)
    requires Owned(ns) && x < |ns| && i < |ns[x]| && y < |ns| && k < |ns[y]| && ns[x][i] == ns[y][k] && ns[x][i] != 0
    ensures x == y && i == k
  {
    assert Alone(ns, x, i, y, k);
  }

  /** A slot may be pointed at a node nothing else points to. */
  lemma OwnedUpdate(ns: seq<seq<nat>>, x: nat, i: nat, v: nat)
    requires Owned(ns) && x < |ns| && i < |ns[x]|
    requires forall y, k :: 0 <= y < |ns| && 0 <= k < |ns[y]| ==> ns[y][k] < v
    ensures Owned(Put(ns, x, i, v))
  {
    var ms := Put(ns, x, i, v);
    forall y: nat, k: nat, z: nat, l: nat ensures Alone(ms, y, k, z, l) { assert Alone(ns, y, k, z, l); }
  }

  lemma OwnedAppend(ns: seq<seq<nat>>, n: nat)
    requires Owned(ns)
    ensures Owned(ns + [Zeros(n)])
  {
    var ms := ns + [Zeros(n)];
    forall y: nat, k: nat, z: nat, l: nat ensures Alone(ms, y, k, z, l) { assert Alone(ns, y, k, z, l); }
  }

  /** The two memories show the same arrays. */
  ghost predicate SameView(w: World, v: World) {
    && Shaped(w) && Shaped(v) && |v.arrays| == |w.arrays|
    && forall a, i, j, k {:trigger Cell(v, a, i, j, k)} ::
         0 <= a < |w.arrays| && 0 <= i < 32 && 0 <= j < 32 && 0 <= k < 64 ==> Cell(v, a, i, j, k) == Cell(w, a, i, j, k)
  }

  lemma OwnMiddleInv(w: World, a: nat, i: nat)
    requires Inv(w) && a < |w.arrays| && i < 32
    ensures Inv(OwnMiddle(w, a, i)) && |OwnMiddle(w, a, i).arrays| == |w.arrays|
    ensures ArrayOk(OwnMiddle(w, a, i), a) && OwnMiddle(w, a, i).arrays[a][i] != 0
  {
    assert ArrayOk(w, a);
    var v := OwnMiddle(w, a, i);
    if w.arrays[a][i] == 0 {
      forall b | 0 <= b < |v.arrays| ensures ArrayOk(v, b) { assert ArrayOk(w, b); }
      forall m | 0 <= m < |v.middles| ensures MiddleOk(v, m) { assert m < |w.middles| ==> MiddleOk(w, m); }
      forall b | 0 <= b < |v.bottoms| ensures BottomOk(v, b) { assert BottomOk(w, b); }
      forall y, k | 0 <= y < |w.arrays| && 0 <= k < |w.arrays[y]| ensures w.arrays[y][k] < |w.middles| { assert ArrayOk(w, y); }
      OwnedUpdate(w.arrays, a, i, |w.middles|);
      OwnedAppend(w.middles, 32);
    }
  }

  lemma OwnMiddleSame(w: World, a: nat, i: nat)
    requires Inv(w) && a < |w.arrays| && i < 32
    ensures SameView(w, OwnMiddle(w, a, i))
  {
    var v := OwnMiddle(w, a, i);
    OwnMiddleInv(w, a, i);
    forall b, h, j, k | 0 <= b < |w.arrays| && 0 <= h < 32 && 0 <= j < 32 && 0 <= k < 64
      ensures Cell(v, b, h, j, k) == Cell(w, b, h, j, k)
    {
      assert ArrayOk(w, b) && ArrayOk(v, b);
      assert MiddleOk(w, w.arrays[b][h]);
    }
  }

  /** A middle node of an array's own is no other place's. */
  lemma MiddleIsOwn(w: World, a: nat, i: nat, b: nat, h: nat)
    requires Inv(w) && a < |w.arrays| && b < |w.arrays| && i < 32 && h < 32
    requires ArrayOk(w, a) && ArrayOk(w, b) && w.arrays[a][i] == w.arrays[b][h] && w.arrays[a][i] != 0
    ensures a == b && i == h
  {
    AloneAt(w.arrays, a, i, b, h);
  }

  lemma OwnBottomInv(w: World, a: nat, i: nat, j: nat)
    requires Inv(w) && a < |w.arrays| && i < 32 && j < 32 && ArrayOk(w, a) && w.arrays[a][i] != 0
    ensures var v := OwnBottom(w, a, i, j);
      Inv(v) && v.arrays == w.arrays && Leaf(v, a, i, j) != 0
  {
    var m, v := w.arrays[a][i], OwnBottom(w, a, i, j);
    assert MiddleOk(w, m);
    if w.middles[m][j] == 0 {
      forall b | 0 <= b < |v.arrays| ensures ArrayOk(v, b) { assert ArrayOk(w, b); }
      forall n | 0 <= n < |v.middles| ensures MiddleOk(v, n) { assert MiddleOk(w, n); }
      forall b | 0 <= b < |v.bottoms| ensures BottomOk(v, b) { assert b < |w.bottoms| ==> BottomOk(w, b); }
      forall y, k | 0 <= y < |w.middles| && 0 <= k < |w.middles[y]| ensures w.middles[y][k] < |w.bottoms| { assert MiddleOk(w, y); }
      OwnedUpdate(w.middles, m, j, |w.bottoms|);
    }
  }

  lemma OwnBottomSame(w: World, a: nat, i: nat, j: nat)
    requires Inv(w) && a < |w.arrays| && i < 32 && j < 32 && ArrayOk(w, a) && w.arrays[a][i] != 0
    ensures SameView(w, OwnBottom(w, a, i, j))
  {
    var v := OwnBottom(w, a, i, j);
    OwnBottomInv(w, a, i, j);
    forall b, h, l, k | 0 <= b < |w.arrays| && 0 <= h < 32 && 0 <= l < 32 && 0 <= k < 64
      ensures Cell(v, b, h, l, k) == Cell(w, b, h, l, k)
    {
      assert ArrayOk(w, b) && MiddleOk(w, w.arrays[b][h]);
      assert Leaf(w, b, h, l) == w.middles[w.arrays[b][h]][l];
    }
  }

  /** A bottom node of an array's own is no other place's. */
  lemma LeafIsOwn(w: World, a: nat, i: nat, j: nat, b: nat, h: nat, l: nat)
    requires Inv(w) && a < |w.arrays| && b < |w.arrays| && i < 32 && h < 32 && j < 32 && l < 32
    requires Leaf(w, a, i, j) == Leaf(w, b, h, l) && Leaf(w, a, i, j) != 0
    ensures a == b && i == h && j == l
  {
    assert ArrayOk(w, a) && ArrayOk(w, b);
    var m, n := w.arrays[a][i], w.arrays[b][h];
    assert MiddleOk(w, m) && MiddleOk(w, n);
    AloneAt(w.middles, m, j, n, l);
    MiddleIsOwn(w, a, i, b, h);
  }

  lemma StoreInv(w: World, a: nat, i: nat, j: nat, k: nat, p: Pointer)
    requires Inv(w) && a < |w.arrays| && i < 32 && j < 32 && k < 64 && Leaf(w, a, i, j) != 0
    ensures Inv(Store(w, a, i, j, k, p)) && |Store(w, a, i, j, k, p).arrays| == |w.arrays|
  {
    var v := Store(w, a, i, j, k, p);
    forall b | 0 <= b < |v.arrays| ensures ArrayOk(v, b) { assert ArrayOk(w, b); }
    forall n | 0 <= n < |v.middles| ensures MiddleOk(v, n) { assert MiddleOk(w, n); }
    forall b | 0 <= b < |v.bottoms| ensures BottomOk(v, b) { assert BottomOk(w, b); }
  }

  lemma StoreExact(w: World, a: nat, i: nat, j: nat, k: nat, p: Pointer, b: nat, h: nat, l: nat, n: nat)
    requires Inv(w) && a < |w.arrays| && i < 32 && j < 32 && k < 64 && Leaf(w, a, i, j) != 0
    requires b < |w.arrays| && h < 32 && l < 32 && n < 64
    ensures Inv(Store(w, a, i, j, k, p)) && |Store(w, a, i, j, k, p).arrays| == |w.arrays|
    ensures Cell(Store(w, a, i, j, k, p), b, h, l, n)
         == if a == b && i == h && j == l && k == n then p else Cell(w, b, h, l, n)
  {
    StoreInv(w, a, i, j, k, p);
    var v := Store(w, a, i, j, k, p);
    assert Leaf(v, b, h, l) == Leaf(w, b, h, l);
    if Leaf(w, b, h, l) == Leaf(w, a, i, j) { LeafIsOwn(w, a, i, j, b, h, l); }
  }

  /** The memory in which place `(i, j)` of array `a` has its own nodes. */
  ghost function Prepared(w: World, a: nat, i: nat, j: nat): (v: World)
    requires Inv(w) && a < |w.arrays| && i < 32 && j < 32
    ensures Inv(v) && |v.arrays| == |w.arrays| && Leaf(v, a, i, j) != 0
  {
    OwnMiddleInv(w, a, i);
    OwnBottomInv(OwnMiddle(w, a, i), a, i, j);
    OwnBottom(OwnMiddle(w, a, i), a, i, j)
  }

  /** `port_array_set`. */
  ghost function Set(w: World, a: nat, idx: nat, p: Pointer): (v: World)
    requires Inv(w) && a < |w.arrays| && idx < SIZE
    ensures Inv(v) && |v.arrays| == |w.arrays|
  {
    var u := Prepared(w, a, Top(idx), Middle(idx));
    StoreInv(u, a, Top(idx), Middle(idx), Bottom(idx), p);
    Store(u, a, Top(idx), Middle(idx), Bottom(idx), p)
  }

  lemma PreparedSame(w: World, a: nat, i: nat, j: nat, b: nat, h: nat, l: nat, n: nat)
    requires Inv(w) && a < |w.arrays| && i < 32 && j < 32 && b < |w.arrays| && h < 32 && l < 32 && n < 64
    ensures Cell(Prepared(w, a, i, j), b, h, l, n) == Cell(w, b, h, l, n)
  {
    var u := OwnMiddle(w, a, i);
    OwnMiddleInv(w, a, i);
    OwnMiddleSame(w, a, i);
    OwnBottomSame(u, a, i, j);
    assert Cell(u, b, h, l, n) == Cell(w, b, h, l, n);
  }

  /** A set changes one element of one array, and nothing else of any array. */
  lemma SetExact(w: World, a: nat, idx: nat, p: Pointer, b: nat, x: nat)
    requires Inv(w) && a < |w.arrays| && idx < SIZE && b < |w.arrays| && x < SIZE
    ensures Get(Set(w, a, idx, p), b, x) == if a == b && x == idx then p else Get(w, b, x)
  {
    var u := Prepared(w, a, Top(idx), Middle(idx));
    PreparedSame(w, a, Top(idx), Middle(idx), b, Top(x), Middle(x), Bottom(x));
    StoreExact(u, a, Top(idx), Middle(idx), Bottom(idx), p, b, Top(x), Middle(x), Bottom(x));
    PartsIndex(idx);
    PartsIndex(x);
  }

  lemma InitInv(w: World)
    requires Inv(w)
    ensures Inv(Init(w))
  {
    var v := Init(w);
    forall b | 0 <= b < |v.arrays| ensures ArrayOk(v, b) { assert b < |w.arrays| ==> ArrayOk(w, b); }
    forall n | 0 <= n < |v.middles| ensures MiddleOk(v, n) { assert MiddleOk(w, n); }
    forall b | 0 <= b < |v.bottoms| ensures BottomOk(v, b) { assert BottomOk(w, b); }
    OwnedAppend(w.arrays, 32);
  }

  /** A new array is empty, and the others are as they were. */
  lemma InitExact(w: World, b: nat, x: nat)
    requires Inv(w) && b <= |w.arrays| && x < SIZE
    ensures Inv(Init(w)) && Get(Init(w), b, x) == if b < |w.arrays| then Get(w, b, x) else 0
  {
    InitInv(w);
    if b < |w.arrays| { assert ArrayOk(w, b); }
    assert ArrayOk(Init(w), b);
  }

  lemma StartInv()
    ensures Inv(START)
  {
    forall y: nat, k: nat, z: nat, l: nat ensures Alone(START.middles, y, k, z, l) && Alone(START.arrays, y, k, z, l) { }
  }

  // ---------------------------------------------------------------- whole runs

  datatype Op = New | SetOp(array_: nat, idx: nat, p: Pointer)

  /** How many arrays there are after the operations. */
  function Arrays(ops: seq<Op>): nat {
    if ops == [] then 0 else Arrays(ops[..|ops| - 1]) + if ops[|ops| - 1].New? then 1 else 0
  }

  /** Arrays are set only once they exist. */
  predicate Legal(ops: seq<Op>) {
    ops != [] ==>
      var front, last := ops[..|ops| - 1], ops[|ops| - 1];
      Legal(front) && (last.SetOp? ==> last.array_ < Arrays(front) && last.idx < SIZE)
  }

  ghost function Run(ops: seq<Op>): (w: World)
    requires Legal(ops)
    ensures Inv(w) && |w.arrays| == Arrays(ops)
  {
    if ops == [] then StartInv(); START
    else
      var w, last := Run(ops[..|ops| - 1]), ops[|ops| - 1];
      InitInv(w);
      if last.New? then Init(w) else Set(w, last.array_, last.idx, last.p)
  }

  /** What was last set at element `x` of array `a`, or null. */
  function Latest(ops: seq<Op>, a: nat, x: nat): Pointer {
    if ops == [] then 0
    else
      var last := ops[|ops| - 1];
      if last.SetOp? && last.array_ == a && last.idx == x then last.p else Latest(ops[..|ops| - 1], a, x)
  }

  lemma {:induction false} LatestOfNone(ops: seq<Op>, a: nat, x: nat)
    requires Legal(ops) && a >= Arrays(ops)
    ensures Latest(ops, a, x) == 0
  {
    if ops != [] { LatestOfNone(ops[..|ops| - 1], a, x); }
  }

  /** After every run, every element of every array is what was last set there, though empty nodes are shared by all. */
  lemma {:induction false} EveryRun(ops: seq<Op>, a: nat, x: nat)
    requires Legal(ops) && a < Arrays(ops) && x < SIZE
    ensures Get(Run(ops), a, x) == Latest(ops, a, x)
    ensures SharedEmpty(Run(ops))
    decreases |ops|
  {
    var front, last := ops[..|ops| - 1], ops[|ops| - 1];
    var w := Run(front);
    if last.New? {
      InitExact(w, a, x);
      if a < Arrays(front) { EveryRun(front, a, x); } else { LatestOfNone(front, a, x); }
    } else {
      SetExact(w, last.array_, last.idx, last.p, a, x);
      EveryRun(front, a, x);
    }
  }

  // ---------------------------------------------------------------- iterating

  /** Elements `lo` up to `hi` of array `a` are null. */
  predicate NullBetween(w: World, a: nat, lo: nat, hi: nat)
    requires Shaped(w) && a < |w.arrays|
  {
    forall x :: lo <= x < hi && x < SIZE ==> Get(w, a, x) == 0
  }

  /** Under a shared middle node everything is null. */
  lemma SharedMiddleNull(w: World, a: nat, i: nat)
    requires Inv(w) && a < |w.arrays| && i < 32 && ArrayOk(w, a) && w.arrays[a][i] == 0
    ensures NullBetween(w, a, Index(i, 0, 0), Index(i + 1, 0, 0))
  {
    forall x | Index(i, 0, 0) <= x < Index(i + 1, 0, 0) && x < SIZE ensures Get(w, a, x) == 0 {
      assert Top(x) == i;
    }
  }

  lemma SharedBottomNull(w: World, a: nat, i: nat, j: nat)
    requires Inv(w) && a < |w.arrays| && i < 32 && j < 32 && Leaf(w, a, i, j) == 0
    ensures NullBetween(w, a, Index(i, j, 0), Index(i, j + 1, 0))
  {
    forall x | Index(i, j, 0) <= x < Index(i, j + 1, 0) && x < SIZE ensures Get(w, a, x) == 0 {
      IndexParts(i, j, x - Index(i, j, 0));
    }
  }

  /** Looks in one bottom node, from `k0` on. */
  method ScanBottom(w: World, a: nat, i: nat, j: nat, k0: nat) returns (p: Pointer, k: nat)
    requires Inv(w) && a < |w.arrays| && i < 32 && j < 32 && k0 <= 64
    ensures k0 <= k <= 64 && NullBetween(w, a, Index(i, j, k0), Index(i, j, k))
    ensures if k < 64 then p == Get(w, a, Index(i, j, k)) && p != 0 else p == 0
  {
    k := k0;
    while k < 64
      invariant k0 <= k <= 64 && NullBetween(w, a, Index(i, j, k0), Index(i, j, k))
    {
      IndexParts(i, j, k);
      p := w.bottoms[Leaf(w, a, i, j)][k];
      if p != 0 {
        return;
      }
      k := k + 1;
    }
    p := 0;
  }

  /** Looks under one middle node, from `(j0, k0)` on. */
  method ScanMiddle(w: World, a: nat, i: nat, j0: nat, k0: nat) returns (p: Pointer, j: nat, k: nat)
    requires Inv(w) && a < |w.arrays| && i < 32 && j0 < 32 && k0 < 64
    ensures j0 <= j <= 32 && k <= 64 && NullBetween(w, a, Index(i, j0, k0), Index(i, j, k))
    ensures if j < 32 then k < 64 && p == Get(w, a, Index(i, j, k)) && p != 0 else p == 0 && k == 0
    ensures Index(i, j0, k0) <= Index(i, j, k)
  {
    p, j, k := 0, j0, k0;
    while j < 32
      invariant j0 <= j <= 32 && k <= 64 && Index(i, j0, k0) <= Index(i, j, k) && p == 0
      invariant NullBetween(w, a, Index(i, j0, k0), Index(i, j, k)) && (j > j0 ==> k == 0) && (j == j0 ==> k == k0)
    {
      if Leaf(w, a, i, j) != 0 {
        p, k := ScanBottom(w, a, i, j, k);
        if p != 0 {
          return;
        }
      } else {
        SharedBottomNull(w, a, i, j);
      }
      j, k := j + 1, 0;
    }
  }

  /** `next`: the first element from `start` on that is not null, or none. */
  method NextFrom(w: World, a: nat, start: nat) returns (p: Pointer, idx: nat)
    requires Inv(w) && a < |w.arrays|
    ensures idx <= SIZE && NullBetween(w, a, start, idx)
    ensures if idx < SIZE then start <= idx && p == Get(w, a, idx) && p != 0 else p == 0
  {
    PartsIndex(start);
    var i, j, k := Top(start), Middle(start), Bottom(start);
    while i < 32
      invariant j < 32 && k < 64 && start <= Index(i, j, k) && NullBetween(w, a, start, Index(i, j, k))
      decreases 32 - i
    {
      assert ArrayOk(w, a);
      if w.arrays[a][i] != 0 {
        p, j, k := ScanMiddle(w, a, i, j, k);
        if p != 0 {
          return p, Index(i, j, k);
        }
      } else {
        SharedMiddleNull(w, a, i);
      }
      i, j, k := i + 1, 0, 0;
    }
    return 0, SIZE;
  }

  /** `port_array_first`. */
  method First(w: World, a: nat) returns (p: Pointer, idx: nat)
    requires Inv(w) && a < |w.arrays|
    ensures idx <= SIZE && NullBetween(w, a, 0, idx)
    ensures if idx < SIZE then p == Get(w, a, idx) && p != 0 else p == 0
  {
    p, idx := NextFrom(w, a, 0);
  }

  /** `port_array_next`, with an index of 32 bits. */
  method Next(w: World, a: nat, at: nat) returns (p: Pointer, idx: nat)
    requires Inv(w) && a < |w.arrays| && at < 0x1_0000_0000
    ensures var start := (at + 1) % 0x1_0000_0000;
      && idx <= SIZE && NullBetween(w, a, start, idx)
      && (if idx < SIZE then start <= idx && p == Get(w, a, idx) && p != 0 else p == 0)
  {
    p, idx := NextFrom(w, a, (at + 1) % 0x1_0000_0000);
  }

  /** A loop over `port_array_first` and `port_array_next` meets exactly the elements that are not null, in order. */
  method ForEach(w: World, a: nat) returns (met: seq<nat>)
    requires Inv(w) && a < |w.arrays|
    ensures forall m, n :: 0 <= m < n < |met| ==> met[m] < met[n]
    ensures forall x :: x in met <==> 0 <= x < SIZE && Get(w, a, x) != 0
  {
    met := [];
    var p, idx := First(w, a);
    while p != 0
      invariant idx <= SIZE && (if idx < SIZE then p == Get(w, a, idx) && p != 0 else p == 0)
      invariant (forall m, n :: 0 <= m < n < |met| ==> met[m] < met[n]) && forall m :: 0 <= m < |met| ==> met[m] < idx
      invariant forall x :: x in met <==> 0 <= x < idx && Get(w, a, x) != 0
      decreases SIZE - idx
    {
      met := met + [idx];
      p, idx := Next(w, a, idx);
    }
  }

  // ---------------------------------------------------------------- in place

  /** The memory all arrays live in, which `port_array_init` and `port_array_set` change in place. */
  class Memory {
    var middles: seq<seq<nat>>
    var bottoms: seq<seq<Pointer>>
    var arrays: seq<seq<nat>>

    function View(): World
      reads this
    {
      World(middles, bottoms, arrays)
    }

    constructor ()
      ensures Inv(View()) && View() == START
    {
      middles, bottoms, arrays := [Zeros(32)], [Zeros(64)], [];
      new;
      StartInv();
    }

    method InitArray() returns (a: nat)
      requires Inv(View())
      modifies this
      ensures View() == Init(old(View())) && Inv(View()) && a == |old(arrays)|
    {
      InitInv(View());
      a := |arrays|;
      arrays := arrays + [Zeros(32)];
    }

    method SetElement(a: nat, idx: nat, p: Pointer)
      requires Inv(View()) && a < |arrays| && idx < SIZE
      modifies this
      ensures View() == Set(old(View()), a, idx, p) && Inv(View())
    {
      var i, j, k := Top(idx), Middle(idx), Bottom(idx);
      assert ArrayOk(View(), a);
      OwnMiddleInv(View(), a, i);
      if arrays[a][i] == 0 {
        arrays, middles := Put(arrays, a, i, |middles|), middles + [middles[0]];
      }
      assert View() == OwnMiddle(old(View()), a, i);
      OwnBottomInv(View(), a, i, j);
      var m := arrays[a][i];
      assert MiddleOk(View(), m);
      if middles[m][j] == 0 {
        middles, bottoms := Put(middles, m, j, |bottoms|), bottoms + [bottoms[0]];
      }
      assert View() == Prepared(old(View()), a, i, j);
      var b := Leaf(View(), a, i, j);
      bottoms := Put(bottoms, b, k, p);
    }
  }
}

/** A network of bridges and LANs at rest. Every bridge is in a state its own operations
    leave it in, and every LAN agrees on its designated port. Then the bridges agree on the
    root, their costs are the least path costs, and the ports that forward form a tree. */
module StpNetwork {
  import opened Wrappers
  import opened StpModel
  import opened StpSelection
  import opened StpInvariant
  import opened StpSteps

  /** The bridges, and for each bridge the LAN behind each of its ports. */
  datatype Network = Network(bridges: seq<Bridge>, lans: seq<seq<nat>>)

  /** A port of a bridge of the network. */
  datatype At = At(bridge: nat, port: nat)

  predicate Shape(n: Network) {
    && |n.lans| == |n.bridges|
    && forall b :: 0 <= b < |n.bridges| ==> |n.lans[b]| == |n.bridges[b].ports|
  }

  predicate Exists(n: Network, x: At)
    requires Shape(n)
  {
    x.bridge < |n.bridges| && x.port < |n.bridges[x.bridge].ports|
  }

  function PortAt(n: Network, x: At): Port
    requires Shape(n) && Exists(n, x)
  {
    n.bridges[x.bridge].ports[x.port]
  }

  function LanAt(n: Network, x: At): nat
    requires Shape(n) && Exists(n, x)
  {
    n.lans[x.bridge][x.port]
  }

  /** The port exists and runs the protocol. */
  predicate On(n: Network, x: At)
    requires Shape(n)
  {
    Exists(n, x) && Enabled(PortAt(n, x))
  }

  predicate Speaks(n: Network, x: At)
    requires Shape(n) && Exists(n, x)
  {
    IsDesignated(n.bridges[x.bridge].bridgeId, PortAt(n, x))
  }

  predicate IsRootPort(n: Network, x: At)
    requires Shape(n) && Exists(n, x)
  {
    n.bridges[x.bridge].rootPort == Some(x.port)
  }

  /** Neither disabled nor blocking. */
  predicate Active(n: Network, x: At)
    requires Shape(n)
  {
    On(n, x) && PortAt(n, x).state != Blocking
  }

  ghost predicate LanAgrees(n: Network, x: At, y: At)
    requires Shape(n) && On(n, x) && On(n, y)
  {
    LanAt(n, x) == LanAt(n, y) ==> SameInfo(PortAt(n, x), PortAt(n, y))
  }

  /** Some port on the LAN of `x` is designated for it. */
  ghost predicate LanServed(n: Network, x: At)
    requires Shape(n) && On(n, x)
  {
    exists y :: On(n, y) && LanAt(n, y) == LanAt(n, x) && Speaks(n, y)
  }

  /** Bridges are distinct, and every LAN agrees on a designated port. */
  ghost predicate LansAgree(n: Network) {
    && Shape(n)
    && (forall a, b | 0 <= a < |n.bridges| && 0 <= b < |n.bridges| ::
          n.bridges[a].bridgeId == n.bridges[b].bridgeId ==> a == b)
    && (forall x, y {:trigger LanAgrees(n, x, y)} :: On(n, x) && On(n, y) ==> LanAgrees(n, x, y))
    && (forall x {:trigger LanServed(n, x)} :: On(n, x) ==> LanServed(n, x))
  }

  ghost predicate BridgesSettled(n: Network) {
    forall b :: 0 <= b < |n.bridges| ==> Inv(n.bridges[b])
  }

  ghost predicate Quiescent(n: Network) { BridgesSettled(n) && LansAgree(n) }

  /** Ports `x` and `y` are enabled and share a LAN. */
  predicate Joined(n: Network, x: At, y: At)
    requires Shape(n)
  {
    On(n, x) && On(n, y) && LanAt(n, x) == LanAt(n, y)
  }

  // ---------------------------------------------------------------- one bridge at rest

  /** What a port of a settled bridge knows about its bridge's view of the root. */
  predicate PortAtRest(s: Bridge, i: nat)
    requires i < |s.ports|
  {
    var p := s.ports[i];
    var designated := IsDesignated(s.bridgeId, p);
    && p.portId % 256 == i + 1 && p.pathCost >= 1
    && (Enabled(p) ==>
          && p.designatedRoot == s.designatedRoot
          && (designated ==> p.designatedCost == s.rootPathCost)
          && p.designatedCost <= s.rootPathCost <= p.designatedCost + p.pathCost
          && (s.rootPort == Some(i) ==> !designated && s.rootPathCost == p.designatedCost + p.pathCost)
          && (p.state != Blocking <==> designated || s.rootPort == Some(i)))
  }

  predicate BridgeAtRest(s: Bridge) {
    && s.designatedRoot <= s.bridgeId
    && (s.rootPort.None? ==> s.designatedRoot == s.bridgeId && s.rootPathCost == 0)
    && (s.rootPort.Some? ==> s.rootPort.value < |s.ports| && Enabled(s.ports[s.rootPort.value]))
    && forall i :: 0 <= i < |s.ports| ==> PortAtRest(s, i)
  }

  /** The root port's offer is no worse than that of any other port that is not designated. */
  lemma CandidateCost(s: Bridge, i: nat)
    requires Inv(s) && i < |s.ports| && Enabled(s.ports[i]) && !IsDesignated(s.bridgeId, s.ports[i])
    ensures s.rootPathCost <= s.ports[i].designatedCost + s.ports[i].pathCost
  {
    InvMeans(s);
    if s.rootPort.Some? && s.rootPort != Some(i) {
      assert Candidate(s.bridgeId, s.ports[i]) && i in Below(|s.ports|);
      assert SupersedesRoot(s.ports[i], s.ports[s.rootPort.value]);
    }
  }

  lemma SettledAtRest(s: Bridge)
    requires Inv(s)
    ensures BridgeAtRest(s)
  {
    InvMeans(s);
    forall i | 0 <= i < |s.ports| ensures PortAtRest(s, i) {
      assert PortReady(s, i) && PortSettled(s, i);
      if Enabled(s.ports[i]) && !IsDesignated(s.bridgeId, s.ports[i]) {
        CandidateCost(s, i);
        assert !TakesOver(s, s.ports[i]);
      }
    }
  }

  /** The network at rest, in terms of what the ports record. */
  ghost predicate AtRest(n: Network) {
    LansAgree(n) && forall b :: 0 <= b < |n.bridges| ==> BridgeAtRest(n.bridges[b])
  }

  lemma QuiescentAtRest(n: Network)
    requires Quiescent(n)
    ensures AtRest(n)
  {
    forall b | 0 <= b < |n.bridges| ensures BridgeAtRest(n.bridges[b]) {
      SettledAtRest(n.bridges[b]);
    }
  }

  // ---------------------------------------------------------------- one LAN

  lemma PortFacts(n: Network, x: At)
    requires AtRest(n) && On(n, x)
    ensures PortAtRest(n.bridges[x.bridge], x.port)
  {
    assert BridgeAtRest(n.bridges[x.bridge]);
  }

  /** A LAN has only one designated port. */
  lemma OneSpeaker(n: Network, x: At, y: At)
    requires AtRest(n) && Joined(n, x, y) && Speaks(n, x) && Speaks(n, y)
    ensures x == y
  {
    assert LanAgrees(n, x, y);
    assert x.bridge == y.bridge;
    PortFacts(n, x);
    PortFacts(n, y);
  }

  /** The designated port of the LAN of `x`. */
  lemma SpeakerOf(n: Network, x: At) returns (y: At)
    requires AtRest(n) && On(n, x)
    ensures Joined(n, x, y) && Speaks(n, y)
    ensures n.bridges[y.bridge].rootPathCost == PortAt(n, x).designatedCost
    ensures n.bridges[y.bridge].designatedRoot == n.bridges[x.bridge].designatedRoot
  {
    assert LanServed(n, x);
    y :| On(n, y) && LanAt(n, y) == LanAt(n, x) && Speaks(n, y);
    assert LanAgrees(n, x, y);
    PortFacts(n, x);
    PortFacts(n, y);
  }

  /** One hop of the Bellman condition: no neighbour offers a cheaper way. */
  lemma HopBound(n: Network, x: At, y: At)
    requires AtRest(n) && Joined(n, x, y)
    ensures n.bridges[x.bridge].designatedRoot == n.bridges[y.bridge].designatedRoot
    ensures n.bridges[x.bridge].rootPathCost <= PortAt(n, x).pathCost + n.bridges[y.bridge].rootPathCost
  {
    PortFacts(n, x);
    PortFacts(n, y);
    assert LanAgrees(n, x, y);
  }

  // ---------------------------------------------------------------- paths

  /** One hop: out of a bridge through `out`, across the LAN, into the next through `into`. */
  datatype Hop = Hop(out: At, into: At)

  /** A path of hops from bridge `a` to bridge `b`. */
  predicate Path(n: Network, a: nat, hops: seq<Hop>, b: nat)
    requires Shape(n)
    decreases hops
  {
    if hops == [] then a == b && a < |n.bridges|
    else
      && hops[0].out.bridge == a
      && Joined(n, hops[0].out, hops[0].into)
      && Path(n, hops[0].into.bridge, hops[1..], b)
  }

  /** Each bridge on the way adds the cost of the port it leaves by. */
  function Cost(n: Network, hops: seq<Hop>): nat
    requires Shape(n)
  {
    if hops == [] then 0
    else (if Exists(n, hops[0].out) then PortAt(n, hops[0].out).pathCost else 0) + Cost(n, hops[1..])
  }

  /** Along any path the view of the root is the same, and no path is cheaper than the
      difference of the recorded costs. */
  lemma {:induction false} PathBound(n: Network, a: nat, hops: seq<Hop>, b: nat)
    requires AtRest(n) && a < |n.bridges| && Path(n, a, hops, b)
    ensures b < |n.bridges|
    ensures n.bridges[a].designatedRoot == n.bridges[b].designatedRoot
    ensures n.bridges[a].rootPathCost <= Cost(n, hops) + n.bridges[b].rootPathCost
    decreases hops
  {
    if hops != [] {
      HopBound(n, hops[0].out, hops[0].into);
      PathBound(n, hops[0].into.bridge, hops[1..], b);
    }
  }

  /** The hop leaves through a root port and enters through a designated port, both active. */
  predicate ClimbsBy(n: Network, hop: Hop)
    requires Shape(n)
  {
    && Joined(n, hop.out, hop.into)
    && IsRootPort(n, hop.out) && Speaks(n, hop.into)
    && Active(n, hop.out) && Active(n, hop.into)
  }

  predicate Climbs(n: Network, hops: seq<Hop>)
    requires Shape(n)
  {
    forall k :: 0 <= k < |hops| ==> ClimbsBy(n, hops[k])
  }

  /** The hop from a bridge through its root port. */
  lemma ClimbHop(n: Network, a: nat) returns (hop: Hop)
    requires AtRest(n) && a < |n.bridges| && n.bridges[a].rootPort.Some?
    ensures ClimbsBy(n, hop) && hop.out.bridge == a
    ensures
      var s, t := n.bridges[a], n.bridges[hop.into.bridge];
      && t.designatedRoot == s.designatedRoot
      && s.rootPathCost == PortAt(n, hop.out).pathCost + t.rootPathCost
      && t.rootPathCost < s.rootPathCost
  {
    assert BridgeAtRest(n.bridges[a]);
    var x := At(a, n.bridges[a].rootPort.value);
    var y := SpeakerOf(n, x);
    PortFacts(n, x);
    PortFacts(n, y);
    hop := Hop(x, y);
  }

  lemma ClimbOneMore(n: Network, hop: Hop, rest: seq<Hop>, r: nat)
    requires Shape(n) && ClimbsBy(n, hop)
    requires Path(n, hop.into.bridge, rest, r) && Climbs(n, rest)
    ensures Path(n, hop.out.bridge, [hop] + rest, r) && Climbs(n, [hop] + rest)
    ensures Cost(n, [hop] + rest) == PortAt(n, hop.out).pathCost + Cost(n, rest)
  {
    assert ([hop] + rest)[1..] == rest;
  }

  /** Following root ports from any bridge reaches, at exactly the recorded cost, a bridge
      that has no root port because it is the root the first one believes in. */
  lemma {:induction false} ClimbToRoot(n: Network, a: nat) returns (hops: seq<Hop>, r: nat)
    requires AtRest(n) && a < |n.bridges|
    ensures r < |n.bridges| && Path(n, a, hops, r) && Climbs(n, hops)
    ensures n.bridges[r].bridgeId == n.bridges[a].designatedRoot
    ensures Cost(n, hops) == n.bridges[a].rootPathCost
    decreases n.bridges[a].rootPathCost
  {
    if n.bridges[a].rootPort.None? {
      assert BridgeAtRest(n.bridges[a]);
      hops, r := [], a;
    } else {
      var hop := ClimbHop(n, a);
      var rest;
      rest, r := ClimbToRoot(n, hop.into.bridge);
      hops := [hop] + rest;
      ClimbOneMore(n, hop, rest, r);
    }
  }

  // ---------------------------------------------------------------- the root and the costs

  ghost predicate Connected(n: Network)
    requires Shape(n)
  {
    forall a, b :: 0 <= a < |n.bridges| && 0 <= b < |n.bridges| ==> Reaches(n, a, b)
  }

  ghost predicate Reaches(n: Network, a: nat, b: nat)
    requires Shape(n)
  {
    exists hops :: Path(n, a, hops, b)
  }

  /** Bridge `r` has the least identifier in the network. */
  predicate LeastId(n: Network, r: nat) {
    r < |n.bridges| && forall b :: 0 <= b < |n.bridges| ==> n.bridges[r].bridgeId <= n.bridges[b].bridgeId
  }

  /** In a connected network at rest every bridge names the bridge with the least identifier
      as root, and its cost is the least over all paths there: attained by one path, and no
      path is cheaper. */
  lemma RootAndCosts(n: Network, a: nat) returns (r: nat, hops: seq<Hop>)
    requires Quiescent(n) && Connected(n) && a < |n.bridges|
    ensures LeastId(n, r) && n.bridges[a].designatedRoot == n.bridges[r].bridgeId
    ensures Path(n, a, hops, r) && Climbs(n, hops)
    ensures Cost(n, hops) == n.bridges[a].rootPathCost
    ensures forall other: seq<Hop> :: Path(n, a, other, r) ==>
              n.bridges[a].rootPathCost <= Cost(n, other)
  {
    QuiescentAtRest(n);
    hops, r := ClimbToRoot(n, a);
    forall b | 0 <= b < |n.bridges| ensures n.bridges[r].bridgeId <= n.bridges[b].bridgeId {
      assert Reaches(n, a, b);
      var way :| Path(n, a, way, b);
      PathBound(n, a, way, b);
      assert BridgeAtRest(n.bridges[b]);
    }
    forall other: seq<Hop> | Path(n, a, other, r)
      ensures n.bridges[a].rootPathCost <= Cost(n, other)
    {
      PathBound(n, a, other, r);
    }
  }

  /** There is one root, and the recorded costs are determined: two networks at rest with
      the same bridges, cabling, enabled ports and path costs record the same costs. */
  lemma CostsUnique(n: Network, m: Network, a: nat)
    requires Quiescent(n) && Connected(n) && Quiescent(m) && Connected(m)
    requires SameWiring(n, m) && a < |n.bridges|
    ensures n.bridges[a].designatedRoot == m.bridges[a].designatedRoot
    ensures n.bridges[a].rootPathCost == m.bridges[a].rootPathCost
  {
    NoDearer(n, m, a);
    NoDearer(m, n, a);
  }

  /** The same bridges, cabling, enabled ports and path costs. */
  ghost predicate SameWiring(n: Network, m: Network) {
    && Shape(n) && Shape(m) && |n.bridges| == |m.bridges| && n.lans == m.lans
    && (forall b :: 0 <= b < |n.bridges| ==> n.bridges[b].bridgeId == m.bridges[b].bridgeId)
    && (forall x :: Exists(n, x) <==> Exists(m, x))
    && (forall x :: Exists(n, x) ==>
          (On(n, x) <==> On(m, x)) && PortAt(n, x).pathCost == PortAt(m, x).pathCost)
  }

  lemma NoDearer(n: Network, m: Network, a: nat)
    requires Quiescent(n) && Connected(n) && Quiescent(m) && Connected(m)
    requires SameWiring(n, m) && a < |n.bridges|
    ensures n.bridges[a].designatedRoot == m.bridges[a].designatedRoot
    ensures n.bridges[a].rootPathCost <= m.bridges[a].rootPathCost
  {
    var r, hops := RootAndCosts(n, a);
    var q, way := RootAndCosts(m, a);
    assert n.bridges[r].bridgeId == n.bridges[q].bridgeId;
    assert r == q;
    SamePath(m, n, a, way, q);
  }

  lemma {:induction false} SamePath(n: Network, m: Network, a: nat, hops: seq<Hop>, b: nat)
    requires SameWiring(n, m) && Path(n, a, hops, b)
    ensures Path(m, a, hops, b)
    ensures Cost(n, hops) == Cost(m, hops)
    decreases hops
  {
    if hops != [] {
      SamePath(n, m, hops[0].into.bridge, hops[1..], b);
    }
  }

  // ---------------------------------------------------------------- no loops

  function CostAt(n: Network, x: At): nat {
    if x.bridge < |n.bridges| then n.bridges[x.bridge].rootPathCost else 0
  }

  /** A closed walk: hop `k` crosses a LAN between two different active ports, and leaves
      the bridge it has reached by another port than the one it came in by. */
  predicate Loop(n: Network, hops: seq<Hop>)
    requires Shape(n)
  {
    && |hops| >= 1
    && forall k :: 0 <= k < |hops| ==> TurnsAt(n, hops, k)
  }

  predicate TurnsAt(n: Network, hops: seq<Hop>, k: nat)
    requires Shape(n) && k < |hops|
  {
    Turns(n, hops[k], hops[if k + 1 < |hops| then k + 1 else 0])
  }

  predicate Turns(n: Network, hop: Hop, next: Hop)
    requires Shape(n)
  {
    && Joined(n, hop.out, hop.into) && hop.out != hop.into
    && Active(n, hop.out) && Active(n, hop.into)
    && hop.into.bridge == next.out.bridge && hop.into != next.out
  }

  /** Crossing a LAN from its designated port leads to a strictly costlier bridge. */
  lemma AcrossIsCostlier(n: Network, x: At, y: At)
    requires AtRest(n) && Joined(n, x, y) && x != y && Active(n, x) && Active(n, y)
    requires Speaks(n, x)
    ensures n.bridges[x.bridge].rootPathCost < n.bridges[y.bridge].rootPathCost
  {
    PortFacts(n, x);
    PortFacts(n, y);
    assert LanAgrees(n, x, y);
    if Speaks(n, y) {
      OneSpeaker(n, x, y);
      assert false;
    }
  }

  /** The hop whose starting bridge has the greatest cost. */
  lemma {:induction false} CostliestHop(n: Network, hops: seq<Hop>, len: nat) returns (k: nat)
    requires 1 <= len <= |hops|
    ensures k < len
    ensures forall j :: 0 <= j < len ==> CostAt(n, hops[j].out) <= CostAt(n, hops[k].out)
  {
    k := 0;
    if len > 1 {
      var m := CostliestHop(n, hops, len - 1);
      k := if CostAt(n, hops[m].out) < CostAt(n, hops[len - 1].out) then len - 1 else m;
    }
  }

  /** The active ports of a network at rest contain no loop. */
  lemma LoopFree(n: Network, hops: seq<Hop>)
    requires Quiescent(n)
    ensures !Loop(n, hops)
  {
    QuiescentAtRest(n);
    NoLoopAtRest(n, hops);
  }

  /** A walk that passes through a bridge meets a costlier bridge before or after it: only
      one of the two ports can be the root port, and crossing from the other goes up. */
  lemma CostlierNeighbour(n: Network, before: Hop, at: Hop, after: Hop)
    requires AtRest(n) && Turns(n, before, at) && Turns(n, at, after)
    ensures CostAt(n, at.out) < CostAt(n, before.out) || CostAt(n, at.out) < CostAt(n, after.out)
  {
    PortFacts(n, before.into);
    PortFacts(n, at.out);
    if Speaks(n, at.out) {
      AcrossIsCostlier(n, at.out, at.into);
    } else {
      AcrossIsCostlier(n, before.into, before.out);
    }
  }

  lemma NoLoopAtRest(n: Network, hops: seq<Hop>)
    requires AtRest(n)
    ensures !Loop(n, hops)
  {
    if Loop(n, hops) {
      var k := CostliestHop(n, hops, |hops|);
      var before := if k == 0 then |hops| - 1 else k - 1;
      var after := if k + 1 < |hops| then k + 1 else 0;
      assert TurnsAt(n, hops, before) && TurnsAt(n, hops, k);
      CostlierNeighbour(n, hops[before], hops[k], hops[after]);
      assert false;
    }
  }

  // ---------------------------------------------------------------- stability

  /** Same identities, roles, recorded vectors and port states. */
  predicate Kept(s: Bridge, t: Bridge) {
    && t.bridgeId == s.bridgeId && t.designatedRoot == s.designatedRoot
    && t.rootPathCost == s.rootPathCost && t.rootPort == s.rootPort
    && |t.ports| == |s.ports|
    && forall i :: 0 <= i < |s.ports| ==> KeptPort(s.ports[i], t.ports[i])
  }

  predicate KeptPort(p: Port, q: Port) { SameVector(p, q) && p.state == q.state }

  lemma KeptTransitive(s: Bridge, t: Bridge, u: Bridge)
    requires Kept(s, t) && Kept(t, u)
    ensures Kept(s, u)
  {
    forall i | 0 <= i < |s.ports| ensures KeptPort(s.ports[i], u.ports[i]) {
      assert KeptPort(s.ports[i], t.ports[i]) && KeptPort(t.ports[i], u.ports[i]);
    }
  }

  lemma QuietKeeps(s: Bridge, t: Bridge)
    requires Quiet(s, t)
    ensures Kept(s, t)
  {
    forall i | 0 <= i < |s.ports| ensures KeptPort(s.ports[i], t.ports[i]) {
      assert QuietPort(s.bridgeId, s.ports[i], t.ports[i]);
    }
  }

  /** Configuration update leaves a settled bridge as it is. */
  lemma SettledIsFixedPoint(s: Bridge)
    requires Inv(s)
    ensures ConfigurationUpdate(s) == s
  {
    SettledRootIsFixed(s);
    SettledRolesAreFixed(s);
  }

  lemma SettledRootIsFixed(s: Bridge)
    requires Ready(s) && RootSettled(s)
    ensures RootSelection(s) == s
  {
    ReadyNumbered(s);
    BestRootSelects(s.bridgeId, s.ports, |s.ports|);
    SelectsUnique(s.bridgeId, s.ports, Below(|s.ports|), s.rootPort, BestRoot(s.bridgeId, s.ports, |s.ports|));
  }

  lemma SettledRolesAreFixed(s: Bridge)
    requires forall i :: 0 <= i < |s.ports| ==> PortSettled(s, i)
    ensures DesignatedPortSelection(s) == s
  {
    var t := DesignatedPortSelection(s);
    forall j | 0 <= j < |s.ports| ensures t.ports[j] == s.ports[j] {
      assert PortSettled(s, j);
    }
    assert t.ports == s.ports;
  }

  lemma SettledPortKeepsState(s: Bridge, i: nat)
    requires i < |s.ports| && PortSettled(s, i)
    ensures KeptPort(s.ports[i], SelectState(s, i))
  {
  }

  /** Selection leaves the roles and states of a settled bridge as they are. */
  lemma ReselectKeeps(s: Bridge)
    requires Inv(s)
    ensures Kept(s, Reselect(s)) && Reselect(s).bridgeMaxAge == s.bridgeMaxAge
  {
    SettledIsFixedPoint(s);
    var t := StateSelection(s);
    forall j | 0 <= j < |s.ports| ensures KeptPort(s.ports[j], t.ports[j]) {
      assert PortSettled(s, j);
      SettledPortKeepsState(s, j);
      assert t.ports[j] == SelectState(s, j);
    }
  }

  /** A port hears again what it already records. */
  predicate Repeats(s: Bridge, i: nat, c: Bpdu)
    requires i < |s.ports|
  {
    var p := s.ports[i];
    && c.Config? && c.messageAge < c.maxAge <= 0xffff
    && c.rootId == p.designatedRoot && c.rootPathCost == p.designatedCost
    && c.bridgeId == p.designatedBridge && c.portId == p.designatedPort
  }

  lemma RecordRepeated(s: Bridge, i: nat, c: Bpdu)
    requires Inv(s) && i < |s.ports| && Enabled(s.ports[i]) && !IsDesignated(s.bridgeId, s.ports[i])
    requires Repeats(s, i, c)
    ensures SupersedesPortInfo(s, s.ports[i], c)
    ensures Kept(s, Record(s, i, c)) && Inv(Record(s, i, c))
  {
    assert PortReady(s, i) && PortSettled(s, i);
    assert !TakesOver(s, s.ports[i]);
    assert Record(s, i, c) == s.(ports := s.ports[i := s.ports[i].(messageAgeTimer := Start(c.messageAge))]);
    ChargedInv(s, i, Start(c.messageAge));
  }

  lemma RepeatedInfoKeeps(s: Bridge, i: nat, c: Bpdu)
    requires Inv(s) && i < |s.ports| && Enabled(s.ports[i]) && !IsDesignated(s.bridgeId, s.ports[i])
    requires Repeats(s, i, c)
    ensures Kept(s, ReceivedConfig(s, i, c)) && Inv(ReceivedConfig(s, i, c))
  {
    var r := Record(s, i, c);
    RecordRepeated(s, i, c);
    assert PortReady(s, i);
    ReceivedConfigInv(s, i, c);
    ReselectKeeps(r);
    var a := Reselect(r);
    KeptTransitive(s, r, a);
    if a.rootPort == Some(i) {
      var d := ConfigGeneration(RecordTimeouts(a, c));
      RelayQuiet(a, c);
      QuietKeeps(a, d);
      KeptTransitive(s, a, d);
    }
  }

  /** What port `y` of a bridge at rest sends about itself. */
  predicate SentBy(n: Network, y: At, c: Bpdu)
    requires Shape(n) && Exists(n, y)
  {
    var s := n.bridges[y.bridge];
    && c.Config? && c.messageAge < c.maxAge <= 0xffff
    && c.rootId == s.designatedRoot && c.rootPathCost == s.rootPathCost
    && c.bridgeId == s.bridgeId && c.portId == PortAt(n, y).portId
  }

  /** Every other port of the LAN already records what its designated port sends. */
  lemma HelloRepeats(n: Network, x: At, y: At, c: Bpdu)
    requires AtRest(n) && Joined(n, x, y) && Speaks(n, y) && x != y && SentBy(n, y, c)
    ensures !Speaks(n, x) && Repeats(n.bridges[x.bridge], x.port, c)
  {
    assert LanAgrees(n, x, y);
    PortFacts(n, y);
    if Speaks(n, x) {
      OneSpeaker(n, x, y);
      assert false;
    }
  }

  /** The config BPDU that designated port `y` sends carries what every port of its LAN
      already records. Hearing it again on port `x` leaves the network at rest, with every
      role, cost and port state as it was. */
  lemma HelloKeepsRest(n: Network, x: At, y: At, c: Bpdu) returns (m: Network)
    requires Quiescent(n) && Joined(n, x, y) && Speaks(n, y) && x != y && SentBy(n, y, c)
    ensures m == n.(bridges := n.bridges[x.bridge := ReceivedConfig(n.bridges[x.bridge], x.port, c)])
    ensures Kept(n.bridges[x.bridge], m.bridges[x.bridge]) && Quiescent(m)
  {
    QuiescentAtRest(n);
    HelloRepeats(n, x, y, c);
    var t := ReceivedConfig(n.bridges[x.bridge], x.port, c);
    RepeatedInfoKeeps(n.bridges[x.bridge], x.port, c);
    m := n.(bridges := n.bridges[x.bridge := t]);
    OneBridgeKept(n, x.bridge, t);
  }

  lemma OneBridgeKept(n: Network, b: nat, t: Bridge)
    requires Quiescent(n) && b < |n.bridges| && Kept(n.bridges[b], t) && Inv(t)
    ensures Quiescent(n.(bridges := n.bridges[b := t]))
  {
    var m := n.(bridges := n.bridges[b := t]);
    forall a | 0 <= a < |n.bridges| ensures Kept(n.bridges[a], m.bridges[a]) {
    }
    KeptLansAgree(n, m);
  }

  /** The bridges of `m` keep roles, vectors and states of those of `n`. */
  predicate AllKept(n: Network, m: Network) {
    && Shape(n) && m.lans == n.lans && |m.bridges| == |n.bridges|
    && forall b :: 0 <= b < |n.bridges| ==> Kept(n.bridges[b], m.bridges[b])
  }

  lemma KeptShape(n: Network, m: Network)
    requires AllKept(n, m)
    ensures Shape(m)
  {
    forall b | 0 <= b < |m.bridges| ensures |m.lans[b]| == |m.bridges[b].ports| {
      assert Kept(n.bridges[b], m.bridges[b]);
    }
  }

  lemma KeptPortAt(n: Network, m: Network, x: At)
    requires AllKept(n, m) && Shape(m)
    ensures Exists(n, x) == Exists(m, x)
    ensures Exists(n, x) ==>
      && KeptPort(PortAt(n, x), PortAt(m, x)) && LanAt(n, x) == LanAt(m, x)
      && Speaks(n, x) == Speaks(m, x)
  {
    if x.bridge < |n.bridges| {
      assert Kept(n.bridges[x.bridge], m.bridges[x.bridge]);
    }
  }

  lemma KeptServed(n: Network, m: Network, x: At)
    requires AllKept(n, m) && Shape(m) && On(n, x) && On(m, x) && LanServed(n, x)
    ensures LanServed(m, x)
  {
    var y :| On(n, y) && LanAt(n, y) == LanAt(n, x) && Speaks(n, y);
    KeptPortAt(n, m, x);
    KeptPortAt(n, m, y);
  }

  lemma KeptAgrees(n: Network, m: Network, x: At, y: At)
    requires AllKept(n, m) && Shape(m) && On(n, x) && On(n, y) && LanAgrees(n, x, y)
    requires On(m, x) && On(m, y)
    ensures LanAgrees(m, x, y)
  {
    KeptPortAt(n, m, x);
    KeptPortAt(n, m, y);
  }

  /** A network whose bridges keep roles, vectors and states still agrees on every LAN. */
  lemma KeptLansAgree(n: Network, m: Network)
    requires LansAgree(n) && AllKept(n, m)
    ensures LansAgree(m)
  {
    KeptShape(n, m);
    forall x | On(m, x) ensures On(n, x) && LanServed(m, x) {
      KeptPortAt(n, m, x);
      KeptServed(n, m, x);
    }
    forall x, y | On(m, x) && On(m, y) ensures LanAgrees(m, x, y) {
      KeptAgrees(n, m, x, y);
    }
    forall a, b | 0 <= a < |m.bridges| && 0 <= b < |m.bridges| && m.bridges[a].bridgeId == m.bridges[b].bridgeId
      ensures a == b
    {
      assert Kept(n.bridges[a], m.bridges[a]) && Kept(n.bridges[b], m.bridges[b]);
    }
  }
}

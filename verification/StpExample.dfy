/** Short runs from new bridges: one that brings two bridges on a LAN to rest, and others that
    show where a promise of the protocol fails. */
module StpExample {
  import opened Wrappers
  import opened StpModel
  import opened StpSelection
  import opened StpInvariant
  import opened StpSteps
  import opened StpNetwork
  import StpPriority
  import opened StpMessageAge
  import StpHello
  import StpSending
  import StpTopology
  import StpSettings

  predicate AllOff(s: Bridge) { |s.ports| == MAX_PORTS && forall i :: 0 <= i < |s.ports| ==> !Enabled(s.ports[i]) }

  predicate OnlyFirstOn(s: Bridge) {
    |s.ports| == MAX_PORTS && Enabled(s.ports[0]) && forall i :: 0 < i < |s.ports| ==> !Enabled(s.ports[i])
  }

  lemma CreateFacts(id: nat)
    requires id >= 0x1_0000_0000_0000
    ensures var s := Create(false, id); Inv(s) && AllOff(s) && s.bridgeId == id
  {
    CreateInv(false, id);
    var s := Create(false, id);
    forall i | 0 <= i < |s.ports| ensures !Enabled(s.ports[i]) { assert s.ports[i] == NewPort(i, s.bridgeId); }
  }

  /** A bridge with one enabled port, of whose LAN it is the designated bridge. */
  predicate Alone(s: Bridge) {
    && OnlyFirstOn(s) && s.designatedRoot == s.bridgeId && s.rootPathCost == 0
    && IsDesignated(s.bridgeId, s.ports[0]) && s.ports[0].designatedRoot == s.bridgeId && s.ports[0].designatedCost == 0
    && s.ports[0].state != Blocking
  }

  lemma EnableFirst(s: Bridge)
    requires Inv(s) && AllOff(s)
    ensures var t := PortEnable(s, 0); Inv(t) && Alone(t) && t.bridgeId == s.bridgeId
  {
    PortEnableInv(s, 0);
    NoRoot(s);
    EnabledAlone(s);
  }

  lemma EnabledAlone(s: Bridge)
    requires AllOff(s) && s.rootPort.None? && s.designatedRoot == s.bridgeId && s.rootPathCost == 0
    ensures Alone(PortEnable(s, 0)) && PortEnable(s, 0).bridgeId == s.bridgeId
  {
    var u, t := InitializePort(s, 0, Blocking), PortEnable(s, 0);
    forall i | 0 <= i < |s.ports| ensures t.ports[i] == SelectState(u, i) { }
  }

  lemma NoRoot(s: Bridge)
    requires Inv(s) && AllOff(s)
    ensures s.rootPort.None? && s.designatedRoot == s.bridgeId && s.rootPathCost == 0
  {
  }

  /** What a bridge without a root port says on its first port. */
  function Hello(s: Bridge): Bpdu
    requires |s.ports| > 0
  {
    Config(s.designatedRoot, s.rootPathCost, s.bridgeId, s.ports[0].portId, 0, 0x1400, 0x200, 0xf00, false, false)
  }

  /** Recording a better root on the only port makes it the root port, with the information recorded. */
  lemma FollowsUpdate(r: Bridge)
    requires OnlyFirstOn(r) && r.ports[0].pathCost >= 1 && r.ports[0].designatedCost == 0
    requires r.ports[0].designatedRoot == r.ports[0].designatedBridge < r.bridgeId
    ensures var u := ConfigurationUpdate(r);
      u.ports[0] == r.ports[0] && OnlyFirstOn(u) && u.rootPort == Some(0) && u.bridgeId == r.bridgeId
  {
    OnlyCandidate(r, |r.ports|);
  }

  lemma FollowsState(u: Bridge)
    requires OnlyFirstOn(u) && u.rootPort == Some(0)
    ensures var t := StateSelection(u);
      && OnlyFirstOn(t) && t.bridgeId == u.bridgeId && t.rootPort == Some(0) && t.ports[0].state != Blocking
      && SameInfo(t.ports[0], u.ports[0])
  {
    var t := StateSelection(u);
    forall i | 0 <= i < |u.ports| ensures t.ports[i] == SelectState(u, i) { }
  }

  /** Bridge `t` follows what `c` says on its first port. */
  predicate Following(t: Bridge, id: nat, c: Bpdu) {
    && OnlyFirstOn(t) && t.bridgeId == id && t.rootPort == Some(0) && t.ports[0].state != Blocking && c.Config?
    && t.ports[0].designatedRoot == c.rootId && t.ports[0].designatedCost == c.rootPathCost
    && t.ports[0].designatedBridge == c.bridgeId && t.ports[0].designatedPort == c.portId
  }

  /** The other bridge follows: its port to the LAN becomes its root port. */
  lemma Follows(s: Bridge, c: Bpdu)
    requires Inv(s) && Alone(s) && c.Config? && c.messageAge < c.maxAge <= 0xffff && c.rootPathCost == 0
    requires c.rootId == c.bridgeId < s.bridgeId
    ensures var t := ReceivedConfig(s, 0, c); Inv(t) && Following(t, s.bridgeId, c)
  {
    var r := Record(s, 0, c);
    ReceivedConfigInv(s, 0, c);
    assert PortReady(s, 0);
    FollowsUpdate(r);
    FollowsState(ConfigurationUpdate(r));
    AcceptAlike(s, 0, c);
    AlikeFollows(Reselect(r), Accept(s, 0, c), s.bridgeId, c);
  }

  lemma AlikeFollows(s: Bridge, t: Bridge, id: nat, c: Bpdu)
    requires Alike(s, t) && Following(s, id, c)
    ensures Following(t, id, c)
  {
    assert AlikePort(s, t, 0);
    AlikeOnlyFirst(s, t);
  }

  /** The same roles, states and information. */
  predicate AlikePort(s: Bridge, t: Bridge, i: nat)
    requires i < |s.ports| && i < |t.ports|
  {
    SameVector(s.ports[i], t.ports[i]) && s.ports[i].state == t.ports[i].state
  }

  predicate Alike(s: Bridge, t: Bridge) {
    && t.bridgeId == s.bridgeId && t.rootPort == s.rootPort && |t.ports| == |s.ports|
    && forall i :: 0 <= i < |s.ports| ==> AlikePort(s, t, i)
  }

  /** What a bridge does about new information after it has selected anew changes no role. */
  lemma AcceptAlike(s: Bridge, i: nat, c: Bpdu)
    requires i < |s.ports| && c.Config? && c.maxAge <= 0xffff && s.bridgeMaxAge <= 0xffff
    ensures Alike(Reselect(Record(s, i, c)), Accept(s, i, c))
  {
    var a := Reselect(Record(s, i, c));
    var b := if !IsRoot(a) && IsRoot(s) then StepDown(a) else a;
    SamePortsAlike(a, b, b);
    if b.rootPort == Some(i) {
      RelayAlike(b, c);
      SamePortsAlike(a, b, Relay(b, c));
    }
  }

  lemma SamePortsAlike(a: Bridge, b: Bridge, t: Bridge)
    requires b.ports == a.ports && b.bridgeId == a.bridgeId && b.rootPort == a.rootPort && (t == b || Alike(b, t))
    ensures Alike(a, t)
  {
    forall i | 0 <= i < |a.ports| ensures AlikePort(a, t, i) {
      assert t == b || AlikePort(b, t, i);
    }
  }

  lemma RelayAlike(s: Bridge, c: Bpdu)
    requires c.Config? && c.maxAge <= 0xffff && s.bridgeMaxAge <= 0xffff && RootPortInRange(s)
    ensures Alike(s, Relay(s, c))
  {
    RelayQuiet(s, c);
    var d, t := ConfigGeneration(RecordTimeouts(s, c)), Relay(s, c);
    forall i | 0 <= i < |s.ports| ensures AlikePort(s, t, i) {
      assert QuietPort(s.bridgeId, s.ports[i], d.ports[i]);
    }
  }

  lemma AlikeOnlyFirst(s: Bridge, t: Bridge)
    requires Alike(s, t) && OnlyFirstOn(s)
    ensures OnlyFirstOn(t)
  {
    assert AlikePort(s, t, 0);
    forall i | 0 < i < |t.ports| ensures !Enabled(t.ports[i]) { assert AlikePort(s, t, i); }
  }

  lemma {:induction false} OnlyCandidate(s: Bridge, n: nat)
    requires 0 < n <= |s.ports| && Candidate(s.bridgeId, s.ports[0])
    requires forall i :: 0 < i < |s.ports| ==> !Candidate(s.bridgeId, s.ports[i])
    ensures BestRoot(s.bridgeId, s.ports, n) == Some(0)
  {
    if n > 1 { OnlyCandidate(s, n - 1); }
  }

  /** The first ports of two bridges share a LAN. */
  function Pair(a: Bridge, b: Bridge): Network {
    Network([a, b], [seq(|a.ports|, i => 2 * i), seq(|b.ports|, i => if i == 0 then 0 else 2 * i + 1)])
  }

  lemma PairOn(a: Bridge, b: Bridge, x: At)
    requires OnlyFirstOn(a) && OnlyFirstOn(b) && On(Pair(a, b), x)
    ensures x == At(0, 0) || x == At(1, 0)
  {
  }

  lemma PairServed(a: Bridge, b: Bridge, x: At)
    requires Alone(a) && OnlyFirstOn(b) && On(Pair(a, b), x)
    ensures LanServed(Pair(a, b), x)
  {
    PairOn(a, b, x);
    assert On(Pair(a, b), At(0, 0)) && Speaks(Pair(a, b), At(0, 0));
  }

  lemma PairAgrees(a: Bridge, b: Bridge, x: At, y: At)
    requires OnlyFirstOn(a) && OnlyFirstOn(b) && SameInfo(b.ports[0], a.ports[0])
    requires On(Pair(a, b), x) && On(Pair(a, b), y)
    ensures LanAgrees(Pair(a, b), x, y)
  {
    PairOn(a, b, x);
    PairOn(a, b, y);
  }

  lemma PairIds(a: Bridge, b: Bridge)
    requires a.bridgeId != b.bridgeId
    ensures var n := Pair(a, b);
      forall x, y | 0 <= x < |n.bridges| && 0 <= y < |n.bridges| ::
        n.bridges[x].bridgeId == n.bridges[y].bridgeId ==> x == y
  {
  }

  lemma PairAllServed(a: Bridge, b: Bridge)
    requires Alone(a) && OnlyFirstOn(b)
    ensures var n := Pair(a, b); forall x {:trigger LanServed(n, x)} :: On(n, x) ==> LanServed(n, x)
  {
    forall x | On(Pair(a, b), x) ensures LanServed(Pair(a, b), x) { PairServed(a, b, x); }
  }

  lemma PairAllAgree(a: Bridge, b: Bridge)
    requires OnlyFirstOn(a) && OnlyFirstOn(b) && SameInfo(b.ports[0], a.ports[0])
    ensures var n := Pair(a, b);
      forall x, y {:trigger LanAgrees(n, x, y)} :: On(n, x) && On(n, y) ==> LanAgrees(n, x, y)
  {
    forall x, y | On(Pair(a, b), x) && On(Pair(a, b), y) ensures LanAgrees(Pair(a, b), x, y) {
      PairAgrees(a, b, x, y);
    }
  }

  lemma PairLansAgree(a: Bridge, b: Bridge)
    requires Alone(a) && OnlyFirstOn(b) && a.bridgeId != b.bridgeId && SameInfo(b.ports[0], a.ports[0])
    ensures LansAgree(Pair(a, b))
  {
    PairIds(a, b);
    PairAllServed(a, b);
    PairAllAgree(a, b);
  }

  lemma PairAtRest(a: Bridge, b: Bridge)
    requires Inv(a) && Alone(a) && Inv(b) && OnlyFirstOn(b) && a.bridgeId != b.bridgeId
    requires SameInfo(b.ports[0], a.ports[0])
    ensures Quiescent(Pair(a, b))
  {
    PairLansAgree(a, b);
  }

  lemma PairConnected(a: Bridge, b: Bridge)
    requires OnlyFirstOn(a) && OnlyFirstOn(b)
    ensures Connected(Pair(a, b))
  {
    var n := Pair(a, b);
    var there, back := [Hop(At(0, 0), At(1, 0))], [Hop(At(1, 0), At(0, 0))];
    assert there[1..] == [] && back[1..] == [];
    forall x, y | 0 <= x < |n.bridges| && 0 <= y < |n.bridges| ensures Reaches(n, x, y) {
      if x == y { assert Path(n, x, [], y); }
      else if x == 0 { assert Path(n, 0, there, 1); }
      else { assert Path(n, 1, back, 0); }
    }
  }

  lemma Started(id: nat) returns (s: Bridge)
    requires id >= 0x1_0000_0000_0000
    ensures Inv(s) && Alone(s) && s.bridgeId == id
  {
    CreateFacts(id);
    EnableFirst(Create(false, id));
    s := PortEnable(Create(false, id), 0);
  }

  /** There is a connected network at rest whose bridges are joined by active ports. */
  lemma RestExists() returns (n: Network)
    ensures |n.bridges| == 2 && Quiescent(n) && Connected(n) && Joined(n, At(0, 0), At(1, 0))
    ensures Active(n, At(0, 0)) && Active(n, At(1, 0)) && IsRootPort(n, At(1, 0))
  {
    var a := Started(0x1_0000_0000_0000);
    var s := Started(0x2_0000_0000_0000);
    Follows(s, Hello(a));
    n := PairUp(a, s.bridgeId, ReceivedConfig(s, 0, Hello(a)));
  }

  lemma PairUp(a: Bridge, id: nat, b: Bridge) returns (n: Network)
    requires Inv(a) && Alone(a) && Inv(b) && Following(b, id, Hello(a)) && a.bridgeId != id
    ensures |n.bridges| == 2 && Quiescent(n) && Connected(n) && Joined(n, At(0, 0), At(1, 0))
    ensures Active(n, At(0, 0)) && Active(n, At(1, 0)) && IsRootPort(n, At(1, 0))
  {
    PairAtRest(a, b);
    PairConnected(a, b);
    n := Pair(a, b);
  }

  // ---------------------------------------------------------------- a free port

  lemma {:induction false} NoCandidate(s: Bridge, n: nat)
    requires n <= |s.ports| && forall i :: 0 <= i < |s.ports| ==> !Candidate(s.bridgeId, s.ports[i])
    ensures BestRoot(s.bridgeId, s.ports, n) == None
  {
    if n > 0 { NoCandidate(s, n - 1); }
  }

  /** The vectors that reselection leaves are those of the configuration update. */
  lemma ReselectVectors(s: Bridge)
    ensures var u, t := ConfigurationUpdate(s), Reselect(s);
      && t.bridgeId == s.bridgeId && t.bridgeMaxAge == s.bridgeMaxAge && t.rootPort == u.rootPort
      && forall i :: 0 <= i < |s.ports| ==>
           SameVector(t.ports[i], u.ports[i]) && (Enabled(t.ports[i]) <==> Enabled(u.ports[i]))
  {
    SelectVectors(ConfigurationUpdate(s));
    UpdateKeeps(s);
  }

  lemma UpdateKeeps(s: Bridge)
    ensures var u := ConfigurationUpdate(s); u.bridgeId == s.bridgeId && u.bridgeMaxAge == s.bridgeMaxAge
  {
  }

  lemma SelectVectors(u: Bridge)
    ensures var t := StateSelection(u);
      && t.bridgeId == u.bridgeId && t.bridgeMaxAge == u.bridgeMaxAge && t.rootPort == u.rootPort
      && forall i :: 0 <= i < |u.ports| ==>
           SameVector(t.ports[i], u.ports[i]) && (Enabled(t.ports[i]) <==> Enabled(u.ports[i]))
  {
    var t := StateSelection(u);
    forall i | 0 <= i < |u.ports| ensures t.ports[i] == SelectState(u, i) { }
  }

  /** A bridge that hears nobody, with a port that costs nothing. */
  predicate FreeAlone(s: Bridge) {
    && OnlyFirstOn(s) && s.ports[0].pathCost == 0 && s.ports[0].designatedRoot == s.bridgeId
    && s.ports[0].portId % 256 == 1 && s.bridgeMaxAge <= 0xffff
  }

  lemma MakeFree(s: Bridge)
    requires Inv(s) && Alone(s)
    ensures var t := PortSetPathCost(s, 0, 0); FreeAlone(t) && t.bridgeId == s.bridgeId && RootPortInRange(t)
  {
    var u := s.(ports := s.ports[0 := s.ports[0].(pathCost := 0)]);
    assert PortReady(s, 0);
    FreeUpdate(u);
    ReselectVectors(u);
  }

  lemma FreeUpdate(u: Bridge)
    requires OnlyFirstOn(u) && u.ports[0].designatedRoot == u.bridgeId
    ensures var t := ConfigurationUpdate(u);
      && OnlyFirstOn(t) && t.ports[0].designatedRoot == u.bridgeId
      && t.ports[0].pathCost == u.ports[0].pathCost && t.ports[0].portId == u.ports[0].portId
  {
    NoCandidate(u, |u.ports|);
  }

  /** The free port becomes the root port, and the bridge's selection designates it as well. */
  lemma FreeSelection(r: Bridge)
    requires OnlyFirstOn(r) && r.ports[0].pathCost == 0 && Candidate(r.bridgeId, r.ports[0])
    requires r.bridgeId < r.ports[0].designatedBridge
    ensures var t := Reselect(r); t.rootPort == Some(0) && IsDesignated(t.bridgeId, t.ports[0])
  {
    OnlyCandidate(r, |r.ports|);
    ReselectVectors(r);
  }

  /** A BPDU of a greater bridge that knows a lesser root. */
  const FAR_ROOT := Config(1, 4, 0x3_0000_0000_0000, 0x8001, 0, 0x1400, 0x200, 0xf00, false, false)

  lemma HearOnFree(s: Bridge)
    requires FreeAlone(s) && 1 < s.bridgeId < 0x3_0000_0000_0000 && RootPortInRange(s)
    ensures var t := ReceivedConfig(s, 0, FAR_ROOT); t.rootPort == Some(0) && IsDesignated(t.bridgeId, t.ports[0])
  {
    var r := Record(s, 0, FAR_ROOT);
    FreeSelection(r);
    AcceptAlike(s, 0, FAR_ROOT);
    assert AlikePort(Reselect(r), Accept(s, 0, FAR_ROOT), 0);
  }

  /** A bridge whose only port is enabled, made free of cost, and then told of a better root
      by a greater bridge: the port ends up both root port and designated. */
  lemma FreePortIsRootAndDesignated()
    ensures
      var s := PortSetPathCost(PortEnable(Create(false, 0x2_0000_0000_0000), 0), 0, 0);
      var t := ReceivedConfig(s, 0, FAR_ROOT);
      t.rootPort == Some(0) && IsDesignated(t.bridgeId, t.ports[0])
  {
    var id := 0x2_0000_0000_0000;
    CreateFacts(id);
    EnableFirst(Create(false, id));
    MakeFree(PortEnable(Create(false, id), 0));
    HearOnFree(PortSetPathCost(PortEnable(Create(false, id), 0), 0, 0));
  }

  // ---------------------------------------------------------------- a change of priority

  /** The port has its first identifier and cost, and has heard nothing. */
  predicate UntouchedPort(s: Bridge, j: nat)
    requires j < |s.ports|
  {
    && s.ports[j].portId == j + 1 + 128 * 256 && s.ports[j].pathCost == 19
    && s.ports[j].designatedRoot == s.bridgeId && s.ports[j].designatedCost == 0
    && IsDesignated(s.bridgeId, s.ports[j])
  }

  predicate Untouched(s: Bridge) {
    && s.bridgeId > 1 && s.designatedRoot == s.bridgeId && s.rootPathCost == 0
    && forall j :: 0 <= j < |s.ports| ==> UntouchedPort(s, j)
  }

  lemma CreateUntouched(id: nat)
    requires id >= 0x1_0000_0000_0000
    ensures Untouched(Create(false, id))
  {
    var s := Create(false, id);
    forall j | 0 <= j < |s.ports| ensures UntouchedPort(s, j) { assert s.ports[j] == NewPort(j, id); }
  }

  lemma EnableUntouched(s: Bridge, i: nat)
    requires Untouched(s) && i < |s.ports| && RootPortInRange(s)
    ensures Untouched(PortEnable(s, i)) && PortEnable(s, i).bridgeId == s.bridgeId
  {
    var u, t := InitializePort(s, i, Blocking), PortEnable(s, i);
    if !Enabled(s.ports[i]) {
      forall j | 0 <= j < |s.ports| ensures UntouchedPort(t, j) {
        assert UntouchedPort(s, j);
        assert t.ports[j] == SelectState(u, j);
      }
    }
  }

  lemma EnableTurnsOn(s: Bridge, i: nat)
    requires i < |s.ports| && RootPortInRange(s)
    ensures forall j :: 0 <= j < |s.ports| ==> (Enabled(PortEnable(s, i).ports[j]) <==> j == i || Enabled(s.ports[j]))
  {
    var u, t := InitializePort(s, i, Blocking), PortEnable(s, i);
    if !Enabled(s.ports[i]) {
      forall j | 0 <= j < |s.ports| ensures t.ports[j] == SelectState(u, j) { }
    }
  }

  /** The first two ports are enabled and no other. */
  predicate TwoOn(s: Bridge) {
    && |s.ports| == MAX_PORTS && Enabled(s.ports[0]) && Enabled(s.ports[1])
    && forall j :: 1 < j < |s.ports| ==> !Enabled(s.ports[j])
  }

  /** The hello of a bridge that is the root. */
  const ROOT_HELLO := Config(1, 0, 1, 1, 0, 0x1400, 0x200, 0xf00, false, false)

  /** The bridge follows the root on its first port, and its second port holds less. */
  ghost predicate HeardOnce(s: Bridge) { Inv(s) && HeardPorts(s) }

  lemma HearFirst(s: Bridge)
    requires Inv(s) && Untouched(s) && TwoOn(s)
    ensures HeardOnce(ReceivedConfig(s, 0, ROOT_HELLO))
  {
    var r := Record(s, 0, ROOT_HELLO);
    ReceivedConfigInv(s, 0, ROOT_HELLO);
    assert UntouchedPort(s, 0) && UntouchedPort(s, 1);
    FirstUpdate(s);
    AcceptAlike(s, 0, ROOT_HELLO);
    HeardFirst(r, Accept(s, 0, ROOT_HELLO));
  }

  /** The part of `HeardOnce` that selection settles. */
  predicate HeardPorts(s: Bridge) {
    && TwoOn(s) && s.bridgeId > 1 && s.rootPort == Some(0)
    && s.ports[0].portId == 128 * 256 + 1 && s.ports[1].portId == 128 * 256 + 2
    && s.ports[0].pathCost == s.ports[1].pathCost == 19
    && s.ports[0].designatedRoot == 1 && s.ports[0].designatedCost == 0
    && s.ports[0].designatedBridge == 1 && s.ports[0].designatedPort == 1
    && (s.ports[1].designatedRoot > 1 || (s.ports[1].designatedRoot == 1 && s.ports[1].designatedCost > 0))
  }

  lemma FirstUpdate(s: Bridge)
    requires Untouched(s) && TwoOn(s)
    ensures HeardPorts(ConfigurationUpdate(Record(s, 0, ROOT_HELLO)))
  {
    var r := Record(s, 0, ROOT_HELLO);
    assert UntouchedPort(s, 0) && UntouchedPort(s, 1);
    forall j | 0 < j < |r.ports| ensures !Candidate(r.bridgeId, r.ports[j]) { assert UntouchedPort(s, j); }
    OnlyCandidate(r, |r.ports|);
  }

  lemma HeardFirst(r: Bridge, t: Bridge)
    requires HeardPorts(ConfigurationUpdate(r)) && Alike(Reselect(r), t)
    ensures HeardPorts(t)
  {
    var a := Reselect(r);
    ReselectVectors(r);
    assert AlikePort(a, t, 0) && AlikePort(a, t, 1);
    forall j | 1 < j < |t.ports| ensures !Enabled(t.ports[j]) {
      assert AlikePort(a, t, j);
    }
  }

  /** Hearing the same on the second port makes twins of the two. */
  lemma HearSecond(s: Bridge)
    requires HeardOnce(s)
    ensures var r := Record(s, 1, ROOT_HELLO);
      && ReceivedConfig(s, 1, ROOT_HELLO) == Reselect(r)
      && StpPriority.Twins(r) && Ready(r) && r.ports[0].portId >= 256
  {
    var r := Record(s, 1, ROOT_HELLO);
    InvMeans(s);
    RecordReady(s, 1, ROOT_HELLO);
    StpPriority.TwinsUpdate(r);
  }

  lemma RunOneMore(s: Bridge, es: seq<Event>, e: Event)
    requires Shaped(s) && (forall k :: 0 <= k < |es| ==> Legal(es[k])) && Legal(e)
    ensures Run(s, es + [e]) == Step(Run(s, es), e)
  {
    assert (es + [e])[..|es|] == es;
  }

  /** One run after another. */
  lemma {:induction false} RunConcat(s: Bridge, es: seq<Event>, fs: seq<Event>)
    requires Shaped(s) && (forall k :: 0 <= k < |es| ==> Legal(es[k])) && (forall k :: 0 <= k < |fs| ==> Legal(fs[k]))
    ensures Run(s, es + fs) == Run(Run(s, es), fs)
  {
    if fs == [] {
      assert es + fs == es;
    } else {
      var front, last := fs[..|fs| - 1], fs[|fs| - 1];
      RunConcat(s, es, front);
      RunOneMore(s, es + front, last);
      assert es + fs == es + front + [last];
    }
  }

  lemma RunOfOne(s: Bridge, e: Event)
    requires Shaped(s) && Legal(e)
    ensures Run(s, [e]) == Step(s, e)
  {
    RunOneMore(s, [], e);
    assert [] + [e] == [e];
  }

  lemma TwoParts<T>(s: seq<T>)
    requires |s| == 2
    ensures s == [s[0]] + [s[1]]
  {
  }

  lemma RunOfTwo(s: Bridge, es: seq<Event>)
    requires Shaped(s) && |es| == 2 && (forall k :: 0 <= k < |es| ==> Legal(es[k]))
    ensures Run(s, es) == Run(Run(s, [es[0]]), [es[1]])
  {
    TwoParts(es);
    RunConcat(s, [es[0]], [es[1]]);
  }

  lemma EnabledOne(s: Bridge)
    requires Inv(s) && Untouched(s) && AllOff(s)
    ensures var a := Run(s, [EEnable(0)]); Inv(a) && Untouched(a) && OnlyFirstOn(a)
  {
    RunOfOne(s, EEnable(0));
    PortEnableInv(s, 0);
    EnableUntouched(s, 0);
    EnableTurnsOn(s, 0);
  }

  lemma EnabledOther(a: Bridge)
    requires Inv(a) && Untouched(a) && OnlyFirstOn(a)
    ensures var b := Run(a, [EEnable(1)]); Inv(b) && Untouched(b) && TwoOn(b)
  {
    RunOfOne(a, EEnable(1));
    PortEnableInv(a, 1);
    EnableUntouched(a, 1);
    EnableTurnsOn(a, 1);
  }

  lemma HeardOne(b: Bridge)
    requires Inv(b) && Untouched(b) && TwoOn(b)
    ensures HeardOnce(Run(b, [EReceiveConfig(0, ROOT_HELLO)]))
  {
    RunOfOne(b, EReceiveConfig(0, ROOT_HELLO));
    HearFirst(b);
  }

  lemma HeardOther(h: Bridge)
    requires HeardOnce(h)
    ensures var t := Run(h, [EReceiveConfig(1, ROOT_HELLO)]); Inv(t) && !Inv(StpPriority.PortSetPriority(t, 1, 0))
  {
    RunOfOne(h, EReceiveConfig(1, ROOT_HELLO));
    HearSecond(h);
    StpPriority.TwinsHarmed(Record(h, 1, ROOT_HELLO));
  }

  predicate EnablesIn(es: seq<Event>, k: nat)
    requires k < |es|
  {
    es[k] == EEnable(k)
  }

  /** The first two ports are enabled. */
  predicate EnablesBoth(es: seq<Event>) {
    && |es| == 2 && (forall k :: 0 <= k < |es| ==> Legal(es[k]))
    && forall k :: 0 <= k < |es| ==> EnablesIn(es, k)
  }

  lemma EnabledBoth(s: Bridge, es: seq<Event>)
    requires Inv(s) && Untouched(s) && AllOff(s) && EnablesBoth(es)
    ensures var b := Run(s, es); Inv(b) && Untouched(b) && TwoOn(b)
  {
    RunOfTwo(s, es);
    assert EnablesIn(es, 0) && EnablesIn(es, 1);
    EnabledOne(s);
    EnabledOther(Run(s, [es[0]]));
  }

  predicate HearsIn(es: seq<Event>, k: nat)
    requires k < |es|
  {
    es[k] == EReceiveConfig(k, ROOT_HELLO)
  }

  /** The first two ports hear the same hello of the root. */
  predicate HearsBoth(es: seq<Event>) {
    && |es| == 2 && (forall k :: 0 <= k < |es| ==> Legal(es[k]))
    && forall k :: 0 <= k < |es| ==> HearsIn(es, k)
  }

  /** The bridge is settled, and its second port's priority unsettles it. */
  ghost predicate Unsettling(t: Bridge) { Inv(t) && !Inv(StpPriority.PortSetPriority(t, 1, 0)) }

  lemma HeardBoth(b: Bridge, es: seq<Event>)
    requires Inv(b) && Untouched(b) && TwoOn(b) && HearsBoth(es)
    ensures Unsettling(Run(b, es))
  {
    RunOfTwo(b, es);
    assert HearsIn(es, 0) && HearsIn(es, 1);
    HeardOne(b);
    HeardOther(Run(b, [es[0]]));
  }

  lemma UnsettledInTwo(s: Bridge, es: seq<Event>, fs: seq<Event>)
    requires Inv(s) && Untouched(s) && AllOff(s) && EnablesBoth(es) && HearsBoth(fs)
    ensures Unsettling(Run(Run(s, es), fs))
  {
    EnabledBoth(s, es);
    HeardBoth(Run(s, es), fs);
  }

  lemma UnsettledFrom(s: Bridge, es: seq<Event>, fs: seq<Event>)
    requires Inv(s) && Untouched(s) && AllOff(s) && EnablesBoth(es) && HearsBoth(fs)
    ensures Unsettling(Run(s, es + fs))
  {
    UnsettledInTwo(s, es, fs);
    RunConcat(s, es, fs);
  }

  /** A new bridge whose first two ports are enabled and hear the root on one LAN is settled,
      and giving the second port the highest priority leaves the wrong root port selected. */
  lemma PriorityUnsettles(id: nat, es: seq<Event>, fs: seq<Event>)
    requires id >= 0x1_0000_0000_0000 && EnablesBoth(es) && HearsBoth(fs)
    ensures Unsettling(Run(Create(false, id), es + fs))
  {
    CreateFacts(id);
    CreateUntouched(id);
    UnsettledFrom(Create(false, id), es, fs);
  }

  // ---------------------------------------------------------------- a root without hellos

  /** What `s` itself would say on its first port if it knew of a root with identifier 0. */
  function OwnEcho(s: Bridge): Bpdu
    requires |s.ports| > 0
  {
    Config(0, 0, s.bridgeId, s.ports[0].portId, 0, 0x1400, 0x200, 0xf00, false, false)
  }

  lemma EchoSilences(s: Bridge)
    requires Inv(s) && OnlyFirstOn(s) && !IsRoot(s) && !s.helloTimer.active && s.ports[0].designatedRoot > 0
    ensures var t := ReceivedConfig(s, 0, OwnEcho(s)); IsRoot(t) && !StpHello.RunsAsRoot(t)
  {
    StpHello.AcceptHelloExact(s, 0, OwnEcho(s));
  }

  lemma FollowerIsSilent(s: Bridge)
    requires Inv(s) && Alone(s) && s.bridgeId > 1
    ensures var t := ReceivedConfig(s, 0, ROOT_HELLO);
      Inv(t) && OnlyFirstOn(t) && !IsRoot(t) && !t.helloTimer.active && t.ports[0].designatedRoot > 0
  {
    Follows(s, ROOT_HELLO);
    InvMeans(ReceivedConfig(s, 0, ROOT_HELLO));
    RecordReady(s, 0, ROOT_HELLO);
    StpHello.AcceptKeeps(s, 0, ROOT_HELLO);
  }

  /** A new bridge that has a port enabled, follows a root and then hears its own word of a
      better root becomes root without saying hello. */
  lemma OwnEchoSilences(id: nat)
    requires id >= 0x1_0000_0000_0000
    ensures
      var s := ReceivedConfig(PortEnable(Create(false, id), 0), 0, ROOT_HELLO);
      var t := ReceivedConfig(s, 0, OwnEcho(s));
      IsRoot(t) && !StpHello.RunsAsRoot(t)
  {
    CreateFacts(id);
    EnableFirst(Create(false, id));
    FollowerIsSilent(PortEnable(Create(false, id), 0));
    EchoSilences(ReceivedConfig(PortEnable(Create(false, id), 0), 0, ROOT_HELLO));
  }

  // ---------------------------------------------------------------- a change nobody is told of

  /** The word of bridge 1 that bridge `id` is the root, at no cost. */
  function FalseWord(id: nat): Bpdu { Config(id, 0, 1, 1, 0, 0x1400, 0x200, 0xf00, false, false) }

  /** A root bridge whose first port holds that word and whose second port is its own. */
  ghost predicate Misled(s: Bridge) {
    && Inv(s) && TwoOn(s) && IsRoot(s) && s.bridgeId > 1 && !s.tcnTimer.active
    && s.ports[0].designatedRoot == s.bridgeId && s.ports[0].designatedBridge == 1
    && IsDesignated(s.bridgeId, s.ports[1])
  }

  lemma MisledIsSilenced(s: Bridge)
    requires Misled(s)
    ensures var u := ReceivedTcn(s, 1);
      Inv(u) && u.topologyChangeDetected && !StpTopology.NoticesRun(SetBridgeId(u, s.bridgeId + 1))
  {
    ReceivedTcnInv(s, 1);
    TcnOnRoot(s, 1);
    StpTopology.NoticeIsAnswered(s, 1);
    var u := ReceivedTcn(s, 1);
    assert Candidate(s.bridgeId + 1, Rename(u, s.bridgeId + 1).ports[0]);
    StpTopology.RenameReportsExactly(u, s.bridgeId + 1);
  }

  lemma TcnOnRoot(s: Bridge, i: nat)
    requires IsRoot(s) && i < |s.ports| && RootPortInRange(s)
    ensures var t := ReceivedTcn(s, i);
      && IsRoot(t) && t.bridgeId == s.bridgeId && t.tcnTimer == s.tcnTimer
      && forall j :: 0 <= j < |s.ports| ==>
           SameVector(t.ports[j], s.ports[j]) && (Enabled(t.ports[j]) <==> Enabled(s.ports[j]))
  {
    var u := TopologyChangeDetection(s);
    var v := u.(ports := u.ports[i := u.ports[i].(topologyChangeAck := true)]);
    StpSending.TransmitOnlySent(v, i);
    forall j | 0 <= j < |s.ports|
      ensures SameVector(ReceivedTcn(s, i).ports[j], s.ports[j])
              && (Enabled(ReceivedTcn(s, i).ports[j]) <==> Enabled(s.ports[j]))
    {
      assert StpSending.PortSentFrom(v, TransmitConfig(v, i), j);
    }
  }

  /** Selection on a bridge that stays root starts no notices. */
  lemma RootSelects(s: Bridge)
    requires Ready(s) && !s.tcnTimer.active
    requires forall j :: 0 <= j < |s.ports| ==> !Candidate(s.bridgeId, s.ports[j])
    ensures var t := Reselect(s); IsRoot(t) && !t.tcnTimer.active && t.rootPort.None?
  {
    StpHello.NoCandidates(s);
  }

  lemma EnabledRoot(s: Bridge, i: nat)
    requires RootPortInRange(s) && i < |s.ports| && IsRoot(s) && !s.tcnTimer.active
    ensures IsRoot(PortEnable(s, i)) && !PortEnable(s, i).tcnTimer.active
  {
  }

  lemma HearFalseWord(s: Bridge)
    requires Inv(s) && Untouched(s) && TwoOn(s) && !s.tcnTimer.active
    ensures Misled(ReceivedConfig(s, 0, FalseWord(s.bridgeId)))
  {
    var c := FalseWord(s.bridgeId);
    assert UntouchedPort(s, 0);
    ReceivedConfigInv(s, 0, c);
    FalseWordSelects(s);
    assert ReceivedConfig(s, 0, c) == Reselect(Record(s, 0, c));
  }

  lemma FalseWordSelects(s: Bridge)
    requires Inv(s) && Untouched(s) && TwoOn(s) && !s.tcnTimer.active
    ensures var t := Reselect(Record(s, 0, FalseWord(s.bridgeId)));
      && TwoOn(t) && IsRoot(t) && t.bridgeId == s.bridgeId && !t.tcnTimer.active && t.rootPort.None?
      && t.ports[0].designatedRoot == t.bridgeId && t.ports[0].designatedBridge == 1
      && IsDesignated(t.bridgeId, t.ports[1])
  {
    var r := Record(s, 0, FalseWord(s.bridgeId));
    assert UntouchedPort(s, 1);
    RecordReady(s, 0, FalseWord(s.bridgeId));
    StpHello.RootHasNoCandidates(s);
    RootSelects(r);
    StpHello.NoCandidates(r);
    FalseWordKept(s, r);
    ReselectVectors(r);
  }

  lemma FalseWordKept(s: Bridge, r: Bridge)
    requires TwoOn(s) && s.bridgeId > 1 && UntouchedPort(s, 1)
    requires r == Record(s, 0, FalseWord(s.bridgeId)) && RootSelection(r).rootPort.None?
    ensures var u := ConfigurationUpdate(r);
      && TwoOn(u) && u.ports[0] == r.ports[0] && IsDesignated(u.bridgeId, u.ports[1]) && u.bridgeId == s.bridgeId
  {
    var a := RootSelection(r);
    assert a.ports == r.ports && a.designatedRoot == s.bridgeId && a.rootPathCost == 0 && a.bridgeId == s.bridgeId;
    assert !TakesOver(a, r.ports[0]) && TakesOver(a, r.ports[1]);
  }

  /** Two ports of a bridge that has heard nobody are enabled. */
  lemma BothOn(s: Bridge)
    requires Inv(s) && Untouched(s) && AllOff(s) && !s.tcnTimer.active
    ensures var b := PortEnable(PortEnable(s, 0), 1);
      Inv(b) && Untouched(b) && TwoOn(b) && !b.tcnTimer.active && b.bridgeId == s.bridgeId
  {
    var a := PortEnable(s, 0);
    OneOn(s);
    PortEnableInv(a, 1);
    EnableUntouched(a, 1);
    EnableTurnsOn(a, 1);
    EnabledRoot(a, 1);
  }

  lemma OneOn(s: Bridge)
    requires Inv(s) && Untouched(s) && AllOff(s) && !s.tcnTimer.active
    ensures var a := PortEnable(s, 0);
      Inv(a) && Untouched(a) && OnlyFirstOn(a) && !a.tcnTimer.active && a.bridgeId == s.bridgeId
  {
    PortEnableInv(s, 0);
    EnableUntouched(s, 0);
    EnableTurnsOn(s, 0);
    EnabledRoot(s, 0);
  }

  predicate ReachedBy(s: Bridge, t: Bridge, es: seq<Event>)
    requires Shaped(s)
  {
    Lawful(es) && t == Run(s, es)
  }

  predicate Lawful(es: seq<Event>) { forall k :: 0 <= k < |es| ==> Legal(es[k]) }

  lemma LawfulMore(es: seq<Event>, e: Event)
    requires Lawful(es) && Legal(e)
    ensures Lawful(es + [e])
  {
  }

  /** The bridge after some run of a new bridge. */
  ghost predicate Reached(t: Bridge) { exists big, id, es :: ReachedBy(Create(big, id), t, es) }

  lemma ReachedByStep(s: Bridge, t: Bridge, es: seq<Event>, e: Event)
    requires Shaped(s) && ReachedBy(s, t, es) && Legal(e)
    ensures Shaped(t) && ReachedBy(s, Step(t, e), es + [e])
  {
    LawfulMore(es, e);
    RunOneMore(s, es, e);
  }

  lemma ReachedStep(s: Bridge, e: Event)
    requires Reached(s) && Legal(e)
    ensures Shaped(s) && Reached(Step(s, e))
  {
    var big, id, es :| ReachedBy(Create(big, id), s, es);
    ReachedByStep(Create(big, id), s, es, e);
  }

  lemma ReachedNew(id: nat)
    ensures Reached(Create(false, id))
  {
    assert ReachedBy(Create(false, id), Create(false, id), []);
  }

  /** A new bridge with two ports enabled. */
  lemma TwoPorts(id: nat) returns (b: Bridge)
    requires id >= 0x1_0000_0000_0000
    ensures Reached(b) && Inv(b) && Untouched(b) && TwoOn(b) && !b.tcnTimer.active && b.bridgeId == id
  {
    var s := Create(false, id);
    CreateFacts(id);
    CreateUntouched(id);
    ReachedNew(id);
    b := ReachedOn(s);
  }

  lemma ReachedOn(s: Bridge) returns (b: Bridge)
    requires Reached(s) && Inv(s) && Untouched(s) && AllOff(s) && !s.tcnTimer.active
    ensures Reached(b) && Inv(b) && Untouched(b) && TwoOn(b) && !b.tcnTimer.active && b.bridgeId == s.bridgeId
  {
    BothOn(s);
    ReachedStep(s, EEnable(0));
    ReachedStep(PortEnable(s, 0), EEnable(1));
    b := PortEnable(PortEnable(s, 0), 1);
  }

  lemma ReachedMisled(b: Bridge) returns (s: Bridge)
    requires Reached(b) && Inv(b) && Untouched(b) && TwoOn(b) && !b.tcnTimer.active
    ensures Reached(s) && Misled(s)
  {
    HearFalseWord(b);
    ReachedStep(b, EReceiveConfig(0, FalseWord(b.bridgeId)));
    s := ReceivedConfig(b, 0, FalseWord(b.bridgeId));
  }

  /** A new bridge with two ports enabled is told that it is root by a bridge of its LAN, gets
      a notice on the other port, and then takes the next greater identifier: it follows that
      bridge and has noticed a change, but reports none. */
  lemma RenameSilences(id: nat) returns (u: Bridge)
    requires id >= 0x1_0000_0000_0000
    ensures Reached(u) && Inv(u) && StpTopology.NoticesRun(u) && u.topologyChangeDetected
    ensures !StpTopology.NoticesRun(SetBridgeId(u, u.bridgeId + 1))
  {
    var b := TwoPorts(id);
    var s := ReachedMisled(b);
    u := ReachedSilenced(s);
  }

  lemma ReachedSilenced(s: Bridge) returns (u: Bridge)
    requires Reached(s) && Misled(s)
    ensures Reached(u) && Inv(u) && StpTopology.NoticesRun(u) && u.topologyChangeDetected
    ensures !StpTopology.NoticesRun(SetBridgeId(u, u.bridgeId + 1))
  {
    MisledIsSilenced(s);
    TcnOnRoot(s, 1);
    ReachedStep(s, EReceiveTcn(1));
    u := ReceivedTcn(s, 1);
  }
}

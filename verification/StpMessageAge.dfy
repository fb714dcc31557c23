/** Where config BPDUs come from. A bridge that is not the root only passes on what it
    heard, one tick older; so in a network in which no BPDU is forged, every BPDU goes back
    to one sent by the root it names, over fewer hops than its max age. */
module StpMessageAge {
  import opened Wrappers
  import opened StpModel
  import opened StpSelection
  import opened StpInvariant
  import opened StpSteps

  // ---------------------------------------------------------------- one bridge

  /** The port holds information heard from some other port. */
  predicate Informed(s: Bridge, i: nat)
    requires i < |s.ports|
  {
    Enabled(s.ports[i]) && !IsDesignated(s.bridgeId, s.ports[i])
  }

  /** What port `i` still holds it held before, and it has not become younger. */
  predicate Older(s: Bridge, t: Bridge, i: nat)
    requires i < |s.ports| && i < |t.ports|
  {
    Informed(t, i) ==>
      && Informed(s, i) && SameInfo(s.ports[i], t.ports[i])
      && s.ports[i].messageAgeTimer.value <= t.ports[i].messageAgeTimer.value
  }

  /** BPDU `m` is the bridge's own claim to be root. */
  predicate OwnClaim(m: Bpdu)
    requires m.Config?
  {
    m.bridgeId == m.rootId && m.messageAge == 0
  }

  /** BPDU `m` passes on what port `i` holds, older and costlier. */
  predicate PassesOn(s: Bridge, i: nat, m: Bpdu)
    requires i < |s.ports| && m.Config?
  {
    && Informed(s, i) && s.ports[i].designatedRoot == m.rootId
    && s.ports[i].messageAgeTimer.value + 1 <= m.messageAge
    && s.ports[i].designatedCost < m.rootPathCost
  }

  /** Every config BPDU leaves younger than its max age, and says nothing the bridge has
      not heard. */
  ghost predicate Founded(s: Bridge, m: Bpdu) {
    m.Config? ==>
      && m.messageAge < m.maxAge
      && (OwnClaim(m) || exists i :: 0 <= i < |s.ports| && PassesOn(s, i, m))
  }

  /** From `s` to `t` information only ages or goes, and every BPDU sent is founded on `s`. */
  ghost predicate Evolves(s: Bridge, t: Bridge) {
    && |t.ports| == |s.ports|
    && (forall i :: 0 <= i < |s.ports| ==> Older(s, t, i))
    && |s.sent| <= |t.sent| && t.sent[..|s.sent|] == s.sent
    && (forall k :: |s.sent| <= k < |t.sent| ==> Founded(s, t.sent[k].bpdu))
  }

  /** From `s` to the settled bridge `u` information only ages or goes. */
  ghost predicate EvolvesTo(s: Bridge, u: Bridge) { Evolves(s, u) && Inv(u) }

  lemma FoundedEarlier(s: Bridge, t: Bridge, m: Bpdu)
    requires Evolves(s, t) && Founded(t, m)
    ensures Founded(s, m)
  {
    if m.Config? && !OwnClaim(m) {
      var i :| 0 <= i < |t.ports| && PassesOn(t, i, m);
      assert Older(s, t, i);
      assert PassesOn(s, i, m);
    }
  }

  lemma EvolvesTransitive(s: Bridge, t: Bridge, u: Bridge)
    requires Evolves(s, t) && Evolves(t, u)
    ensures Evolves(s, u)
  {
    forall i | 0 <= i < |s.ports| ensures Older(s, u, i) {
      assert Older(s, t, i) && Older(t, u, i);
    }
    assert u.sent[..|s.sent|] == u.sent[..|t.sent|][..|s.sent|];
    forall k | |s.sent| <= k < |u.sent| ensures Founded(s, u.sent[k].bpdu) {
      if k < |t.sent| {
        assert u.sent[k] == u.sent[..|t.sent|][k];
      } else {
        FoundedEarlier(s, t, u.sent[k].bpdu);
      }
    }
  }

  /** Steps that send nothing but topology change notifications. */
  lemma SilentEvolves(s: Bridge, t: Bridge)
    requires |t.ports| == |s.ports| && forall i :: 0 <= i < |s.ports| ==> Older(s, t, i)
    requires t.sent == s.sent || exists r :: t.sent == s.sent + [Sent(r, Tcn)]
    ensures Evolves(s, t)
  {
  }

  /** A config BPDU of a settled bridge is founded, and its age fits its field. */
  lemma ConfigFounded(s: Bridge, i: nat)
    requires Inv(s) && i < |s.ports|
    requires SentAge(s) < s.maxAge
    ensures Founded(s, ConfigOn(s, i))
    ensures !IsRoot(s) ==>
      s.rootPort.Some? && SentAge(s) == s.ports[s.rootPort.value].messageAgeTimer.value + 1 < 0x1_0000
  {
    InvMeans(s);
    if s.rootPort.Some? {
      assert PortReady(s, s.rootPort.value);
      assert PassesOn(s, s.rootPort.value, ConfigOn(s, i));
    }
  }

  lemma SendEvolves(s: Bridge, t: Bridge, x: Sent)
    requires |t.ports| == |s.ports| && forall i :: 0 <= i < |s.ports| ==> Older(s, t, i)
    requires t.sent == s.sent + [x] && Founded(s, x.bpdu)
    ensures Evolves(s, t)
  {
  }

  lemma TransmitOlder(s: Bridge, i: nat)
    requires i < |s.ports| && RootPortInRange(s)
    ensures forall j :: 0 <= j < |s.ports| ==> Older(s, TransmitConfig(s, i), j)
  {
  }

  lemma TransmitEvolves(s: Bridge, i: nat)
    requires Inv(s) && i < |s.ports|
    ensures Evolves(s, TransmitConfig(s, i))
  {
    TransmitOlder(s, i);
    var t := TransmitConfig(s, i);
    if t.sent == s.sent {
      SilentEvolves(s, t);
    } else {
      ConfigFounded(s, i);
      SendEvolves(s, t, Sent(i, ConfigOn(s, i)));
    }
  }

  lemma GenerateOneMore(s: Bridge, n: nat)
    requires Inv(s) && n < |s.ports| && Evolves(s, GenerateUpTo(s, n)) && Inv(GenerateUpTo(s, n))
    ensures Evolves(s, GenerateUpTo(s, n + 1)) && Inv(GenerateUpTo(s, n + 1))
  {
    var u := GenerateUpTo(s, n);
    if Enabled(u.ports[n]) && IsDesignated(u.bridgeId, u.ports[n]) {
      TransmitEvolves(u, n);
      EvolvesTransitive(s, u, TransmitConfig(u, n));
      TransmitQuiet(u, n);
      QuietInv(u, TransmitConfig(u, n));
    }
  }

  lemma {:induction false} GenerateEvolves(s: Bridge, n: nat)
    requires Inv(s) && n <= |s.ports|
    ensures Evolves(s, GenerateUpTo(s, n)) && Inv(GenerateUpTo(s, n))
  {
    if n == 0 {
      SilentEvolves(s, s);
    } else {
      GenerateEvolves(s, n - 1);
      GenerateOneMore(s, n - 1);
    }
  }

  lemma DetectionEvolves(s: Bridge)
    ensures Evolves(s, TopologyChangeDetection(s))
  {
    SilentEvolves(s, TopologyChangeDetection(s));
  }

  lemma ConfigurationUpdateEvolves(s: Bridge)
    requires Ready(s)
    ensures Evolves(s, ConfigurationUpdate(s))
  {
    var t := ConfigurationUpdate(s);
    forall i | 0 <= i < |s.ports| ensures Older(s, t, i) {
      assert PortReady(s, i);
      UpdatedPort(s, i);
    }
    SilentEvolves(s, t);
  }

  lemma StateSelectionEvolves(s: Bridge)
    ensures Evolves(s, StateSelection(s))
  {
    var t := s.(ports := seq(|s.ports|, i requires 0 <= i < |s.ports| => SelectState(s, i)));
    forall i | 0 <= i < |s.ports| ensures Older(s, t, i) {
      assert t.ports[i] == SelectState(s, i);
    }
    SilentEvolves(s, t);
    DetectionEvolves(t);
    EvolvesTransitive(s, t, TopologyChangeDetection(t));
  }

  lemma ReselectEvolves(s: Bridge)
    requires Ready(s)
    ensures Evolves(s, Reselect(s))
  {
    ConfigurationUpdateEvolves(s);
    StateSelectionEvolves(ConfigurationUpdate(s));
    EvolvesTransitive(s, ConfigurationUpdate(s), Reselect(s));
  }

  lemma OwnTimesEvolves(s: Bridge, c: Bridge)
    requires Inv(s)
    requires c == TopologyChangeDetection(OwnTimes(s)).(tcnTimer := c.tcnTimer)
    ensures EvolvesTo(s, c)
  {
    SilentEvolves(s, c);
    SamePortsQuiet(s, c);
    QuietInv(s, c);
  }

  lemma BecomeRootEvolves(s: Bridge)
    requires Inv(s)
    ensures Evolves(s, BecomeRootBridge(s))
  {
    var b := TopologyChangeDetection(OwnTimes(s));
    var c := b.(tcnTimer := Stop(b.tcnTimer));
    OwnTimesEvolves(s, c);
    GenerateEvolves(c, |c.ports|);
    EvolvesTransitive(s, c, ConfigGeneration(c));
    SilentEvolves(ConfigGeneration(c), BecomeRootBridge(s));
    EvolvesTransitive(s, ConfigGeneration(c), BecomeRootBridge(s));
  }

  lemma ReselectAsRootEvolves(s: Bridge, wasRoot: bool)
    requires Ready(s)
    ensures Evolves(s, ReselectAsRoot(s, wasRoot))
  {
    ReselectEvolves(s);
    ReselectSettles(s);
    var u := Reselect(s);
    if IsRoot(u) && !wasRoot {
      BecomeRootEvolves(u);
      EvolvesTransitive(s, u, BecomeRootBridge(u));
    }
  }

  lemma RelayEvolves(s: Bridge, c: Bpdu)
    requires Inv(s) && c.Config? && c.maxAge <= 0xffff
    ensures Evolves(s, Relay(s, c))
  {
    var d := RecordTimeouts(s, c);
    SilentEvolves(s, d);
    SamePortsQuiet(s, d);
    QuietInv(s, d);
    GenerateEvolves(d, |d.ports|);
    var g := ConfigGeneration(d);
    EvolvesTransitive(s, d, g);
    SilentEvolves(g, Relay(s, c));
    EvolvesTransitive(s, g, Relay(s, c));
  }

  /** After the new information is recorded, accepting it only passes it on. */
  lemma AcceptEvolves(s: Bridge, i: nat, c: Bpdu)
    requires Inv(s) && i < |s.ports| && Enabled(s.ports[i])
    requires c.Config? && c.messageAge < c.maxAge <= 0xffff && c.rootPathCost < COST_LIMIT
    ensures Evolves(Record(s, i, c), Accept(s, i, c))
  {
    var r := Record(s, i, c);
    RecordReady(s, i, c);
    ReselectEvolves(r);
    ReselectSettles(r);
    var a := Reselect(r);
    var b := if !IsRoot(a) && IsRoot(s) then StepDown(a) else a;
    SilentEvolves(a, b);
    SamePortsQuiet(a, b);
    QuietInv(a, b);
    EvolvesTransitive(r, a, b);
    if b.rootPort == Some(i) {
      RelayEvolves(b, c);
      EvolvesTransitive(r, b, Relay(b, c));
    }
  }

  lemma ReceivedTcnEvolves(s: Bridge, i: nat)
    requires Inv(s) && i < |s.ports|
    ensures Evolves(s, ReceivedTcn(s, i))
  {
    SilentEvolves(s, s);
    if Enabled(s.ports[i]) && IsDesignated(s.bridgeId, s.ports[i]) {
      var u := TopologyChangeDetection(s);
      var v := u.(ports := u.ports[i := u.ports[i].(topologyChangeAck := true)]);
      AckEvolves(s, i, v);
      TransmitEvolves(v, i);
      EvolvesTransitive(s, v, TransmitConfig(v, i));
    }
  }

  lemma AckEvolves(s: Bridge, i: nat, v: Bridge)
    requires Inv(s) && i < |s.ports| && Enabled(s.ports[i]) && IsDesignated(s.bridgeId, s.ports[i])
    requires v == TopologyChangeDetection(s).(ports := s.ports[i := s.ports[i].(topologyChangeAck := true)])
    ensures EvolvesTo(s, v)
  {
    PortEvolves(s, v, i, v.ports[i]);
    assert Quiet(s, v);
    QuietInv(s, v);
  }

  lemma AgePortEvolves(s: Bridge, elapsed: nat, i: nat)
    requires Inv(s) && i < |s.ports|
    ensures Evolves(s, AgePort(s, elapsed, i))
  {
    var p := s.ports[i];
    var u := s.(ports := s.ports[i := p.(messageAgeTimer := Charge(p.messageAgeTimer, elapsed, s.maxAge))]);
    SilentEvolves(s, s);
    SilentEvolves(s, u);
    if Enabled(p) && Expires(p.messageAgeTimer, elapsed, s.maxAge) {
      var v := BecomeDesignated(u, i);
      SilentEvolves(s, v);
      AgedOutReady(s, elapsed, i);
      ReselectAsRootEvolves(v, IsRoot(u));
      EvolvesTransitive(s, v, MessageAgeExpiry(u, i));
    }
  }

  lemma AgeOneMore(s: Bridge, u: Bridge, elapsed: nat, n: nat)
    requires EvolvesTo(s, u) && n < |u.ports|
    ensures EvolvesTo(s, AgePort(u, elapsed, n))
  {
    AgePortInv(u, elapsed, n);
    AgePortEvolves(u, elapsed, n);
    EvolvesTransitive(s, u, AgePort(u, elapsed, n));
  }

  lemma {:induction false} AgePortsEvolves(s: Bridge, elapsed: nat, n: nat)
    requires Inv(s) && n <= |s.ports|
    ensures EvolvesTo(s, AgePorts(s, elapsed, n))
  {
    if n == 0 {
      SilentEvolves(s, s);
    } else {
      AgePortsEvolves(s, elapsed, n - 1);
      AgeOneMore(s, AgePorts(s, elapsed, n - 1), elapsed, n - 1);
    }
  }

  lemma PortEvolves(s: Bridge, t: Bridge, i: nat, q: Port)
    requires i < |s.ports| && t.ports == s.ports[i := q] && t.bridgeId == s.bridgeId
    requires q.portId == s.ports[i].portId && (Enabled(q) ==> Enabled(s.ports[i]))
    requires SameInfo(s.ports[i], q) && s.ports[i].messageAgeTimer.value <= q.messageAgeTimer.value
    requires t.sent == s.sent || exists r :: t.sent == s.sent + [Sent(r, Tcn)]
    ensures Evolves(s, t)
  {
    forall j | 0 <= j < |s.ports| ensures Older(s, t, j) {
    }
    SilentEvolves(s, t);
  }

  lemma ChargeForwardDelayEvolves(s: Bridge, elapsed: nat, i: nat)
    requires i < |s.ports|
    ensures Evolves(s, ChargeForwardDelay(s, elapsed, i))
  {
    PortEvolves(s, ChargeForwardDelay(s, elapsed, i), i, DelayedPort(s.ports[i], elapsed, s.forwardDelay));
  }

  lemma ChargeHoldEvolves(s: Bridge, elapsed: nat, i: nat)
    requires Inv(s) && i < |s.ports|
    ensures Evolves(s, ChargeHold(s, elapsed, i))
  {
    var p := s.ports[i];
    var u := s.(ports := s.ports[i := p.(holdTimer := Charge(p.holdTimer, elapsed, TICKS_PER_SECOND))]);
    SilentEvolves(s, u);
    if Expires(p.holdTimer, elapsed, TICKS_PER_SECOND) && p.configPending {
      assert Quiet(s, u);
      QuietInv(s, u);
      TransmitEvolves(u, i);
      EvolvesTransitive(s, u, TransmitConfig(u, i));
    }
  }

  lemma DelayPortEvolves(s: Bridge, elapsed: nat, i: nat)
    requires Inv(s) && i < |s.ports|
    ensures Evolves(s, DelayPort(s, elapsed, i))
  {
    SilentEvolves(s, s);
    if Enabled(s.ports[i]) {
      var v := ChargeForwardDelay(s, elapsed, i);
      ChargeForwardDelayInv(s, elapsed, i);
      ChargeForwardDelayEvolves(s, elapsed, i);
      ChargeHoldEvolves(v, elapsed, i);
      EvolvesTransitive(s, v, ChargeHold(v, elapsed, i));
    }
  }

  lemma DelayOneMore(s: Bridge, u: Bridge, elapsed: nat, n: nat)
    requires EvolvesTo(s, u) && n < |u.ports|
    ensures EvolvesTo(s, DelayPort(u, elapsed, n))
  {
    DelayPortInv(u, elapsed, n);
    DelayPortEvolves(u, elapsed, n);
    EvolvesTransitive(s, u, DelayPort(u, elapsed, n));
  }

  lemma {:induction false} DelayPortsEvolves(s: Bridge, elapsed: nat, n: nat)
    requires Inv(s) && n <= |s.ports|
    ensures EvolvesTo(s, DelayPorts(s, elapsed, n))
  {
    if n == 0 {
      SilentEvolves(s, s);
    } else {
      DelayPortsEvolves(s, elapsed, n - 1);
      DelayOneMore(s, DelayPorts(s, elapsed, n - 1), elapsed, n - 1);
    }
  }

  lemma HelloEvolves(s: Bridge, elapsed: nat)
    requires Inv(s)
    ensures Evolves(s, TickHello(s, elapsed))
  {
    var a := s.(helloTimer := Charge(s.helloTimer, elapsed, s.helloTime));
    SilentEvolves(s, a);
    if Expires(s.helloTimer, elapsed, s.helloTime) {
      SamePortsQuiet(s, a);
      QuietInv(s, a);
      GenerateEvolves(a, |a.ports|);
      EvolvesTransitive(s, a, ConfigGeneration(a));
      SilentEvolves(ConfigGeneration(a), TickHello(s, elapsed));
      EvolvesTransitive(s, ConfigGeneration(a), TickHello(s, elapsed));
    }
  }

  lemma TickBridgeTimersEvolves(s: Bridge, elapsed: nat)
    requires Inv(s)
    ensures Evolves(s, TickBridgeTimers(s, elapsed))
  {
    HelloEvolves(s, elapsed);
    TickOthersEvolves(TickHello(s, elapsed), elapsed);
    EvolvesTransitive(s, TickHello(s, elapsed), TickBridgeTimers(s, elapsed));
  }

  lemma TickOthersEvolves(s: Bridge, elapsed: nat)
    ensures Evolves(s, TickTopologyChange(TickTcn(s, elapsed), elapsed))
  {
    SilentEvolves(s, TickTopologyChange(TickTcn(s, elapsed), elapsed));
  }

  lemma TickEvolves(s: Bridge, elapsed: nat)
    requires Inv(s)
    ensures Evolves(s, Tick(s, elapsed))
  {
    SilentEvolves(s, s);
    if elapsed > 0 {
      var a := TickBridgeTimers(s, elapsed);
      TickBridgeTimersQuiet(s, elapsed);
      QuietInv(s, a);
      TickBridgeTimersEvolves(s, elapsed);
      var b := AgePorts(a, elapsed, |a.ports|);
      AgePortsEvolves(a, elapsed, |a.ports|);
      EvolvesTransitive(s, a, b);
      DelayPortsEvolves(b, elapsed, |b.ports|);
      EvolvesTransitive(s, b, Tick(s, elapsed));
    }
  }

  lemma SetBridgeIdEvolves(s: Bridge, id: nat)
    requires Inv(s)
    ensures Evolves(s, SetBridgeId(s, id))
  {
    SilentEvolves(s, s);
    if id != s.bridgeId {
      SilentEvolves(s, Rename(s, id));
      RenameReady(s, id);
      ReselectAsRootEvolves(Rename(s, id), IsRoot(s));
      EvolvesTransitive(s, Rename(s, id), SetBridgeId(s, id));
    }
  }

  lemma PortEnableEvolves(s: Bridge, i: nat)
    requires i < |s.ports| && RootPortInRange(s)
    ensures Evolves(s, PortEnable(s, i))
  {
    SilentEvolves(s, s);
    if !Enabled(s.ports[i]) {
      var u := InitializePort(s, i, Blocking);
      SilentEvolves(s, u);
      StateSelectionEvolves(u);
      EvolvesTransitive(s, u, StateSelection(u));
    }
  }

  lemma PortDisableEvolves(s: Bridge, i: nat)
    requires Inv(s) && i < |s.ports|
    ensures Evolves(s, PortDisable(s, i))
  {
    SilentEvolves(s, s);
    if Enabled(s.ports[i]) {
      var u := SwitchOff(s, i);
      SilentEvolves(s, u);
      SwitchOffReady(s, i);
      ReselectAsRootEvolves(u, IsRoot(s));
      EvolvesTransitive(s, u, ReselectAsRoot(u, IsRoot(s)));
    }
  }

  lemma PathCostEvolves(s: Bridge, i: nat, cost: nat)
    requires Inv(s) && i < |s.ports| && 1 <= cost < 0x1_0000
    ensures Evolves(s, PortSetPathCost(s, i, cost))
  {
    SilentEvolves(s, s);
    if cost != s.ports[i].pathCost {
      var u := s.(ports := s.ports[i := s.ports[i].(pathCost := cost)]);
      SilentEvolves(s, u);
      PathCostReady(s, i, cost);
      ReselectEvolves(u);
      EvolvesTransitive(s, u, Reselect(u));
    }
  }

  lemma TimersEvolve(s: Bridge, t: Bridge)
    requires t.ports == s.ports && t.sent == s.sent && t.bridgeId == s.bridgeId
    ensures Evolves(s, t)
  {
    SilentEvolves(s, t);
  }

  /** The event brings new information into the bridge. */
  predicate Records(s: Bridge, e: Event)
    requires Shaped(s) && Legal(e)
  {
    && e.EReceiveConfig? && e.config.messageAge < e.config.maxAge
    && Enabled(s.ports[e.port]) && SupersedesPortInfo(s, s.ports[e.port], e.config)
  }

  lemma ReceivedConfigEvolves(s: Bridge, e: Event)
    requires Inv(s) && Legal(e) && e.EReceiveConfig?
    ensures Evolves(if Records(s, e) then Record(s, e.port, e.config) else s, Step(s, e))
  {
    if Records(s, e) {
      AcceptEvolves(s, e.port, e.config);
    } else {
      SilentEvolves(s, s);
      TransmitEvolves(s, e.port);
    }
  }

  lemma ManagementEvolves(s: Bridge, e: Event)
    requires Inv(s) && Legal(e) && (e.EEnable? || e.EDisable? || e.ESetPathCost? || e.ESetChangeDetection?)
    ensures Evolves(s, Step(s, e))
  {
    match e
    case EEnable(i) => PortEnableEvolves(s, i);
    case EDisable(i) => PortDisableEvolves(s, i);
    case ESetPathCost(i, cost) => PathCostEvolves(s, i, cost);
    case ESetChangeDetection(i, on) => SilentEvolves(s, Step(s, e));
  }

  lemma RequestEvolves(s: Bridge, e: Event)
    requires Shaped(s) && (e.ESetHelloTime? || e.ESetMaxAge? || e.ESetForwardDelay?)
    ensures Evolves(s, Step(s, e))
  {
    TimersEvolve(s, Step(s, e));
  }

  /** Every operation evolves the bridge from what it held, plus what it has just heard. */
  lemma StepEvolves(s: Bridge, e: Event)
    requires Inv(s) && Legal(e)
    ensures Evolves(if Records(s, e) then Record(s, e.port, e.config) else s, Step(s, e))
  {
    match e
    case ETick(elapsed) => TickEvolves(s, elapsed);
    case EReceiveConfig(_, _) => ReceivedConfigEvolves(s, e);
    case EReceiveTcn(i) => ReceivedTcnEvolves(s, i);
    case ESetBridgeId(id) => SetBridgeIdEvolves(s, id);
    case EEnable(_) | EDisable(_) | ESetPathCost(_, _) | ESetChangeDetection(_, _) => ManagementEvolves(s, e);
    case _ => RequestEvolves(s, e);
  }

  // ---------------------------------------------------------------- a network of bridges

  /** One bridge of the network takes one step. */
  datatype NetEvent = NetEvent(bridge: nat, event: Event)

  /** Some bridge has sent `m`. */
  ghost predicate WasSent(net: seq<Bridge>, m: Bpdu) {
    exists b, k :: 0 <= b < |net| && 0 <= k < |net[b].sent| && net[b].sent[k].bpdu == m
  }

  /** BPDUs may be lost, delayed, repeated and misdirected, but not invented. */
  ghost predicate Genuine(net: seq<Bridge>, x: NetEvent) {
    && x.bridge < |net| && Legal(x.event)
    && (x.event.EReceiveConfig? ==> WasSent(net, x.event.config))
  }

  function NetStep(net: seq<Bridge>, x: NetEvent): seq<Bridge>
    requires x.bridge < |net| && Shaped(net[x.bridge]) && Legal(x.event)
  {
    net[x.bridge := Step(net[x.bridge], x.event)]
  }

  /** The states of a network over a run, each reached by a genuine event of one bridge. */
  ghost predicate NetRun(nets: seq<seq<Bridge>>, xs: seq<NetEvent>) {
    && |nets| == |xs| + 1
    && (forall b :: 0 <= b < |nets[0]| ==> exists big, id :: nets[0][b] == Create(big, id))
    && (forall k :: 0 <= k < |xs| ==> Happens(nets, xs, k))
  }

  ghost predicate Happens(nets: seq<seq<Bridge>>, xs: seq<NetEvent>, k: nat)
    requires |nets| == |xs| + 1 && k < |xs|
  {
    Genuine(nets[k], xs[k]) && Shaped(nets[k][xs[k].bridge]) && nets[k + 1] == NetStep(nets[k], xs[k])
  }

  /** The port holds what `m` said, and `m` was no older. */
  predicate Holds(p: Port, m: Bpdu) {
    && m.Config? && m.rootId == p.designatedRoot && m.rootPathCost == p.designatedCost
    && m.bridgeId == p.designatedBridge && m.portId == p.designatedPort
    && m.messageAge <= p.messageAgeTimer.value
  }

  /** Event `r` delivers `m` to port `i` of bridge `b`. */
  predicate Delivers(xs: seq<NetEvent>, r: nat, b: nat, i: nat, m: Bpdu)
    requires r < |xs|
  {
    xs[r] == NetEvent(b, EReceiveConfig(i, m))
  }

  /** What port `i` of bridge `b` holds was delivered to it in one of the first `k` events
      and has not become younger. */
  ghost predicate PortHeard(xs: seq<NetEvent>, k: nat, b: nat, s: Bridge, i: nat)
    requires k <= |xs| && i < |s.ports|
  {
    Informed(s, i) ==>
      exists r: nat, m :: r < k && Delivers(xs, r, b, i, m) && Holds(s.ports[i], m)
  }

  ghost predicate AllHeard(xs: seq<NetEvent>, k: nat, b: nat, s: Bridge)
    requires k <= |xs|
  {
    forall i :: 0 <= i < |s.ports| ==> PortHeard(xs, k, b, s, i)
  }

  lemma EvolvesHeard(xs: seq<NetEvent>, k: nat, b: nat, s: Bridge, t: Bridge)
    requires k <= |xs| && AllHeard(xs, k, b, s) && Evolves(s, t)
    ensures AllHeard(xs, k, b, t)
  {
    forall i | 0 <= i < |t.ports| ensures PortHeard(xs, k, b, t, i) {
      assert Older(s, t, i) && PortHeard(xs, k, b, s, i);
    }
  }

  lemma HeardLater(xs: seq<NetEvent>, k: nat, b: nat, s: Bridge)
    requires k < |xs| && AllHeard(xs, k, b, s)
    ensures AllHeard(xs, k + 1, b, s)
  {
    var next := k + 1;
    forall i | 0 <= i < |s.ports| ensures PortHeard(xs, next, b, s, i) {
      assert PortHeard(xs, k, b, s, i);
    }
  }

  /** The bridge once it has written down what the event brings. */
  function Recorded(s: Bridge, e: Event): Bridge
    requires Shaped(s) && Legal(e)
  {
    if Records(s, e) then Record(s, e.port, e.config) else s
  }

  lemma RecordedHeard(xs: seq<NetEvent>, k: nat, s: Bridge)
    requires k < |xs| && Shaped(s) && Legal(xs[k].event) && AllHeard(xs, k, xs[k].bridge, s)
    ensures AllHeard(xs, k + 1, xs[k].bridge, Recorded(s, xs[k].event))
  {
    var b, e, next := xs[k].bridge, xs[k].event, k + 1;
    HeardLater(xs, k, b, s);
    var t := Recorded(s, e);
    forall i | 0 <= i < |t.ports| ensures PortHeard(xs, next, b, t, i) {
      if Records(s, e) && i == e.port {
        assert Delivers(xs, k, b, i, e.config) && Holds(t.ports[i], e.config);
      } else {
        assert PortHeard(xs, next, b, s, i);
      }
    }
  }

  lemma StepKeepsHeard(xs: seq<NetEvent>, k: nat, s: Bridge)
    requires k < |xs| && Inv(s) && Legal(xs[k].event) && AllHeard(xs, k, xs[k].bridge, s)
    ensures Inv(Step(s, xs[k].event)) && AllHeard(xs, k + 1, xs[k].bridge, Step(s, xs[k].event))
  {
    var b, e := xs[k].bridge, xs[k].event;
    StepInv(s, e);
    StepEvolves(s, e);
    RecordedHeard(xs, k, s);
    EvolvesHeard(xs, k + 1, b, Recorded(s, e), Step(s, e));
  }

  /** Every bridge is settled and holds only what was delivered to it. */
  ghost predicate NetInv(net: seq<Bridge>, xs: seq<NetEvent>, k: nat)
    requires k <= |xs|
  {
    forall b :: 0 <= b < |net| ==> Inv(net[b]) && AllHeard(xs, k, b, net[b])
  }

  lemma NewKnowsNothing(big: bool, id: nat)
    ensures forall i :: 0 <= i < |Create(big, id).ports| ==> !Informed(Create(big, id), i)
  {
    var s := Create(big, id);
    forall i | 0 <= i < |s.ports| ensures !Informed(s, i) {
      assert s.ports[i] == NewPort(i, s.bridgeId);
    }
  }

  lemma {:induction false} NetRunInv(nets: seq<seq<Bridge>>, xs: seq<NetEvent>, k: nat)
    requires NetRun(nets, xs) && k < |nets|
    ensures NetInv(nets[k], xs, k)
  {
    if k == 0 {
      forall b | 0 <= b < |nets[0]| ensures Inv(nets[0][b]) && AllHeard(xs, 0, b, nets[0][b]) {
        var big, id :| nets[0][b] == Create(big, id);
        CreateInv(big, id);
        NewKnowsNothing(big, id);
        forall i | 0 <= i < |nets[0][b].ports| ensures PortHeard(xs, 0, b, nets[0][b], i) {
        }
      }
    } else {
      NetRunInv(nets, xs, k - 1);
      assert Happens(nets, xs, k - 1);
      var s := nets[k - 1][xs[k - 1].bridge];
      StepKeepsHeard(xs, k - 1, s);
      NetUpdateInv(nets[k - 1], xs, k - 1, Step(s, xs[k - 1].event));
    }
  }

  lemma NetUpdateInv(net: seq<Bridge>, xs: seq<NetEvent>, k: nat, t: Bridge)
    requires k < |xs| && xs[k].bridge < |net| && NetInv(net, xs, k)
    requires Inv(t) && AllHeard(xs, k + 1, xs[k].bridge, t)
    ensures NetInv(net[xs[k].bridge := t], xs, k + 1)
  {
    var net', next := net[xs[k].bridge := t], k + 1;
    forall b | 0 <= b < |net'| ensures Inv(net'[b]) && AllHeard(xs, next, b, net'[b]) {
      if b != xs[k].bridge {
        HeardLater(xs, k, b, net[b]);
      }
    }
  }

  // ---------------------------------------------------------------- chains of relays

  /** From `s` to `t` the bridge sends `m`. */
  ghost predicate Sends(s: Bridge, t: Bridge, m: Bpdu) {
    exists j :: |s.sent| <= j < |t.sent| && t.sent[j].bpdu == m
  }

  /** BPDU `bpdu` goes out in event `event`. */
  datatype Link = Link(event: nat, bpdu: Bpdu)

  /** The bridge of the event sends the BPDU in that event and not before. */
  ghost predicate IsSent(nets: seq<seq<Bridge>>, xs: seq<NetEvent>, x: Link)
    requires NetRun(nets, xs)
  {
    && x.event < |xs| && x.bpdu.Config? && Happens(nets, xs, x.event)
    && var b := xs[x.event].bridge; Sends(nets[x.event][b], nets[x.event + 1][b], x.bpdu)
  }

  /** What the bridge of event `k` goes by when it sends: its state, with the event recorded. */
  function Basis(nets: seq<seq<Bridge>>, xs: seq<NetEvent>, k: nat): Bridge
    requires |nets| == |xs| + 1 && k < |xs| && xs[k].bridge < |nets[k]|
    requires Shaped(nets[k][xs[k].bridge]) && Legal(xs[k].event)
  {
    Recorded(nets[k][xs[k].bridge], xs[k].event)
  }

  /** The bridge that sends `y` was delivered `x` on port `i` in event `r`, after `x` was sent
      and no later than `y` is; that port still holds it, and `y` passes it on. */
  ghost predicate RelaysBy(nets: seq<seq<Bridge>>, xs: seq<NetEvent>, x: Link, y: Link, r: nat, i: nat)
    requires NetRun(nets, xs) && IsSent(nets, xs, y)
  {
    && x.event < r <= y.event && Delivers(xs, r, xs[y.event].bridge, i, x.bpdu)
    && var s := Basis(nets, xs, y.event); i < |s.ports| && Holds(s.ports[i], x.bpdu) && PassesOn(s, i, y.bpdu)
  }

  ghost predicate Relays(nets: seq<seq<Bridge>>, xs: seq<NetEvent>, x: Link, y: Link)
    requires NetRun(nets, xs)
  {
    IsSent(nets, xs, x) && IsSent(nets, xs, y) && exists r: nat, i: nat :: RelaysBy(nets, xs, x, y, r, i)
  }

  /** BPDUs sent in the run, each relayed by the bridge that sends the next. */
  ghost predicate Chain(nets: seq<seq<Bridge>>, xs: seq<NetEvent>, chain: seq<Link>)
    requires NetRun(nets, xs)
  {
    && |chain| >= 1 && IsSent(nets, xs, chain[0])
    && (forall n :: 0 <= n < |chain| - 1 ==> Relays(nets, xs, chain[n], chain[n + 1]))
  }

  lemma SentIsFounded(nets: seq<seq<Bridge>>, xs: seq<NetEvent>, x: Link)
    requires NetRun(nets, xs) && IsSent(nets, xs, x)
    ensures Founded(Basis(nets, xs, x.event), x.bpdu)
  {
    NetRunInv(nets, xs, x.event);
    var b := xs[x.event].bridge;
    StepEvolves(nets[x.event][b], xs[x.event].event);
  }

  lemma NothingSentYet(nets: seq<seq<Bridge>>, xs: seq<NetEvent>, m: Bpdu)
    requires NetRun(nets, xs)
    ensures !WasSent(nets[0], m)
  {
    forall b | 0 <= b < |nets[0]| ensures nets[0][b].sent == [] {
      var big, id :| nets[0][b] == Create(big, id);
    }
  }

  /** Nothing is sent but in some event. */
  lemma {:induction false} SentEarlier(nets: seq<seq<Bridge>>, xs: seq<NetEvent>, k: nat, m: Bpdu) returns (x: Link)
    requires NetRun(nets, xs) && k < |nets| && m.Config? && WasSent(nets[k], m)
    ensures x.event < k && x.bpdu == m && IsSent(nets, xs, x)
  {
    var b, j :| 0 <= b < |nets[k]| && 0 <= j < |nets[k][b].sent| && nets[k][b].sent[j].bpdu == m;
    NothingSentYet(nets, xs, m);
    assert k != 0;
    assert Happens(nets, xs, k - 1);
    if b == xs[k - 1].bridge && |nets[k - 1][b].sent| <= j {
      x := Link(k - 1, m);
      assert Sends(nets[k - 1][b], nets[k][b], m);
    } else {
      SentBefore(nets, xs, k - 1, b, j);
      x := SentEarlier(nets, xs, k - 1, m);
    }
  }

  lemma SentBefore(nets: seq<seq<Bridge>>, xs: seq<NetEvent>, k: nat, b: nat, j: nat)
    requires NetRun(nets, xs) && k < |xs| && b < |nets[k + 1]| && j < |nets[k + 1][b].sent|
    requires b < |nets[k]| && (b == xs[k].bridge ==> j < |nets[k][b].sent|)
    ensures WasSent(nets[k], nets[k + 1][b].sent[j].bpdu)
  {
    assert Happens(nets, xs, k);
    var s := nets[k][b];
    if b == xs[k].bridge {
      NetRunInv(nets, xs, k);
      StepEvolves(s, xs[k].event);
      assert s.sent[j] == nets[k + 1][b].sent[..|s.sent|][j];
    }
    assert s.sent[j] == nets[k + 1][b].sent[j];
  }

  /** Every config BPDU a bridge sends is its own claim, or relays one sent in an earlier
      event and delivered to it. */
  lemma OwnOrRelayed(nets: seq<seq<Bridge>>, xs: seq<NetEvent>, y: Link) returns (x: Link)
    requires NetRun(nets, xs) && IsSent(nets, xs, y)
    ensures OwnClaim(y.bpdu) || (x.event < y.event && Relays(nets, xs, x, y))
  {
    x := y;
    SentIsFounded(nets, xs, y);
    if !OwnClaim(y.bpdu) {
      var k, b := y.event, xs[y.event].bridge;
      NetRunInv(nets, xs, k);
      RecordedHeard(xs, k, nets[k][b]);
      var s := Basis(nets, xs, k);
      var i :| 0 <= i < |s.ports| && PassesOn(s, i, y.bpdu);
      assert PortHeard(xs, k + 1, b, s, i);
      var r: nat, m :| r < k + 1 && Delivers(xs, r, b, i, m) && Holds(s.ports[i], m);
      assert Happens(nets, xs, r);
      x := SentEarlier(nets, xs, r, m);
      assert RelaysBy(nets, xs, x, y, r, i);
    }
  }

  /** Every config BPDU sent in a run ends a chain of relays that goes back, event by event,
      to a BPDU in which its sender claims to be the root that is named. */
  lemma {:induction false} EveryClaimHasASource(nets: seq<seq<Bridge>>, xs: seq<NetEvent>, y: Link)
      returns (chain: seq<Link>)
    requires NetRun(nets, xs) && IsSent(nets, xs, y)
    ensures Chain(nets, xs, chain) && chain[|chain| - 1] == y
    ensures OwnClaim(chain[0].bpdu)
    decreases y.event
  {
    var x := OwnOrRelayed(nets, xs, y);
    if OwnClaim(y.bpdu) {
      chain := [y];
    } else {
      var before := EveryClaimHasASource(nets, xs, x);
      chain := before + [y];
      forall n | 0 <= n < |chain| - 1 ensures Relays(nets, xs, chain[n], chain[n + 1]) {
        assert chain[n] == before[n];
      }
    }
  }

  /** A BPDU is older than the one it relays, names the same root at a greater cost, and goes
      out later. */
  lemma RelayAges(nets: seq<seq<Bridge>>, xs: seq<NetEvent>, x: Link, y: Link)
    requires NetRun(nets, xs) && Relays(nets, xs, x, y)
    ensures x.event < y.event && x.bpdu.rootId == y.bpdu.rootId
    ensures x.bpdu.messageAge + 1 <= y.bpdu.messageAge && x.bpdu.rootPathCost < y.bpdu.rootPathCost
  {
    var r: nat, i: nat :| RelaysBy(nets, xs, x, y, r, i);
  }

  /** However it came about, a chain of relays is shorter than the max age its last BPDU
      carries: information about a root dies out within that many hops of its source. */
  lemma {:induction false} ChainIsShort(nets: seq<seq<Bridge>>, xs: seq<NetEvent>, chain: seq<Link>)
    requires NetRun(nets, xs) && Chain(nets, xs, chain)
    ensures var last := chain[|chain| - 1].bpdu;
      last.Config? && |chain| - 1 <= last.messageAge < last.maxAge && chain[0].bpdu.rootId == last.rootId
    ensures forall n :: 0 <= n < |chain| - 1 ==> chain[n].event < chain[n + 1].event
  {
    var n := |chain| - 1;
    if n == 0 {
      SentIsFounded(nets, xs, chain[0]);
    } else {
      var before := chain[..n];
      assert before[0] == chain[0];
      forall j | 0 <= j < n - 1 ensures Relays(nets, xs, before[j], before[j + 1]) {
        assert Relays(nets, xs, chain[j], chain[j + 1]);
      }
      ChainIsShort(nets, xs, before);
      assert Relays(nets, xs, chain[n - 1], chain[n - 1 + 1]);
      RelayAges(nets, xs, chain[n - 1], chain[n]);
      SentIsFounded(nets, xs, chain[n]);
      forall j | 0 <= j < n ensures chain[j].event < chain[j + 1].event {
        if j < n - 1 {
          assert before[j].event < before[j + 1].event;
        }
      }
    }
  }
}

/** The public operations of a bridge as events, runs of events, and the proof that every
    run keeps the invariant of StpInvariant. */
module StpSteps {
  import opened Wrappers
  import opened StpModel
  import opened StpSelection
  import opened StpInvariant

  datatype Event =
    | ETick(elapsed: nat)
    | ESetBridgeId(id: nat)
    | ESetHelloTime(ms: int)
    | ESetMaxAge(ms: int)
    | ESetForwardDelay(ms: int)
    | EReceiveConfig(port: nat, config: Bpdu)
    | EReceiveTcn(port: nat)
    | EEnable(port: nat)
    | EDisable(port: nat)
    | ESetPathCost(port: nat, pathCost: nat)
    | ESetChangeDetection(port: nat, on: bool)

  /** Field widths of the arguments; path costs are positive and received costs leave room
      for one more path cost in a signed int. */
  predicate Legal(e: Event) {
    match e
    case EReceiveConfig(i, c) =>
      i < MAX_PORTS && c.Config? && c.maxAge <= 0xffff && c.rootPathCost < COST_LIMIT
    case EReceiveTcn(i) => i < MAX_PORTS
    case EEnable(i) => i < MAX_PORTS
    case EDisable(i) => i < MAX_PORTS
    case ESetPathCost(i, cost) => i < MAX_PORTS && 1 <= cost < 0x1_0000
    case ESetChangeDetection(i, _) => i < MAX_PORTS
    case _ => true
  }

  predicate Shaped(s: Bridge) { |s.ports| == MAX_PORTS && RootPortInRange(s) }

  function Step(s: Bridge, e: Event): (t: Bridge)
    requires Shaped(s) && Legal(e)
    ensures Shaped(t)
  {
    match e
    case ETick(elapsed) => Tick(s, elapsed)
    case ESetBridgeId(id) => SetBridgeId(s, id)
    case ESetHelloTime(ms) => UpdateBridgeTimers(s.(rqHelloTime := ms))
    case ESetMaxAge(ms) => UpdateBridgeTimers(s.(rqMaxAge := ms))
    case ESetForwardDelay(ms) => UpdateBridgeTimers(s.(rqForwardDelay := ms))
    case EReceiveConfig(i, c) => ReceivedConfig(s, i, c)
    case EReceiveTcn(i) => ReceivedTcn(s, i)
    case EEnable(i) => PortEnable(s, i)
    case EDisable(i) => PortDisable(s, i)
    case ESetPathCost(i, cost) => PortSetPathCost(s, i, cost)
    case ESetChangeDetection(i, on) => SetChangeDetection(s, i, on)
  }

  function Run(s: Bridge, es: seq<Event>): (t: Bridge)
    requires Shaped(s) && forall k :: 0 <= k < |es| ==> Legal(es[k])
    ensures Shaped(t)
  {
    if es == [] then s else Step(Run(s, es[..|es| - 1]), es[|es| - 1])
  }

  // ---------------------------------------------------------------- quiet changes

  /** A change of the port that the invariant does not see. */
  predicate QuietPort(bridgeId: nat, p: Port, q: Port) {
    && SameVector(p, q) && p.state == q.state
    && p.messageAgeTimer == q.messageAgeTimer && p.forwardDelayTimer == q.forwardDelayTimer
    && (q.configPending ==> p.configPending || (Enabled(p) && IsDesignated(bridgeId, p)))
    && (q.topologyChangeAck ==> p.topologyChangeAck || (Enabled(p) && IsDesignated(bridgeId, p)))
  }

  predicate Quiet(s: Bridge, t: Bridge) {
    && t.bridgeId == s.bridgeId && t.designatedRoot == s.designatedRoot
    && t.rootPathCost == s.rootPathCost && t.rootPort == s.rootPort
    && t.bridgeMaxAge <= 0xffff && t.maxAge <= 0xffff && |t.ports| == |s.ports|
    && forall i :: 0 <= i < |s.ports| ==> QuietPort(s.bridgeId, s.ports[i], t.ports[i])
  }

  lemma SamePortsQuiet(s: Bridge, t: Bridge)
    requires t.bridgeId == s.bridgeId && t.designatedRoot == s.designatedRoot
    requires t.rootPathCost == s.rootPathCost && t.rootPort == s.rootPort && t.ports == s.ports
    requires t.bridgeMaxAge <= 0xffff && t.maxAge <= 0xffff
    ensures Quiet(s, t)
  {
  }

  lemma QuietTransitive(s: Bridge, t: Bridge, u: Bridge)
    requires Quiet(s, t) && Quiet(t, u)
    ensures Quiet(s, u)
  {
    forall i | 0 <= i < |s.ports| ensures QuietPort(s.bridgeId, s.ports[i], u.ports[i]) {
      assert QuietPort(s.bridgeId, s.ports[i], t.ports[i]);
      assert QuietPort(t.bridgeId, t.ports[i], u.ports[i]);
    }
  }

  lemma QuietPortInv(s: Bridge, t: Bridge, i: nat)
    requires |t.ports| == |s.ports| && i < |s.ports| && PortReady(s, i) && PortSettled(s, i)
    requires t.bridgeId == s.bridgeId && t.designatedRoot == s.designatedRoot
    requires t.rootPathCost == s.rootPathCost && t.rootPort == s.rootPort
    requires QuietPort(s.bridgeId, s.ports[i], t.ports[i])
    ensures PortReady(t, i) && PortSettled(t, i)
  {
  }

  lemma QuietRootSettled(s: Bridge, t: Bridge)
    requires RootSettled(s) && Quiet(s, t)
    ensures RootSettled(t)
  {
    forall i | 0 <= i < |s.ports|
      ensures SameVector(t.ports[i], s.ports[i]) && (Enabled(t.ports[i]) <==> Enabled(s.ports[i]))
    {
      assert QuietPort(s.bridgeId, s.ports[i], t.ports[i]);
    }
    assert Selects(t.bridgeId, t.ports, Below(|t.ports|), t.rootPort);
  }

  lemma QuietInv(s: Bridge, t: Bridge)
    requires Inv(s) && Quiet(s, t)
    ensures Inv(t)
  {
    QuietRootSettled(s, t);
    forall i | 0 <= i < |s.ports| ensures PortReady(t, i) && PortSettled(t, i) {
      QuietPortInv(s, t, i);
    }
  }

  lemma TransmitQuiet(s: Bridge, i: nat)
    requires i < |s.ports| && RootPortInRange(s) && s.maxAge <= 0xffff && s.bridgeMaxAge <= 0xffff
    requires s.ports[i].configPending || (Enabled(s.ports[i]) && IsDesignated(s.bridgeId, s.ports[i]))
    ensures Quiet(s, TransmitConfig(s, i))
  {
  }

  lemma {:induction false} GenerateQuiet(s: Bridge, n: nat)
    requires n <= |s.ports| && RootPortInRange(s) && s.maxAge <= 0xffff && s.bridgeMaxAge <= 0xffff
    ensures Quiet(s, GenerateUpTo(s, n))
  {
    if n > 0 {
      var u := GenerateUpTo(s, n - 1);
      GenerateQuiet(s, n - 1);
      if Enabled(u.ports[n - 1]) && IsDesignated(u.bridgeId, u.ports[n - 1]) {
        TransmitQuiet(u, n - 1);
        QuietTransitive(s, u, GenerateUpTo(s, n));
      }
    }
  }

  lemma DetectionQuiet(s: Bridge)
    requires s.maxAge <= 0xffff && s.bridgeMaxAge <= 0xffff
    ensures Quiet(s, TopologyChangeDetection(s))
  {
  }

  lemma BecomeRootQuiet(s: Bridge)
    requires RootPortInRange(s) && s.bridgeMaxAge <= 0xffff
    ensures Quiet(s, BecomeRootBridge(s))
  {
    var a := s.(maxAge := s.bridgeMaxAge, helloTime := s.bridgeHelloTime, forwardDelay := s.bridgeForwardDelay);
    var b := TopologyChangeDetection(a);
    var c := b.(tcnTimer := Stop(b.tcnTimer));
    var d := ConfigGeneration(c);
    DetectionQuiet(a);
    assert Quiet(s, c);
    GenerateQuiet(c, |c.ports|);
    QuietTransitive(s, c, d);
    assert Quiet(d, BecomeRootBridge(s));
    QuietTransitive(s, d, BecomeRootBridge(s));
  }

  lemma ReselectAsRootInv(s: Bridge, wasRoot: bool)
    requires Ready(s)
    ensures Inv(ReselectAsRoot(s, wasRoot))
  {
    ReselectSettles(s);
    var u := Reselect(s);
    if IsRoot(u) && !wasRoot {
      BecomeRootQuiet(u);
      QuietInv(u, BecomeRootBridge(u));
    }
  }

  // ---------------------------------------------------------------- one lemma per operation

  lemma RecordReady(s: Bridge, i: nat, c: Bpdu)
    requires Ready(s) && i < |s.ports| && Enabled(s.ports[i])
    requires c.Config? && c.messageAge < c.maxAge <= 0xffff && c.rootPathCost < COST_LIMIT
    ensures Ready(Record(s, i, c))
  {
    forall j | 0 <= j < |s.ports| ensures PortReady(Record(s, i, c), j) {
      assert PortReady(s, j);
    }
  }

  lemma RelayQuiet(s: Bridge, c: Bpdu)
    requires c.Config? && c.maxAge <= 0xffff && s.bridgeMaxAge <= 0xffff && RootPortInRange(s)
    ensures Quiet(s, ConfigGeneration(RecordTimeouts(s, c)))
  {
    var d := RecordTimeouts(s, c);
    SamePortsQuiet(s, d);
    GenerateQuiet(d, |d.ports|);
    QuietTransitive(s, d, ConfigGeneration(d));
  }

  lemma AcceptInv(s: Bridge, i: nat, c: Bpdu)
    requires Inv(s) && i < |s.ports| && Enabled(s.ports[i])
    requires c.Config? && c.messageAge < c.maxAge <= 0xffff && c.rootPathCost < COST_LIMIT
    ensures Inv(Accept(s, i, c))
  {
    RecordReady(s, i, c);
    ReselectSettles(Record(s, i, c));
    var a := Reselect(Record(s, i, c));
    var b := if !IsRoot(a) && IsRoot(s) then StepDown(a) else a;
    SamePortsQuiet(a, b);
    QuietInv(a, b);
    if b.rootPort == Some(i) {
      var d := ConfigGeneration(RecordTimeouts(b, c));
      RelayQuiet(b, c);
      QuietInv(b, d);
      SamePortsQuiet(d, TopologyChangeAcknowledged(d));
      QuietInv(d, TopologyChangeAcknowledged(d));
    }
  }

  lemma ReceivedConfigInv(s: Bridge, i: nat, c: Bpdu)
    requires Inv(s) && i < |s.ports|
    requires c.Config? && c.maxAge <= 0xffff && c.rootPathCost < COST_LIMIT
    ensures Inv(ReceivedConfig(s, i, c))
  {
    if c.messageAge < c.maxAge && Enabled(s.ports[i]) {
      if SupersedesPortInfo(s, s.ports[i], c) {
        AcceptInv(s, i, c);
      } else if IsDesignated(s.bridgeId, s.ports[i]) {
        TransmitQuiet(s, i);
        QuietInv(s, TransmitConfig(s, i));
      }
    }
  }

  lemma ReceivedTcnInv(s: Bridge, i: nat)
    requires Inv(s) && i < |s.ports|
    ensures Inv(ReceivedTcn(s, i))
  {
    if Enabled(s.ports[i]) && IsDesignated(s.bridgeId, s.ports[i]) {
      var u := TopologyChangeDetection(s);
      DetectionQuiet(s);
      var v := u.(ports := u.ports[i := u.ports[i].(topologyChangeAck := true)]);
      assert Quiet(s, v);
      TransmitQuiet(v, i);
      QuietTransitive(s, v, TransmitConfig(v, i));
      QuietInv(s, TransmitConfig(v, i));
    }
  }

  /** A port whose information has aged out becomes designated. */
  lemma AgedOutReady(s: Bridge, elapsed: nat, i: nat)
    requires Ready(s) && i < |s.ports|
    ensures
      var p := s.ports[i];
      var u := s.(ports := s.ports[i := p.(messageAgeTimer := Charge(p.messageAgeTimer, elapsed, s.maxAge))]);
      Ready(BecomeDesignated(u, i))
  {
    var p := s.ports[i];
    var u := s.(ports := s.ports[i := p.(messageAgeTimer := Charge(p.messageAgeTimer, elapsed, s.maxAge))]);
    forall j | 0 <= j < |s.ports| ensures PortReady(BecomeDesignated(u, i), j) {
      assert PortReady(s, j);
    }
  }

  lemma AgePortInv(s: Bridge, elapsed: nat, i: nat)
    requires Inv(s) && i < |s.ports|
    ensures Inv(AgePort(s, elapsed, i))
  {
    var p := s.ports[i];
    assert PortReady(s, i) && PortSettled(s, i);
    if Enabled(p) {
      var u := s.(ports := s.ports[i := p.(messageAgeTimer := Charge(p.messageAgeTimer, elapsed, s.maxAge))]);
      if Expires(p.messageAgeTimer, elapsed, s.maxAge) {
        var v := BecomeDesignated(u, i);
        AgedOutReady(s, elapsed, i);
        ReselectAsRootInv(v, IsRoot(u));
      } else {
        ChargedInv(s, i, Charge(p.messageAgeTimer, elapsed, s.maxAge));
      }
    }
  }

  /** Ageing the information of one port by a few ticks, still below the limit. */
  lemma ChargedInv(s: Bridge, i: nat, t: Timer)
    requires Inv(s) && i < |s.ports|
    requires t.active == s.ports[i].messageAgeTimer.active && (t.active ==> t.value < 0xffff)
    ensures Inv(s.(ports := s.ports[i := s.ports[i].(messageAgeTimer := t)]))
  {
    assert PortReady(s, i) && PortSettled(s, i);
    PortChangeInv(s, i, s.ports[i].(messageAgeTimer := t));
  }

  /** Replacing one port by another with the same recorded vector. */
  lemma PortChangeInv(s: Bridge, i: nat, q: Port)
    requires Inv(s) && i < |s.ports|
    requires SameVector(q, s.ports[i]) && (Enabled(q) <==> Enabled(s.ports[i]))
    requires PortReady(s.(ports := s.ports[i := q]), i) && PortSettled(s.(ports := s.ports[i := q]), i)
    ensures Inv(s.(ports := s.ports[i := q]))
  {
    var u := s.(ports := s.ports[i := q]);
    forall j | 0 <= j < |u.ports| ensures PortReady(u, j) && PortSettled(u, j) {
      assert PortReady(s, j) && PortSettled(s, j);
    }
    RootSettledFrame(s, u);
  }

  lemma {:induction false} AgePortsInv(s: Bridge, elapsed: nat, n: nat)
    requires Inv(s) && n <= |s.ports|
    ensures Inv(AgePorts(s, elapsed, n))
  {
    if n > 0 {
      AgePortsInv(s, elapsed, n - 1);
      AgePortInv(AgePorts(s, elapsed, n - 1), elapsed, n - 1);
    }
  }

  /** A port that moves on from listening or learning without leaving its role. */
  predicate Advances(p: Port, q: Port) {
    && q == p.(state := q.state, forwardDelayTimer := q.forwardDelayTimer)
    && (p.state == Blocking <==> q.state == Blocking) && (p.state == Disabled <==> q.state == Disabled)
    && (q.forwardDelayTimer.active <==> q.state == Listening || q.state == Learning)
  }

  lemma AdvancesInv(s: Bridge, i: nat, q: Port)
    requires Inv(s) && i < |s.ports| && Advances(s.ports[i], q)
    ensures Inv(s.(ports := s.ports[i := q]))
  {
    assert PortReady(s, i) && PortSettled(s, i);
    PortChangeInv(s, i, q);
  }

  /** Port `i` after its forward delay timer was charged. */
  function DelayedPort(p: Port, elapsed: nat, forwardDelay: nat): Port {
    var q := p.(forwardDelayTimer := Charge(p.forwardDelayTimer, elapsed, forwardDelay));
    if !Expires(p.forwardDelayTimer, elapsed, forwardDelay) then q
    else if p.state == Listening then q.(state := Learning, forwardDelayTimer := Start(0))
    else if p.state == Learning then q.(state := Forwarding)
    else q
  }

  /** The forward delay timer moves port `i` along, and nothing else the invariant sees. */
  lemma ChargeForwardDelayAdvances(s: Bridge, elapsed: nat, i: nat)
    requires i < |s.ports| && s.maxAge <= 0xffff && s.bridgeMaxAge <= 0xffff
    ensures
      var q := DelayedPort(s.ports[i], elapsed, s.forwardDelay);
      var t := ChargeForwardDelay(s, elapsed, i);
      t.ports[i] == q && Quiet(s.(ports := s.ports[i := q]), t)
  {
    var q := DelayedPort(s.ports[i], elapsed, s.forwardDelay);
    var t := ChargeForwardDelay(s, elapsed, i);
    assert t.ports == s.ports[i := q];
    SamePortsQuiet(s.(ports := s.ports[i := q]), t);
  }

  lemma ChargeForwardDelayInv(s: Bridge, elapsed: nat, i: nat)
    requires Inv(s) && i < |s.ports|
    ensures Inv(ChargeForwardDelay(s, elapsed, i))
  {
    var q := DelayedPort(s.ports[i], elapsed, s.forwardDelay);
    ChargeForwardDelayAdvances(s, elapsed, i);
    assert PortReady(s, i);
    AdvancesInv(s, i, q);
    QuietInv(s.(ports := s.ports[i := q]), ChargeForwardDelay(s, elapsed, i));
  }

  lemma ChargeHoldInv(s: Bridge, elapsed: nat, i: nat)
    requires Inv(s) && i < |s.ports|
    ensures Inv(ChargeHold(s, elapsed, i))
  {
    var p := s.ports[i];
    var u := s.(ports := s.ports[i := p.(holdTimer := Charge(p.holdTimer, elapsed, TICKS_PER_SECOND))]);
    assert Quiet(s, u);
    QuietInv(s, u);
    if Expires(p.holdTimer, elapsed, TICKS_PER_SECOND) && p.configPending {
      TransmitQuiet(u, i);
      QuietInv(u, TransmitConfig(u, i));
    }
  }

  lemma DelayPortInv(s: Bridge, elapsed: nat, i: nat)
    requires Inv(s) && i < |s.ports|
    ensures Inv(DelayPort(s, elapsed, i))
  {
    ChargeForwardDelayInv(s, elapsed, i);
    ChargeHoldInv(ChargeForwardDelay(s, elapsed, i), elapsed, i);
  }

  lemma {:induction false} DelayPortsInv(s: Bridge, elapsed: nat, n: nat)
    requires Inv(s) && n <= |s.ports|
    ensures Inv(DelayPorts(s, elapsed, n))
  {
    if n > 0 {
      var u := DelayPorts(s, elapsed, n - 1);
      DelayPortsInv(s, elapsed, n - 1);
      DelayPortInv(u, elapsed, n - 1);
    }
  }

  lemma HelloQuiet(s: Bridge, elapsed: nat)
    requires RootPortInRange(s) && s.maxAge <= 0xffff && s.bridgeMaxAge <= 0xffff
    ensures Quiet(s, TickHello(s, elapsed))
  {
    var a := s.(helloTimer := Charge(s.helloTimer, elapsed, s.helloTime));
    GenerateQuiet(a, |a.ports|);
    assert Quiet(s, a);
    QuietTransitive(s, a, ConfigGeneration(a));
  }

  lemma TickOthersQuiet(s: Bridge, elapsed: nat)
    requires s.maxAge <= 0xffff && s.bridgeMaxAge <= 0xffff
    ensures Quiet(s, TickTopologyChange(TickTcn(s, elapsed), elapsed))
  {
    var a := TickTcn(s, elapsed);
    SamePortsQuiet(s, a);
    TickTopologyChangeQuiet(a, elapsed);
    QuietTransitive(s, a, TickTopologyChange(a, elapsed));
  }

  lemma TickTopologyChangeQuiet(s: Bridge, elapsed: nat)
    requires s.maxAge <= 0xffff && s.bridgeMaxAge <= 0xffff
    ensures Quiet(s, TickTopologyChange(s, elapsed))
  {
    SamePortsQuiet(s, TickTopologyChange(s, elapsed));
  }

  lemma TickBridgeTimersQuiet(s: Bridge, elapsed: nat)
    requires RootPortInRange(s) && s.maxAge <= 0xffff && s.bridgeMaxAge <= 0xffff
    ensures Quiet(s, TickBridgeTimers(s, elapsed))
  {
    HelloQuiet(s, elapsed);
    var b := TickHello(s, elapsed);
    TickOthersQuiet(b, elapsed);
    QuietTransitive(s, b, TickTopologyChange(TickTcn(b, elapsed), elapsed));
  }

  lemma TickInv(s: Bridge, elapsed: nat)
    requires Inv(s)
    ensures Inv(Tick(s, elapsed))
  {
    if elapsed > 0 {
      var a := TickBridgeTimers(s, elapsed);
      TickBridgeTimersQuiet(s, elapsed);
      QuietInv(s, a);
      AgePortsInv(a, elapsed, |a.ports|);
      DelayPortsInv(AgePorts(a, elapsed, |a.ports|), elapsed, |a.ports|);
    }
  }

  lemma RenameReady(s: Bridge, id: nat)
    requires Ready(s)
    ensures Ready(Rename(s, id))
  {
    forall j | 0 <= j < |s.ports| ensures PortReady(Rename(s, id), j) {
      assert PortReady(s, j);
    }
  }

  lemma SwitchOffReady(s: Bridge, i: nat)
    requires Ready(s) && i < |s.ports|
    ensures Ready(SwitchOff(s, i))
  {
    forall j | 0 <= j < |s.ports| ensures PortReady(SwitchOff(s, i), j) {
      assert PortReady(s, j);
    }
  }

  lemma SetBridgeIdInv(s: Bridge, id: nat)
    requires Inv(s)
    ensures Inv(SetBridgeId(s, id))
  {
    if id != s.bridgeId {
      RenameReady(s, id);
      ReselectAsRootInv(Rename(s, id), IsRoot(s));
    }
  }

  lemma PortEnableInv(s: Bridge, i: nat)
    requires Inv(s) && i < |s.ports|
    ensures Inv(PortEnable(s, i))
  {
    if !Enabled(s.ports[i]) {
      var u := InitializePort(s, i, Blocking);
      forall j | 0 <= j < |u.ports| ensures PortReady(u, j) && RoleSettled(u, u.ports[j]) {
        assert PortReady(s, j) && PortSettled(s, j);
      }
      assert Selects(u.bridgeId, u.ports, Below(|u.ports|), u.rootPort);
      StateSelectionSettles(u);
    }
  }

  lemma PortDisableInv(s: Bridge, i: nat)
    requires Inv(s) && i < |s.ports|
    ensures Inv(PortDisable(s, i))
  {
    if Enabled(s.ports[i]) {
      SwitchOffReady(s, i);
      ReselectAsRootInv(SwitchOff(s, i), IsRoot(s));
    }
  }

  lemma PathCostReady(s: Bridge, i: nat, cost: nat)
    requires Ready(s) && i < |s.ports| && 1 <= cost < 0x1_0000
    ensures Ready(s.(ports := s.ports[i := s.ports[i].(pathCost := cost)]))
  {
    var u := s.(ports := s.ports[i := s.ports[i].(pathCost := cost)]);
    forall j | 0 <= j < |u.ports| ensures PortReady(u, j) {
      assert PortReady(s, j);
    }
  }

  lemma PortSetPathCostInv(s: Bridge, i: nat, cost: nat)
    requires Inv(s) && i < |s.ports| && 1 <= cost < 0x1_0000
    ensures Inv(PortSetPathCost(s, i, cost))
  {
    if cost != s.ports[i].pathCost {
      PathCostReady(s, i, cost);
      ReselectSettles(s.(ports := s.ports[i := s.ports[i].(pathCost := cost)]));
    }
  }

  lemma UpdateBridgeTimersInv(s: Bridge, hello: int, maxAge: int, forwardDelay: int)
    requires Inv(s)
    ensures Inv(UpdateBridgeTimers(s.(rqHelloTime := hello, rqMaxAge := maxAge, rqForwardDelay := forwardDelay)))
  {
    var t := UpdateBridgeTimers(s.(rqHelloTime := hello, rqMaxAge := maxAge, rqForwardDelay := forwardDelay));
    SamePortsQuiet(s, t);
    QuietInv(s, t);
  }

  lemma SetChangeDetectionInv(s: Bridge, i: nat, on: bool)
    requires Inv(s) && i < |s.ports|
    ensures Inv(SetChangeDetection(s, i, on))
  {
    assert Quiet(s, SetChangeDetection(s, i, on));
    QuietInv(s, SetChangeDetection(s, i, on));
  }

  lemma StepInv(s: Bridge, e: Event)
    requires Inv(s) && Legal(e)
    ensures Inv(Step(s, e))
  {
    match e
    case ETick(elapsed) => TickInv(s, elapsed);
    case ESetBridgeId(id) => SetBridgeIdInv(s, id);
    case ESetHelloTime(ms) => UpdateBridgeTimersInv(s, ms, s.rqMaxAge, s.rqForwardDelay);
    case ESetMaxAge(ms) => UpdateBridgeTimersInv(s, s.rqHelloTime, ms, s.rqForwardDelay);
    case ESetForwardDelay(ms) => UpdateBridgeTimersInv(s, s.rqHelloTime, s.rqMaxAge, ms);
    case EReceiveConfig(i, c) => ReceivedConfigInv(s, i, c);
    case EReceiveTcn(i) => ReceivedTcnInv(s, i);
    case EEnable(i) => PortEnableInv(s, i);
    case EDisable(i) => PortDisableInv(s, i);
    case ESetPathCost(i, cost) => PortSetPathCostInv(s, i, cost);
    case ESetChangeDetection(i, on) => SetChangeDetectionInv(s, i, on);
  }

  // ---------------------------------------------------------------- whole runs

  lemma CreateInv(bigEndian: bool, id: nat)
    ensures Inv(Create(bigEndian, id))
  {
    var s := Create(bigEndian, id);
    forall i: nat | i < |s.ports|
      ensures PortReady(s, i) && PortSettled(s, i) && !Candidate(s.bridgeId, s.ports[i])
    {
      assert s.ports[i] == NewPort(i, s.bridgeId);
    }
    assert NoCandidate(s.bridgeId, s.ports, Below(|s.ports|));
  }

  lemma {:induction false} RunInv(s: Bridge, es: seq<Event>)
    requires Inv(s) && forall k :: 0 <= k < |es| ==> Legal(es[k])
    ensures Inv(Run(s, es))
  {
    if es != [] {
      RunInv(s, es[..|es| - 1]);
      StepInv(Run(s, es[..|es| - 1]), es[|es| - 1]);
    }
  }

  /** After any run of a new bridge: roles, states and timers agree. */
  lemma EveryRunSettled(bigEndian: bool, id: nat, es: seq<Event>)
    requires forall k :: 0 <= k < |es| ==> Legal(es[k])
    ensures
      var s := Run(Create(bigEndian, id), es);
      && (s.rootPort.None? <==> IsRoot(s))
      && (s.rootPort.Some? ==>
            var p := s.ports[s.rootPort.value]; Enabled(p) && !IsDesignated(s.bridgeId, p))
      && s.rootPathCost < 0x8000_0000
      && forall i :: 0 <= i < |s.ports| ==>
           var p := s.ports[i];
           var designated := IsDesignated(s.bridgeId, p);
           && (Enabled(p) ==> (p.state == Blocking <==> s.rootPort != Some(i) && !designated))
           && (p.forwardDelayTimer.active <==> p.state == Listening || p.state == Learning)
           && (Enabled(p) ==> (p.messageAgeTimer.active <==> !designated))
           && (p.configPending || p.topologyChangeAck ==> Enabled(p) && designated)
  {
    CreateInv(bigEndian, id);
    RunInv(Create(bigEndian, id), es);
    InvMeans(Run(Create(bigEndian, id), es));
  }
}

/** What is configured stays as configured: over every run the identifiers, costs, switches
    and requested times of a bridge are what its management operations last made them. */
module StpSettings {
  import opened Wrappers
  import opened StpModel
  import opened StpSteps
  import opened StpSending

  datatype PortSettings = PortSettings(portId: nat, pathCost: nat, enabled: bool, changeDetection: bool)

  datatype Settings = Settings(
    bigEndian: bool, bridgeId: nat, rqMaxAge: int, rqHelloTime: int, rqForwardDelay: int, ports: seq<PortSettings>)

  function PortSettingsOf(p: Port): PortSettings {
    PortSettings(p.portId, p.pathCost, Enabled(p), p.changeDetection)
  }

  function PortsSettings(ports: seq<Port>): (r: seq<PortSettings>)
    ensures |r| == |ports| && forall i :: 0 <= i < |r| ==> r[i] == PortSettingsOf(ports[i])
  {
    seq(|ports|, i requires 0 <= i < |ports| => PortSettingsOf(ports[i]))
  }

  function SettingsOf(s: Bridge): Settings {
    Settings(s.bigEndian, s.bridgeId, s.rqMaxAge, s.rqHelloTime, s.rqForwardDelay, PortsSettings(s.ports))
  }

  /** What an operation changes in the settings; enabling a port turns its change detection on. */
  function Changed(x: Settings, e: Event): Settings
    requires |x.ports| == MAX_PORTS && Legal(e)
  {
    match e
    case ESetBridgeId(id) => x.(bridgeId := id)
    case ESetHelloTime(ms) => x.(rqHelloTime := ms)
    case ESetMaxAge(ms) => x.(rqMaxAge := ms)
    case ESetForwardDelay(ms) => x.(rqForwardDelay := ms)
    case EEnable(i) =>
      if x.ports[i].enabled then x
      else x.(ports := x.ports[i := x.ports[i].(enabled := true, changeDetection := true)])
    case EDisable(i) => x.(ports := x.ports[i := x.ports[i].(enabled := false)])
    case ESetPathCost(i, cost) => x.(ports := x.ports[i := x.ports[i].(pathCost := cost)])
    case ESetChangeDetection(i, on) => x.(ports := x.ports[i := x.ports[i].(changeDetection := on)])
    case _ => x
  }

  // ---------------------------------------------------------------- what changes no settings

  predicate SamePortSettings(s: Bridge, t: Bridge, i: nat)
    requires i < |s.ports| && i < |t.ports|
  {
    PortSettingsOf(t.ports[i]) == PortSettingsOf(s.ports[i])
  }

  predicate SameRequests(s: Bridge, t: Bridge) {
    && t.bigEndian == s.bigEndian && t.bridgeId == s.bridgeId
    && t.rqMaxAge == s.rqMaxAge && t.rqHelloTime == s.rqHelloTime && t.rqForwardDelay == s.rqForwardDelay
    && t.bridgeMaxAge == s.bridgeMaxAge && t.bridgeHelloTime == s.bridgeHelloTime
    && t.bridgeForwardDelay == s.bridgeForwardDelay
  }

  predicate SameSettings(s: Bridge, t: Bridge) {
    && SameRequests(s, t) && |t.ports| == |s.ports|
    && forall i :: 0 <= i < |s.ports| ==> SamePortSettings(s, t, i)
  }

  lemma SameSettingsOf(s: Bridge, t: Bridge)
    requires SameSettings(s, t)
    ensures SettingsOf(t) == SettingsOf(s)
  {
    var a, b := PortsSettings(s.ports), PortsSettings(t.ports);
    forall i | 0 <= i < |a| ensures a[i] == b[i] { assert SamePortSettings(s, t, i); }
  }

  lemma SameTransitive(s: Bridge, t: Bridge, u: Bridge)
    requires SameSettings(s, t) && SameSettings(t, u)
    ensures SameSettings(s, u)
  {
    forall i | 0 <= i < |s.ports| ensures SamePortSettings(s, u, i) {
      assert SamePortSettings(s, t, i) && SamePortSettings(t, u, i);
    }
  }

  lemma SamePortsSame(s: Bridge, t: Bridge)
    requires SameRequests(s, t) && t.ports == s.ports
    ensures SameSettings(s, t)
  {
    forall i | 0 <= i < |s.ports| ensures SamePortSettings(s, t, i) { }
  }

  lemma OnePortSame(s: Bridge, t: Bridge, i: nat)
    requires SameRequests(s, t) && i < |s.ports| && |t.ports| == |s.ports| && t.ports == s.ports[i := t.ports[i]]
    requires SamePortSettings(s, t, i)
    ensures SameSettings(s, t)
  {
    forall j | 0 <= j < |s.ports| ensures SamePortSettings(s, t, j) { }
  }

  lemma OnlySentSame(s: Bridge, t: Bridge)
    requires OnlySent(s, t)
    ensures SameSettings(s, t)
  {
    forall i | 0 <= i < |s.ports| ensures SamePortSettings(s, t, i) { assert PortSentFrom(s, t, i); }
  }

  lemma GenerationSame(s: Bridge)
    requires RootPortInRange(s)
    ensures SameSettings(s, ConfigGeneration(s))
  {
    GenerateExact(s, |s.ports|);
    OnlySentSame(s, ConfigGeneration(s));
  }

  lemma TransmitSame(s: Bridge, i: nat)
    requires i < |s.ports| && RootPortInRange(s)
    ensures SameSettings(s, TransmitConfig(s, i))
  {
    TransmitOnlySent(s, i);
    OnlySentSame(s, TransmitConfig(s, i));
  }

  lemma UpdateSame(s: Bridge)
    ensures SameSettings(s, ConfigurationUpdate(s))
  {
    var r, t := RootSelection(s), ConfigurationUpdate(s);
    assert SameRequests(s, t);
    forall i | 0 <= i < |s.ports| ensures SamePortSettings(s, t, i) {
      assert t.ports[i] == r.ports[i] || t.ports[i] == Designate(r, r.ports[i]);
    }
  }

  lemma SelectionSame(s: Bridge)
    ensures SameSettings(s, StateSelection(s))
  {
    var t := StateSelection(s);
    assert SameRequests(s, t);
    forall i | 0 <= i < |s.ports| ensures SamePortSettings(s, t, i) {
      assert t.ports[i] == SelectState(s, i);
    }
  }

  lemma ReselectSame(s: Bridge)
    ensures SameSettings(s, Reselect(s))
  {
    UpdateSame(s);
    SelectionSame(ConfigurationUpdate(s));
    SameTransitive(s, ConfigurationUpdate(s), Reselect(s));
  }

  lemma BecomeRootSame(s: Bridge)
    requires RootPortInRange(s)
    ensures SameSettings(s, BecomeRootBridge(s))
  {
    var b := TopologyChangeDetection(OwnTimes(s));
    var c := b.(tcnTimer := Stop(b.tcnTimer));
    SamePortsSame(s, c);
    GenerationSame(c);
    SameTransitive(s, c, ConfigGeneration(c));
    SamePortsSame(ConfigGeneration(c), BecomeRootBridge(s));
    SameTransitive(s, ConfigGeneration(c), BecomeRootBridge(s));
  }

  lemma ReselectAsRootSame(s: Bridge, wasRoot: bool)
    ensures SameSettings(s, ReselectAsRoot(s, wasRoot))
  {
    var u := Reselect(s);
    ReselectSame(s);
    if IsRoot(u) && !wasRoot {
      BecomeRootSame(u);
      SameTransitive(s, u, BecomeRootBridge(u));
    }
  }

  lemma AgePortSame(s: Bridge, elapsed: nat, i: nat)
    requires i < |s.ports| && RootPortInRange(s)
    ensures SameSettings(s, AgePort(s, elapsed, i))
  {
    var p := s.ports[i];
    var u := s.(ports := s.ports[i := p.(messageAgeTimer := Charge(p.messageAgeTimer, elapsed, s.maxAge))]);
    SamePortsSame(s, s);
    OnePortSame(s, u, i);
    if Enabled(p) && Expires(p.messageAgeTimer, elapsed, s.maxAge) {
      var v := BecomeDesignated(u, i);
      OnePortSame(s, v, i);
      ReselectAsRootSame(v, IsRoot(u));
      SameTransitive(s, v, MessageAgeExpiry(u, i));
    }
  }

  predicate AgedSame(s: Bridge, elapsed: nat, n: nat)
    requires n <= |s.ports| && RootPortInRange(s)
  {
    SameSettings(s, AgePorts(s, elapsed, n))
  }

  lemma AgeOneMoreSame(s: Bridge, elapsed: nat, n: nat)
    requires n < |s.ports| && RootPortInRange(s) && AgedSame(s, elapsed, n)
    ensures AgedSame(s, elapsed, n + 1)
  {
    var u := AgePorts(s, elapsed, n);
    AgePortSame(u, elapsed, n);
    SameTransitive(s, u, AgePort(u, elapsed, n));
  }

  lemma {:induction false} AgePortsSame(s: Bridge, elapsed: nat, n: nat)
    requires n <= |s.ports| && RootPortInRange(s)
    ensures AgedSame(s, elapsed, n)
  {
    if n == 0 {
      SamePortsSame(s, s);
    } else {
      AgePortsSame(s, elapsed, n - 1);
      AgeOneMoreSame(s, elapsed, n - 1);
    }
  }

  lemma ForwardDelaySame(s: Bridge, elapsed: nat, i: nat)
    requires i < |s.ports|
    ensures SameSettings(s, ChargeForwardDelay(s, elapsed, i))
  {
    ForwardDelayPorts(s, elapsed, i);
    OnePortSame(s, ChargeForwardDelay(s, elapsed, i), i);
  }

  lemma HoldSame(s: Bridge, elapsed: nat, i: nat)
    requires i < |s.ports| && RootPortInRange(s)
    ensures SameSettings(s, ChargeHold(s, elapsed, i))
  {
    var p := s.ports[i];
    var u := s.(ports := s.ports[i := p.(holdTimer := Charge(p.holdTimer, elapsed, TICKS_PER_SECOND))]);
    OnePortSame(s, u, i);
    TransmitSame(u, i);
    SameTransitive(s, u, TransmitConfig(u, i));
  }

  lemma DelayPortSame(s: Bridge, elapsed: nat, i: nat)
    requires i < |s.ports| && RootPortInRange(s)
    ensures SameSettings(s, DelayPort(s, elapsed, i))
  {
    SamePortsSame(s, s);
    if Enabled(s.ports[i]) {
      var u := ChargeForwardDelay(s, elapsed, i);
      ForwardDelaySame(s, elapsed, i);
      HoldSame(u, elapsed, i);
      SameTransitive(s, u, ChargeHold(u, elapsed, i));
    }
  }

  predicate DelayedSame(s: Bridge, elapsed: nat, n: nat)
    requires n <= |s.ports| && RootPortInRange(s)
  {
    SameSettings(s, DelayPorts(s, elapsed, n))
  }

  lemma DelayOneMoreSame(s: Bridge, elapsed: nat, n: nat)
    requires n < |s.ports| && RootPortInRange(s) && DelayedSame(s, elapsed, n)
    ensures DelayedSame(s, elapsed, n + 1)
  {
    var u := DelayPorts(s, elapsed, n);
    DelayPortSame(u, elapsed, n);
    SameTransitive(s, u, DelayPort(u, elapsed, n));
  }

  lemma {:induction false} DelayPortsSame(s: Bridge, elapsed: nat, n: nat)
    requires n <= |s.ports| && RootPortInRange(s)
    ensures DelayedSame(s, elapsed, n)
  {
    if n == 0 {
      SamePortsSame(s, s);
    } else {
      DelayPortsSame(s, elapsed, n - 1);
      DelayOneMoreSame(s, elapsed, n - 1);
    }
  }

  lemma BridgeTimersSame(s: Bridge, elapsed: nat)
    requires RootPortInRange(s)
    ensures SameSettings(s, TickBridgeTimers(s, elapsed))
  {
    var a := s.(helloTimer := Charge(s.helloTimer, elapsed, s.helloTime));
    var h := TickHello(s, elapsed);
    SamePortsSame(s, a);
    GenerationSame(a);
    SameTransitive(s, a, ConfigGeneration(a));
    SamePortsSame(ConfigGeneration(a), ConfigGeneration(a).(helloTimer := Start(0)));
    SameTransitive(s, ConfigGeneration(a), ConfigGeneration(a).(helloTimer := Start(0)));
    OtherTimersSame(h, elapsed);
    SameTransitive(s, h, TickBridgeTimers(s, elapsed));
  }

  lemma OtherTimersSame(s: Bridge, elapsed: nat)
    ensures SameSettings(s, TickTopologyChange(TickTcn(s, elapsed), elapsed))
  {
    SamePortsSame(s, TickTcn(s, elapsed));
    SamePortsSame(TickTcn(s, elapsed), TickTopologyChange(TickTcn(s, elapsed), elapsed));
    SameTransitive(s, TickTcn(s, elapsed), TickTopologyChange(TickTcn(s, elapsed), elapsed));
  }

  lemma TickSame(s: Bridge, elapsed: nat)
    requires RootPortInRange(s)
    ensures SameSettings(s, Tick(s, elapsed))
  {
    SamePortsSame(s, s);
    if elapsed > 0 {
      var a := TickBridgeTimers(s, elapsed);
      var b := AgePorts(a, elapsed, |a.ports|);
      BridgeTimersSame(s, elapsed);
      AgePortsSame(a, elapsed, |a.ports|);
      SameTransitive(s, a, b);
      DelayPortsSame(b, elapsed, |b.ports|);
      SameTransitive(s, b, Tick(s, elapsed));
    }
  }

  lemma AcceptSame(s: Bridge, i: nat, c: Bpdu)
    requires i < |s.ports| && c.Config?
    ensures SameSettings(s, Accept(s, i, c))
  {
    var r := Record(s, i, c);
    var a := Reselect(r);
    var b := if !IsRoot(a) && IsRoot(s) then StepDown(a) else a;
    OnePortSame(s, r, i);
    ReselectSame(r);
    SameTransitive(s, r, a);
    SamePortsSame(a, b);
    SameTransitive(s, a, b);
    if b.rootPort == Some(i) {
      RelaySame(b, c);
      SameTransitive(s, b, Relay(b, c));
    }
  }

  lemma RelaySame(s: Bridge, c: Bpdu)
    requires c.Config? && RootPortInRange(s)
    ensures SameSettings(s, Relay(s, c))
  {
    var d := RecordTimeouts(s, c);
    SamePortsSame(s, d);
    GenerationSame(d);
    SameTransitive(s, d, ConfigGeneration(d));
    SamePortsSame(ConfigGeneration(d), Relay(s, c));
    SameTransitive(s, ConfigGeneration(d), Relay(s, c));
  }

  lemma ReceivedConfigSame(s: Bridge, i: nat, c: Bpdu)
    requires i < |s.ports| && c.Config? && RootPortInRange(s)
    ensures SameSettings(s, ReceivedConfig(s, i, c))
  {
    SamePortsSame(s, s);
    AcceptSame(s, i, c);
    TransmitSame(s, i);
  }

  lemma ReceivedTcnSame(s: Bridge, i: nat)
    requires i < |s.ports| && RootPortInRange(s)
    ensures SameSettings(s, ReceivedTcn(s, i))
  {
    SamePortsSame(s, s);
    var u := TopologyChangeDetection(s);
    var v := u.(ports := u.ports[i := u.ports[i].(topologyChangeAck := true)]);
    OnePortSame(s, v, i);
    TransmitSame(v, i);
    SameTransitive(s, v, TransmitConfig(v, i));
  }

  // ---------------------------------------------------------------- what changes some

  lemma SettingsAt(s: Bridge, t: Bridge, i: nat, x: PortSettings)
    requires i < |s.ports| && |t.ports| == |s.ports| && SameRequests(s, t) && PortSettingsOf(t.ports[i]) == x
    requires forall j :: 0 <= j < |s.ports| && j != i ==> SamePortSettings(s, t, j)
    ensures SettingsOf(t) == SettingsOf(s).(ports := PortsSettings(s.ports)[i := x])
  {
    var a, b := PortsSettings(s.ports)[i := x], PortsSettings(t.ports);
    forall j | 0 <= j < |a| ensures a[j] == b[j] {
      if j != i { assert SamePortSettings(s, t, j); }
    }
  }

  lemma EnableSettings(s: Bridge, i: nat)
    requires Shaped(s) && i < MAX_PORTS
    ensures SettingsOf(PortEnable(s, i)) == Changed(SettingsOf(s), EEnable(i))
  {
    if !Enabled(s.ports[i]) {
      var u := InitializePort(s, i, Blocking);
      SelectionSame(u);
      SameSettingsOf(u, StateSelection(u));
      SettingsAt(s, u, i, PortSettingsOf(s.ports[i]).(enabled := true, changeDetection := true));
    }
  }

  lemma DisableSettings(s: Bridge, i: nat)
    requires Shaped(s) && i < MAX_PORTS
    ensures SettingsOf(PortDisable(s, i)) == Changed(SettingsOf(s), EDisable(i))
  {
    if Enabled(s.ports[i]) {
      var u := SwitchOff(s, i);
      ReselectAsRootSame(u, IsRoot(s));
      SameSettingsOf(u, ReselectAsRoot(u, IsRoot(s)));
      SettingsAt(s, u, i, PortSettingsOf(s.ports[i]).(enabled := false));
    } else {
      SettingsAt(s, s, i, PortSettingsOf(s.ports[i]));
    }
  }

  lemma PathCostSettings(s: Bridge, i: nat, cost: nat)
    requires Shaped(s) && i < MAX_PORTS && 1 <= cost < 0x1_0000
    ensures SettingsOf(PortSetPathCost(s, i, cost)) == Changed(SettingsOf(s), ESetPathCost(i, cost))
  {
    var u := s.(ports := s.ports[i := s.ports[i].(pathCost := cost)]);
    SettingsAt(s, u, i, PortSettingsOf(s.ports[i]).(pathCost := cost));
    if cost != s.ports[i].pathCost {
      ReselectSame(u);
      SameSettingsOf(u, Reselect(u));
    } else {
      assert u.ports == s.ports;
    }
  }

  lemma BridgeIdSettings(s: Bridge, id: nat)
    requires Shaped(s)
    ensures SettingsOf(SetBridgeId(s, id)) == SettingsOf(s).(bridgeId := id)
  {
    if id != s.bridgeId {
      var u := Rename(s, id);
      ReselectAsRootSame(u, IsRoot(s));
      SameSettingsOf(u, ReselectAsRoot(u, IsRoot(s)));
      SamePortsSettings(s, u);
    }
  }

  lemma SamePortsSettings(s: Bridge, u: Bridge)
    requires |u.ports| == |s.ports| && forall j :: 0 <= j < |s.ports| ==> SamePortSettings(s, u, j)
    ensures PortsSettings(u.ports) == PortsSettings(s.ports)
  {
    var a, b := PortsSettings(s.ports), PortsSettings(u.ports);
    forall j | 0 <= j < |a| ensures a[j] == b[j] { assert SamePortSettings(s, u, j); }
  }

  lemma DetectionSettings(s: Bridge, i: nat, on: bool)
    requires Shaped(s) && i < MAX_PORTS
    ensures SettingsOf(SetChangeDetection(s, i, on)) == Changed(SettingsOf(s), ESetChangeDetection(i, on))
  {
    SettingsAt(s, SetChangeDetection(s, i, on), i, PortSettingsOf(s.ports[i]).(changeDetection := on));
  }

  /** Every operation changes the settings it is for and no others. */
  lemma StepSettings(s: Bridge, e: Event)
    requires Shaped(s) && Legal(e)
    ensures SettingsOf(Step(s, e)) == Changed(SettingsOf(s), e)
  {
    match e
    case ETick(elapsed) => TickSame(s, elapsed); SameSettingsOf(s, Step(s, e));
    case EReceiveConfig(i, c) => ReceivedConfigSame(s, i, c); SameSettingsOf(s, Step(s, e));
    case EReceiveTcn(i) => ReceivedTcnSame(s, i); SameSettingsOf(s, Step(s, e));
    case ESetBridgeId(id) => BridgeIdSettings(s, id);
    case EEnable(i) => EnableSettings(s, i);
    case EDisable(i) => DisableSettings(s, i);
    case ESetPathCost(i, cost) => PathCostSettings(s, i, cost);
    case ESetChangeDetection(i, on) => DetectionSettings(s, i, on);
    case _ =>
  }

  /** The settings after a run of operations. */
  function ChangedBy(x: Settings, es: seq<Event>): (y: Settings)
    requires |x.ports| == MAX_PORTS && forall k :: 0 <= k < |es| ==> Legal(es[k])
    ensures |y.ports| == MAX_PORTS
  {
    if es == [] then x else Changed(ChangedBy(x, es[..|es| - 1]), es[|es| - 1])
  }

  /** Whatever happens to a bridge, its settings are what its management operations made them. */
  lemma {:induction false} RunSettings(s: Bridge, es: seq<Event>)
    requires Shaped(s) && forall k :: 0 <= k < |es| ==> Legal(es[k])
    ensures SettingsOf(Run(s, es)) == ChangedBy(SettingsOf(s), es)
  {
    if es != [] {
      RunSettings(s, es[..|es| - 1]);
      StepSettings(Run(s, es[..|es| - 1]), es[|es| - 1]);
    }
  }

  // ---------------------------------------------------------------- the bridge's own times

  /** The bridge's own times are those asked for, put into range. */
  predicate TimesFit(s: Bridge) {
    var ht := HelloMs(s.rqHelloTime);
    var ma := MaxAgeMs(s.rqMaxAge, ht);
    && s.bridgeHelloTime == MsToTimer(ht) && s.bridgeMaxAge == MsToTimer(ma)
    && s.bridgeForwardDelay == MsToTimer(ForwardDelayMs(s.rqForwardDelay, ma))
  }

  lemma SameTimesFit(s: Bridge, t: Bridge)
    requires SameSettings(s, t) && TimesFit(s)
    ensures TimesFit(t)
  {
  }

  lemma ManagedTimesFit(s: Bridge, e: Event)
    requires Shaped(s) && Legal(e) && TimesFit(s)
    requires e.EEnable? || e.EDisable? || e.ESetPathCost? || e.ESetChangeDetection? || e.ESetBridgeId?
    ensures TimesFit(Step(s, e))
  {
    match e
    case EEnable(i) => SelectionSame(InitializePort(s, i, Blocking));
    case EDisable(i) => ReselectAsRootSame(SwitchOff(s, i), IsRoot(s));
    case ESetPathCost(i, cost) => ReselectSame(s.(ports := s.ports[i := s.ports[i].(pathCost := cost)]));
    case ESetBridgeId(id) => ReselectAsRootSame(Rename(s, id), IsRoot(s));
    case _ =>
  }

  lemma StepTimesFit(s: Bridge, e: Event)
    requires Shaped(s) && Legal(e) && TimesFit(s)
    ensures TimesFit(Step(s, e))
  {
    match e
    case ETick(elapsed) => TickSame(s, elapsed); SameTimesFit(s, Step(s, e));
    case EReceiveConfig(i, c) => ReceivedConfigSame(s, i, c); SameTimesFit(s, Step(s, e));
    case EReceiveTcn(i) => ReceivedTcnSame(s, i); SameTimesFit(s, Step(s, e));
    case EEnable(_) | EDisable(_) | ESetPathCost(_, _) | ESetChangeDetection(_, _) | ESetBridgeId(_) =>
      ManagedTimesFit(s, e);
    case _ =>
  }

  /** After every run the bridge's own times are those last asked for, put into range. */
  lemma {:induction false} RunTimesFit(bigEndian: bool, id: nat, es: seq<Event>)
    requires forall k :: 0 <= k < |es| ==> Legal(es[k])
    ensures TimesFit(Run(Create(bigEndian, id), es))
  {
    if es != [] {
      RunTimesFit(bigEndian, id, es[..|es| - 1]);
      StepTimesFit(Run(Create(bigEndian, id), es[..|es| - 1]), es[|es| - 1]);
    }
  }

  /** Times asked for that are in range are granted. */
  lemma InRangeIsGranted(s: Bridge)
    requires TimesFit(s) && 1000 <= s.rqHelloTime <= 10000
    requires s.rqMaxAge >= 6000 && 2 * (s.rqHelloTime + 1000) <= s.rqMaxAge <= 40000
    requires s.rqMaxAge / 2 + 1000 <= s.rqForwardDelay <= 30000
    ensures s.bridgeHelloTime == MsToTimer(s.rqHelloTime) && s.bridgeMaxAge == MsToTimer(s.rqMaxAge)
    ensures s.bridgeForwardDelay == MsToTimer(s.rqForwardDelay)
  {
  }

  lemma TimerMonotone(a: nat, b: nat)
    requires a <= b
    ensures MsToTimer(a) <= MsToTimer(b)
  {
  }

  /** Whatever is asked for, hello time is from 1 to 10 seconds, max age from 6 to 40, forward
      delay from 4 to 30; max age is at least twice a second more than the hello time, and
      at most twice a second less than the forward delay, to within two ticks. */
  lemma TimesInRange(s: Bridge)
    requires TimesFit(s)
    ensures 256 <= s.bridgeHelloTime <= 2560 && 1536 <= s.bridgeMaxAge <= 10240 && 1024 <= s.bridgeForwardDelay <= 7680
    ensures 2 * (s.bridgeHelloTime + TICKS_PER_SECOND) <= s.bridgeMaxAge
    ensures s.bridgeMaxAge <= 2 * (s.bridgeForwardDelay - TICKS_PER_SECOND) + 2
  {
    var ht := HelloMs(s.rqHelloTime);
    var ma := MaxAgeMs(s.rqMaxAge, ht);
    var fd := ForwardDelayMs(s.rqForwardDelay, ma);
    TimerMonotone(1000, ht);
    TimerMonotone(ht, 10000);
    TimerMonotone(6000, ma);
    TimerMonotone(ma, 40000);
    TimerMonotone(4000, fd);
    TimerMonotone(fd, 30000);
    TimerMonotone(2 * (ht + 1000), ma);
  }

  /** Max age is at most twice a second less than the forward delay, in milliseconds, except
      when it is odd and the forward delay is put to its least. */
  lemma ForwardDelayRelation(rqForwardDelay: int, maxAge: nat)
    requires 6000 <= maxAge <= 40000
    ensures maxAge <= 2 * (ForwardDelayMs(rqForwardDelay, maxAge) - 1000)
            <==> maxAge % 2 == 0 || rqForwardDelay > maxAge / 2 + 1000
  {
  }

  /** As with a max age of 6001 milliseconds and a forward delay of 4000. */
  lemma RelationFails()
    ensures MaxAgeMs(6001, 2000) == 6001 && ForwardDelayMs(4000, 6001) == 4000 && !(6001 <= 2 * (4000 - 1000))
  {
  }

  /** What a new bridge is set to: the identifier asked for, with the default priority if it
      has none, and ports that are off, cost 19 and have the default priority. */
  lemma NewSettings(bigEndian: bool, id: nat, i: nat)
    requires i < MAX_PORTS
    ensures
      var x := SettingsOf(Create(bigEndian, id));
      && x.bigEndian == bigEndian && x.bridgeId % 0x1_0000_0000_0000 == id % 0x1_0000_0000_0000
      && x.bridgeId / 0x1_0000_0000_0000 ==
           (if id < 0x1_0000_0000_0000 then 32768 else id / 0x1_0000_0000_0000)
      && x.rqMaxAge == 6000 && x.rqHelloTime == 2000 && x.rqForwardDelay == 4000
      && |x.ports| == MAX_PORTS && x.ports[i] == PortSettings(128 * 256 + i + 1, 19, false, true)
  {
    var s := Create(bigEndian, id);
    assert s.ports[i] == NewPort(i, s.bridgeId);
  }
}

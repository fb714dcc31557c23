/** One spanning tree bridge as a value: its fields, the selection rules and every
    operation of the bridge as a function from one bridge value to the next.
    The mutable bridge of module StpBridge is proved against these functions, and the
    theorems about runs and networks of bridges are stated over them. */
module StpModel {
  import opened Wrappers

  const MAX_PORTS: nat := 255

  /** One second in timer ticks; also the hold time between two BPDUs of a port. */
  const TICKS_PER_SECOND: nat := 256

  const MESSAGE_AGE_INCREMENT: nat := 1

  /** Costs arriving from the wire stay below this, so that no sum of a received cost and
      a 16-bit path cost leaves the range of a 32-bit signed int. */
  const COST_LIMIT: nat := 0x8000_0000 - 0x1_0000

  datatype PortState = Disabled | Listening | Learning | Forwarding | Blocking

  datatype Timer = Timer(active: bool, value: nat)

  function Start(value: nat): Timer { Timer(true, value) }

  function Stop(t: Timer): Timer { t.(active := false) }

  /** The timer runs out when `elapsed` more ticks bring it up to `timeout`. */
  predicate Expires(t: Timer, elapsed: nat, timeout: nat) {
    t.active && t.value + elapsed >= timeout
  }

  function Charge(t: Timer, elapsed: nat, timeout: nat): Timer {
    if t.active then Timer(!Expires(t, elapsed, timeout), t.value + elapsed) else t
  }

  datatype Port = Port(
    portId: nat,
    state: PortState,
    pathCost: nat,
    designatedRoot: nat,
    designatedCost: nat,
    designatedBridge: nat,
    designatedPort: nat,
    topologyChangeAck: bool,
    configPending: bool,
    changeDetection: bool,
    messageAgeTimer: Timer,
    forwardDelayTimer: Timer,
    holdTimer: Timer)

  datatype Bpdu =
    | Config(rootId: nat, rootPathCost: nat, bridgeId: nat, portId: nat, messageAge: nat,
             maxAge: nat, helloTime: nat, forwardDelay: nat,
             topologyChangeAck: bool, topologyChange: bool)
    | Tcn

  /** A BPDU handed to the client's send callback, with the port it leaves on. */
  datatype Sent = Sent(port: nat, bpdu: Bpdu)

  datatype Bridge = Bridge(
    bigEndian: bool,
    bridgeId: nat,
    maxAge: nat, helloTime: nat, forwardDelay: nat,
    bridgeMaxAge: nat, bridgeHelloTime: nat, bridgeForwardDelay: nat,
    rqMaxAge: int, rqHelloTime: int, rqForwardDelay: int,
    designatedRoot: nat, rootPathCost: nat, rootPort: Option<nat>,
    topologyChangeDetected: bool, topologyChange: bool,
    helloTimer: Timer, tcnTimer: Timer, topologyChangeTimer: Timer,
    ports: seq<Port>,
    sent: seq<Sent>)

  predicate Enabled(p: Port) { p.state != Disabled }

  predicate RootPortInRange(s: Bridge) {
    s.rootPort.Some? ==> s.rootPort.value < |s.ports|
  }

  predicate IsRoot(s: Bridge) { s.bridgeId == s.designatedRoot }

  predicate IsDesignated(bridgeId: nat, p: Port) {
    p.designatedBridge == bridgeId && p.designatedPort == p.portId
  }

  /** Both ports hold the same information about their LAN. */
  predicate SameInfo(p: Port, q: Port) {
    && p.designatedRoot == q.designatedRoot && p.designatedCost == q.designatedCost
    && p.designatedBridge == q.designatedBridge && p.designatedPort == q.designatedPort
  }

  // ---------------------------------------------------------------- selection rules

  /** Port `p` is a better way to the root than port `root`. */
  predicate SupersedesRoot(root: Port, p: Port) {
    var pCost := p.designatedCost + p.pathCost;
    var rootCost := root.designatedCost + root.pathCost;
    if p.designatedRoot != root.designatedRoot then p.designatedRoot < root.designatedRoot
    else if pCost != rootCost then pCost < rootCost
    else if p.designatedBridge != root.designatedBridge then p.designatedBridge < root.designatedBridge
    else if p.designatedPort != root.designatedPort then p.designatedPort < root.designatedPort
    else p.portId < root.portId
  }

  /** Port `p` may become the root port. */
  predicate Candidate(bridgeId: nat, p: Port) {
    Enabled(p) && !IsDesignated(bridgeId, p) && p.designatedRoot < bridgeId
  }

  /** What the root selection scan has picked after looking at the first `n` ports. */
  function BestRoot(bridgeId: nat, ports: seq<Port>, n: nat): (r: Option<nat>)
    requires n <= |ports|
    ensures r.Some? ==> r.value < n
  {
    if n == 0 then None
    else
      var r := BestRoot(bridgeId, ports, n - 1);
      if !Candidate(bridgeId, ports[n - 1])
         || (r.Some? && !SupersedesRoot(ports[r.value], ports[n - 1])) then r
      else Some(n - 1)
  }

  function RootSelection(s: Bridge): (t: Bridge)
    ensures t.ports == s.ports && RootPortInRange(t)
  {
    var r := BestRoot(s.bridgeId, s.ports, |s.ports|);
    match r
    case None => s.(rootPort := None, designatedRoot := s.bridgeId, rootPathCost := 0)
    case Some(i) =>
      s.(rootPort := r, designatedRoot := s.ports[i].designatedRoot,
         rootPathCost := s.ports[i].designatedCost + s.ports[i].pathCost)
  }

  /** The bridge takes over the LAN of port `p`. */
  predicate TakesOver(s: Bridge, p: Port) {
    || IsDesignated(s.bridgeId, p)
    || p.designatedRoot != s.designatedRoot
    || s.rootPathCost < p.designatedCost
    || (s.rootPathCost == p.designatedCost
        && (s.bridgeId < p.designatedBridge
            || (s.bridgeId == p.designatedBridge && p.portId <= p.designatedPort)))
  }

  function Designate(s: Bridge, p: Port): Port {
    p.(designatedRoot := s.designatedRoot, designatedCost := s.rootPathCost,
       designatedBridge := s.bridgeId, designatedPort := p.portId)
  }

  function BecomeDesignated(s: Bridge, i: nat): Bridge
    requires i < |s.ports|
  {
    s.(ports := s.ports[i := Designate(s, s.ports[i])])
  }

  function DesignatedPortSelection(s: Bridge): (t: Bridge)
    ensures |t.ports| == |s.ports| && t.rootPort == s.rootPort
  {
    s.(ports := seq(|s.ports|, i requires 0 <= i < |s.ports| =>
      if Enabled(s.ports[i]) && TakesOver(s, s.ports[i]) then Designate(s, s.ports[i])
      else s.ports[i]))
  }

  function ConfigurationUpdate(s: Bridge): (t: Bridge)
    ensures |t.ports| == |s.ports| && RootPortInRange(t)
  {
    DesignatedPortSelection(RootSelection(s))
  }

  // ---------------------------------------------------------------- topology changes

  function TransmitTcn(s: Bridge): Bridge {
    match s.rootPort
    case None => s
    case Some(r) => s.(sent := s.sent + [Sent(r, Tcn)])
  }

  function TopologyChangeDetection(s: Bridge): (t: Bridge)
    ensures t.ports == s.ports && t.rootPort == s.rootPort
  {
    var t :=
      if IsRoot(s) then s.(topologyChange := true, topologyChangeTimer := Start(0))
      else if !s.topologyChangeDetected then TransmitTcn(s).(tcnTimer := Start(0))
      else s;
    t.(topologyChangeDetected := true)
  }

  /** Detecting the change a second time in a row adds nothing. */
  lemma DetectionIdempotent(s: Bridge)
    ensures TopologyChangeDetection(TopologyChangeDetection(s)) == TopologyChangeDetection(s)
  {
  }

  lemma DetectionIgnoresPorts(s: Bridge, ports: seq<Port>)
    ensures TopologyChangeDetection(s.(ports := ports)) == TopologyChangeDetection(s).(ports := ports)
  {
  }

  function TopologyChangeAcknowledged(s: Bridge): Bridge {
    s.(topologyChangeDetected := false, tcnTimer := Stop(s.tcnTimer))
  }

  // ---------------------------------------------------------------- port states

  function MakeForwarding(p: Port): Port {
    if p.state == Blocking then p.(state := Listening, forwardDelayTimer := Start(0)) else p
  }

  function MakeBlocking(p: Port): Port {
    if p.state == Disabled || p.state == Blocking then p
    else p.(state := Blocking, forwardDelayTimer := Stop(p.forwardDelayTimer))
  }

  /** Port `i` after port state selection. */
  function SelectState(s: Bridge, i: nat): Port
    requires i < |s.ports|
  {
    var p := s.ports[i];
    if !Enabled(p) then p
    else if s.rootPort == Some(i) then
      MakeForwarding(p.(configPending := false, topologyChangeAck := false))
    else if IsDesignated(s.bridgeId, p) then
      MakeForwarding(p.(messageAgeTimer := Stop(p.messageAgeTimer)))
    else MakeBlocking(p.(configPending := false, topologyChangeAck := false))
  }

  /** Selection moves port `i` from learning or forwarding back to blocking, and the port
      reports that as a topology change. */
  predicate StopsForwarding(s: Bridge, i: nat)
    requires i < |s.ports|
  {
    var p := s.ports[i];
    s.rootPort != Some(i) && !IsDesignated(s.bridgeId, p)
    && (p.state == Forwarding || p.state == Learning) && p.changeDetection
  }

  function StateSelection(s: Bridge): (t: Bridge)
    ensures |t.ports| == |s.ports| && t.rootPort == s.rootPort
  {
    var t := s.(ports := seq(|s.ports|, i requires 0 <= i < |s.ports| => SelectState(s, i)));
    if exists i :: 0 <= i < |s.ports| && StopsForwarding(s, i) then TopologyChangeDetection(t) else t
  }

  /** The effect on the bridge of the ports of `s` looked at so far: the change is reported
      once, however many ports stopped forwarding. */
  function Reported(s: Bridge, reported: bool, ports: seq<Port>): Bridge {
    (if reported then TopologyChangeDetection(s) else s).(ports := ports)
  }

  lemma ReportedOneMore(s: Bridge, reported: bool, ports: seq<Port>, i: nat)
    requires i < |ports| == |s.ports| && ports[i] == s.ports[i]
    ensures
      var u := Reported(s, reported, ports);
      && StopsForwarding(u, i) == StopsForwarding(s, i) && SelectState(u, i) == SelectState(s, i)
      && Reported(u, StopsForwarding(u, i), ports[i := SelectState(u, i)])
         == Reported(s, reported || StopsForwarding(s, i), ports[i := SelectState(s, i)])
  {
    DetectionIgnoresPorts(s, ports);
    DetectionIgnoresPorts(TopologyChangeDetection(s), ports);
    DetectionIdempotent(s);
  }

  function Reselect(s: Bridge): (t: Bridge)
    ensures |t.ports| == |s.ports| && RootPortInRange(t)
  {
    StateSelection(ConfigurationUpdate(s))
  }

  // ---------------------------------------------------------------- sending

  /** The age a config BPDU leaves with: 0 from the root, otherwise one more than the age
      of the information on the root port, in a 16-bit field. */
  function SentAge(s: Bridge): nat
    requires RootPortInRange(s)
    requires !IsRoot(s) ==> s.rootPort.Some?
  {
    if IsRoot(s) then 0
    else (s.ports[s.rootPort.value].messageAgeTimer.value + MESSAGE_AGE_INCREMENT) % 0x1_0000
  }

  /** The config BPDU the bridge sends on port `i`. On a little-endian host the flag bits
      are shifted out of the one-byte flags field, so they are never sent. */
  function ConfigOn(s: Bridge, i: nat): Bpdu
    requires i < |s.ports|
    requires RootPortInRange(s)
    requires !IsRoot(s) ==> s.rootPort.Some?
  {
    Config(s.designatedRoot, s.rootPathCost, s.bridgeId, s.ports[i].portId, SentAge(s),
           s.maxAge, s.helloTime, s.forwardDelay,
           s.bigEndian && s.ports[i].topologyChangeAck, s.bigEndian && s.topologyChange)
  }

  function TransmitConfig(s: Bridge, i: nat): (t: Bridge)
    requires i < |s.ports| && RootPortInRange(s)
    ensures |t.ports| == |s.ports| && t.rootPort == s.rootPort
  {
    var p := s.ports[i];
    if !IsRoot(s) && s.rootPort.None? then s
    else if p.holdTimer.active then s.(ports := s.ports[i := p.(configPending := true)])
    else if SentAge(s) < s.maxAge then
      s.(sent := s.sent + [Sent(i, ConfigOn(s, i))],
         ports := s.ports[i := p.(topologyChangeAck := false, configPending := false,
                                  holdTimer := Start(0))])
    else s
  }

  /** Config BPDUs on the designated ports among the first `n`. */
  function GenerateUpTo(s: Bridge, n: nat): (t: Bridge)
    requires n <= |s.ports| && RootPortInRange(s)
    ensures |t.ports| == |s.ports| && t.rootPort == s.rootPort
  {
    if n == 0 then s
    else
      var u := GenerateUpTo(s, n - 1);
      if Enabled(u.ports[n - 1]) && IsDesignated(u.bridgeId, u.ports[n - 1]) then TransmitConfig(u, n - 1)
      else u
  }

  function ConfigGeneration(s: Bridge): (t: Bridge)
    requires RootPortInRange(s)
    ensures |t.ports| == |s.ports| && t.rootPort == s.rootPort
  {
    GenerateUpTo(s, |s.ports|)
  }

  /** Own timer values take over, the change is announced and hellos start again. */
  function BecomeRootBridge(s: Bridge): (t: Bridge)
    requires RootPortInRange(s)
    ensures |t.ports| == |s.ports| && t.rootPort == s.rootPort
  {
    var b := TopologyChangeDetection(OwnTimes(s));
    var c := ConfigGeneration(b.(tcnTimer := Stop(b.tcnTimer)));
    c.(helloTimer := Start(0))
  }

  /** Selection, then the announcement if the bridge has just become root. */
  function ReselectAsRoot(s: Bridge, wasRoot: bool): (t: Bridge)
    ensures |t.ports| == |s.ports| && RootPortInRange(t)
  {
    var u := Reselect(s);
    if IsRoot(u) && !wasRoot then BecomeRootBridge(u) else u
  }

  // ---------------------------------------------------------------- receiving

  predicate SupersedesPortInfo(s: Bridge, p: Port, c: Bpdu)
    requires c.Config?
  {
    if c.rootId != p.designatedRoot then c.rootId < p.designatedRoot
    else if c.rootPathCost != p.designatedCost then c.rootPathCost < p.designatedCost
    else if c.bridgeId != p.designatedBridge then c.bridgeId < p.designatedBridge
    else c.bridgeId != s.bridgeId || c.portId <= p.designatedPort
  }

  function Record(s: Bridge, i: nat, c: Bpdu): Bridge
    requires i < |s.ports| && c.Config?
  {
    s.(ports := s.ports[i := s.ports[i].(
      designatedRoot := c.rootId, designatedCost := c.rootPathCost,
      designatedBridge := c.bridgeId, designatedPort := c.portId,
      messageAgeTimer := Start(c.messageAge))])
  }

  /** Takes over the root's times, and tells the designated ports' LANs. */
  function Relay(s: Bridge, c: Bpdu): (t: Bridge)
    requires c.Config? && RootPortInRange(s)
    ensures |t.ports| == |s.ports| && t.rootPort == s.rootPort
  {
    var d := ConfigGeneration(RecordTimeouts(s, c));
    if s.bigEndian && c.topologyChangeAck then TopologyChangeAcknowledged(d) else d
  }

  function RecordTimeouts(s: Bridge, c: Bpdu): Bridge
    requires c.Config?
  {
    s.(maxAge := c.maxAge, helloTime := c.helloTime, forwardDelay := c.forwardDelay,
       topologyChange := s.bigEndian && c.topologyChange)
  }

  /** What the bridge does on learning that it is no longer the root. */
  function StepDown(s: Bridge): Bridge {
    var t := s.(helloTimer := Stop(s.helloTimer));
    if !t.topologyChangeDetected then t
    else TransmitTcn(t.(topologyChangeTimer := Stop(t.topologyChangeTimer))).(tcnTimer := Start(0))
  }

  /** A config BPDU that supersedes what port `i` knew. */
  function Accept(s: Bridge, i: nat, c: Bpdu): (t: Bridge)
    requires i < |s.ports| && c.Config?
    ensures |t.ports| == |s.ports| && RootPortInRange(t)
  {
    var a := Reselect(Record(s, i, c));
    var b := if !IsRoot(a) && IsRoot(s) then StepDown(a) else a;
    if b.rootPort == Some(i) then Relay(b, c) else b
  }

  function ReceivedConfig(s: Bridge, i: nat, c: Bpdu): (t: Bridge)
    requires i < |s.ports| && c.Config? && RootPortInRange(s)
    ensures |t.ports| == |s.ports| && RootPortInRange(t)
  {
    if c.messageAge >= c.maxAge || !Enabled(s.ports[i]) then s
    else if SupersedesPortInfo(s, s.ports[i], c) then Accept(s, i, c)
    else if IsDesignated(s.bridgeId, s.ports[i]) then TransmitConfig(s, i)
    else s
  }

  function ReceivedTcn(s: Bridge, i: nat): (t: Bridge)
    requires i < |s.ports| && RootPortInRange(s)
    ensures |t.ports| == |s.ports| && RootPortInRange(t)
  {
    if Enabled(s.ports[i]) && IsDesignated(s.bridgeId, s.ports[i]) then
      var u := TopologyChangeDetection(s);
      TransmitConfig(u.(ports := u.ports[i := u.ports[i].(topologyChangeAck := true)]), i)
    else s
  }

  // ---------------------------------------------------------------- time

  function MessageAgeExpiry(s: Bridge, i: nat): (t: Bridge)
    requires i < |s.ports|
    ensures |t.ports| == |s.ports| && RootPortInRange(t)
  {
    ReselectAsRoot(BecomeDesignated(s, i), IsRoot(s))
  }

  function AgePort(s: Bridge, elapsed: nat, i: nat): (t: Bridge)
    requires i < |s.ports| && RootPortInRange(s)
    ensures |t.ports| == |s.ports| && RootPortInRange(t)
  {
    var p := s.ports[i];
    if !Enabled(p) then s
    else
      var u := s.(ports := s.ports[i := p.(messageAgeTimer := Charge(p.messageAgeTimer, elapsed, s.maxAge))]);
      if Expires(p.messageAgeTimer, elapsed, s.maxAge) then MessageAgeExpiry(u, i) else u
  }

  function AgePorts(s: Bridge, elapsed: nat, n: nat): (t: Bridge)
    requires n <= |s.ports| && RootPortInRange(s)
    ensures |t.ports| == |s.ports| && RootPortInRange(t)
  {
    if n == 0 then s else AgePort(AgePorts(s, elapsed, n - 1), elapsed, n - 1)
  }

  predicate DesignatedForSomePort(s: Bridge) {
    exists i :: 0 <= i < |s.ports| && Enabled(s.ports[i]) && s.ports[i].designatedBridge == s.bridgeId
  }

  function ForwardDelayExpiry(s: Bridge, i: nat): (t: Bridge)
    requires i < |s.ports|
    ensures |t.ports| == |s.ports| && t.rootPort == s.rootPort
  {
    var p := s.ports[i];
    if p.state == Listening then
      s.(ports := s.ports[i := p.(state := Learning, forwardDelayTimer := Start(0))])
    else if p.state == Learning then
      var u := s.(ports := s.ports[i := p.(state := Forwarding)]);
      if DesignatedForSomePort(u) && p.changeDetection then TopologyChangeDetection(u) else u
    else s
  }

  /** The forward delay timer of port `i`. */
  function ChargeForwardDelay(s: Bridge, elapsed: nat, i: nat): (t: Bridge)
    requires i < |s.ports|
    ensures |t.ports| == |s.ports| && t.rootPort == s.rootPort
  {
    var p := s.ports[i];
    var u := s.(ports := s.ports[i := p.(forwardDelayTimer := Charge(p.forwardDelayTimer, elapsed, s.forwardDelay))]);
    if Expires(p.forwardDelayTimer, elapsed, s.forwardDelay) then ForwardDelayExpiry(u, i) else u
  }

  /** The hold timer of port `i`. */
  function ChargeHold(s: Bridge, elapsed: nat, i: nat): (t: Bridge)
    requires i < |s.ports| && RootPortInRange(s)
    ensures |t.ports| == |s.ports| && t.rootPort == s.rootPort
  {
    var p := s.ports[i];
    var u := s.(ports := s.ports[i := p.(holdTimer := Charge(p.holdTimer, elapsed, TICKS_PER_SECOND))]);
    if Expires(p.holdTimer, elapsed, TICKS_PER_SECOND) && p.configPending then TransmitConfig(u, i) else u
  }

  function DelayPort(s: Bridge, elapsed: nat, i: nat): (t: Bridge)
    requires i < |s.ports| && RootPortInRange(s)
    ensures |t.ports| == |s.ports| && t.rootPort == s.rootPort
  {
    if !Enabled(s.ports[i]) then s
    else ChargeHold(ChargeForwardDelay(s, elapsed, i), elapsed, i)
  }

  function DelayPorts(s: Bridge, elapsed: nat, n: nat): (t: Bridge)
    requires n <= |s.ports| && RootPortInRange(s)
    ensures |t.ports| == |s.ports| && t.rootPort == s.rootPort
  {
    if n == 0 then s else DelayPort(DelayPorts(s, elapsed, n - 1), elapsed, n - 1)
  }

  function TickHello(s: Bridge, elapsed: nat): (t: Bridge)
    requires RootPortInRange(s)
    ensures |t.ports| == |s.ports| && t.rootPort == s.rootPort
  {
    var a := s.(helloTimer := Charge(s.helloTimer, elapsed, s.helloTime));
    if Expires(s.helloTimer, elapsed, s.helloTime) then ConfigGeneration(a).(helloTimer := Start(0)) else a
  }

  function TickTcn(s: Bridge, elapsed: nat): (t: Bridge)
    ensures t.ports == s.ports && t.rootPort == s.rootPort
  {
    var a := s.(tcnTimer := Charge(s.tcnTimer, elapsed, s.bridgeHelloTime));
    if Expires(s.tcnTimer, elapsed, s.bridgeHelloTime) then TransmitTcn(a).(tcnTimer := Start(0)) else a
  }

  function TickTopologyChange(s: Bridge, elapsed: nat): (t: Bridge)
    ensures t.ports == s.ports && t.rootPort == s.rootPort
  {
    var timeout := s.maxAge + s.forwardDelay;
    var a := s.(topologyChangeTimer := Charge(s.topologyChangeTimer, elapsed, timeout));
    if Expires(s.topologyChangeTimer, elapsed, timeout)
    then a.(topologyChangeDetected := false, topologyChange := false) else a
  }

  /** The three bridge timers. */
  function TickBridgeTimers(s: Bridge, elapsed: nat): (t: Bridge)
    requires RootPortInRange(s)
    ensures |t.ports| == |s.ports| && t.rootPort == s.rootPort
  {
    TickTopologyChange(TickTcn(TickHello(s, elapsed), elapsed), elapsed)
  }

  function Tick(s: Bridge, elapsed: nat): (t: Bridge)
    requires RootPortInRange(s)
    ensures |t.ports| == |s.ports| && RootPortInRange(t)
  {
    if elapsed == 0 then s
    else
      var a := AgePorts(TickBridgeTimers(s, elapsed), elapsed, |s.ports|);
      DelayPorts(a, elapsed, |s.ports|)
  }

  // ---------------------------------------------------------------- management

  /** The enabled designated ports speak for the new identifier. */
  function Rename(s: Bridge, id: nat): (t: Bridge)
    ensures |t.ports| == |s.ports|
  {
    s.(bridgeId := id, ports := seq(|s.ports|, i requires 0 <= i < |s.ports| =>
      if Enabled(s.ports[i]) && IsDesignated(s.bridgeId, s.ports[i])
      then s.ports[i].(designatedBridge := id) else s.ports[i]))
  }

  function SetBridgeId(s: Bridge, id: nat): (t: Bridge)
    requires RootPortInRange(s)
    ensures |t.ports| == |s.ports| && RootPortInRange(t)
  {
    if id == s.bridgeId then s else ReselectAsRoot(Rename(s, id), IsRoot(s))
  }

  function InitializePort(s: Bridge, i: nat, state: PortState): (t: Bridge)
    requires i < |s.ports|
    ensures |t.ports| == |s.ports|
  {
    var p := Designate(s, s.ports[i]);
    s.(ports := s.ports[i := p.(state := state, topologyChangeAck := false, configPending := false,
                                changeDetection := true,
                                messageAgeTimer := Stop(p.messageAgeTimer),
                                forwardDelayTimer := Stop(p.forwardDelayTimer),
                                holdTimer := Stop(p.holdTimer))])
  }

  function PortEnable(s: Bridge, i: nat): (t: Bridge)
    requires i < |s.ports| && RootPortInRange(s)
    ensures |t.ports| == |s.ports| && RootPortInRange(t)
  {
    if Enabled(s.ports[i]) then s else StateSelection(InitializePort(s, i, Blocking))
  }

  /** The fields of port `i` as it is switched off, before selection runs again. */
  function SwitchOff(s: Bridge, i: nat): (t: Bridge)
    requires i < |s.ports|
    ensures |t.ports| == |s.ports|
  {
    var p := Designate(s, s.ports[i]);
    s.(ports := s.ports[i := p.(state := Disabled, topologyChangeAck := false, configPending := false,
                                messageAgeTimer := Stop(p.messageAgeTimer),
                                forwardDelayTimer := Stop(p.forwardDelayTimer))])
  }

  function PortDisable(s: Bridge, i: nat): (t: Bridge)
    requires i < |s.ports| && RootPortInRange(s)
    ensures |t.ports| == |s.ports| && RootPortInRange(t)
  {
    if !Enabled(s.ports[i]) then s else ReselectAsRoot(SwitchOff(s, i), IsRoot(s))
  }

  function PortSetPathCost(s: Bridge, i: nat, pathCost: nat): (t: Bridge)
    requires i < |s.ports| && RootPortInRange(s)
    ensures |t.ports| == |s.ports| && RootPortInRange(t)
  {
    if pathCost == s.ports[i].pathCost then s
    else Reselect(s.(ports := s.ports[i := s.ports[i].(pathCost := pathCost)]))
  }

  function SetChangeDetection(s: Bridge, i: nat, on: bool): (t: Bridge)
    requires i < |s.ports|
    ensures |t.ports| == |s.ports|
  {
    s.(ports := s.ports[i := s.ports[i].(changeDetection := on)])
  }

  function Clamp(x: int, min: int, max: int): int {
    if x < min then min else if x > max then max else x
  }

  function MsToTimer(ms: nat): nat { ms * 0x100 / 1000 }

  /** Requested times, in milliseconds, clamped into the ranges of the standard. */
  function HelloMs(requested: int): (ms: nat)
    ensures 1000 <= ms <= 10000
  {
    Clamp(requested, 1000, 10000)
  }

  function MaxAgeMs(requested: int, hello: nat): (ms: nat)
    requires hello <= 10000
    ensures 6000 <= ms <= 40000 && 2 * (hello + 1000) <= ms
  {
    Clamp(requested, if 2 * (hello + 1000) > 6000 then 2 * (hello + 1000) else 6000, 40000)
  }

  function ForwardDelayMs(requested: int, maxAge: nat): (ms: nat)
    requires 6000 <= maxAge <= 40000
    ensures 4000 <= ms <= 30000 && maxAge <= 2 * (ms - 1000) + 1
  {
    Clamp(requested, maxAge / 2 + 1000, 30000)
  }

  function OwnTimes(s: Bridge): Bridge {
    s.(maxAge := s.bridgeMaxAge, helloTime := s.bridgeHelloTime, forwardDelay := s.bridgeForwardDelay)
  }

  function UpdateBridgeTimers(s: Bridge): (t: Bridge)
    ensures t.ports == s.ports && t.bridgeMaxAge <= 10240
  {
    var ht := HelloMs(s.rqHelloTime);
    var ma := MaxAgeMs(s.rqMaxAge, ht);
    var fd := ForwardDelayMs(s.rqForwardDelay, ma);
    var t := s.(bridgeHelloTime := MsToTimer(ht), bridgeMaxAge := MsToTimer(ma),
                bridgeForwardDelay := MsToTimer(fd));
    if IsRoot(t) then OwnTimes(t) else t
  }

  // ---------------------------------------------------------------- creation

  function NewPort(i: nat, bridgeId: nat): Port {
    var id := i + 1 + 128 * 256;
    Port(id, Disabled, 19, bridgeId, 0, bridgeId, id, false, false, true,
         Timer(false, 0), Timer(false, 0), Timer(false, 0))
  }

  /** An identifier without a priority gets the default one. */
  function DefaultId(requestedId: nat): nat {
    if requestedId / 0x1_0000_0000_0000 == 0 then requestedId + 32768 * 0x1_0000_0000_0000 else requestedId
  }

  /** A new bridge before its times are set. */
  function Blank(bigEndian: bool, id: nat): (t: Bridge)
    ensures |t.ports| == MAX_PORTS
  {
    Bridge(bigEndian, id, 0, 0, 0, 0, 0, 0, 6000, 2000, 4000, id, 0, None, false, false,
           Start(0), Timer(false, 0), Timer(false, 0),
           seq(MAX_PORTS, i requires 0 <= i < MAX_PORTS => NewPort(i, id)), [])
  }

  /** A new bridge: no port enabled, and itself the root. */
  function Create(bigEndian: bool, requestedId: nat): (t: Bridge)
    ensures |t.ports| == MAX_PORTS
  {
    UpdateBridgeTimers(Blank(bigEndian, DefaultId(requestedId)))
  }
}

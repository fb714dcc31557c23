/** The bridge as the mutable object the source keeps: one record of bridge fields and a
    fixed array of ports, updated in place. Every method is proved to take the bridge to the
    value that the corresponding function of StpModel gives. */
module StpBridge {
  import opened Wrappers
  import opened StpModel
  import opened StpInvariant
  import StpSteps

  // ---------------------------------------------------------------- what the operations keep

  lemma ReceivedConfigKeeps(s: Bridge, i: nat, c: Bpdu)
    requires i < |s.ports| && c.Config? && RootPortInRange(s)
    ensures c.maxAge <= 0xffff && c.rootPathCost < COST_LIMIT && Inv(s) ==> Inv(ReceivedConfig(s, i, c))
  {
    if c.maxAge <= 0xffff && c.rootPathCost < COST_LIMIT && Inv(s) { StpSteps.ReceivedConfigInv(s, i, c); }
  }

  lemma ReceivedTcnKeeps(s: Bridge, i: nat)
    requires i < |s.ports| && RootPortInRange(s)
    ensures Inv(s) ==> Inv(ReceivedTcn(s, i))
  {
    if Inv(s) { StpSteps.ReceivedTcnInv(s, i); }
  }

  lemma TickKeeps(s: Bridge, elapsed: nat)
    requires RootPortInRange(s)
    ensures Inv(s) ==> Inv(Tick(s, elapsed))
  {
    if Inv(s) { StpSteps.TickInv(s, elapsed); }
  }

  lemma SetBridgeIdKeeps(s: Bridge, id: nat)
    requires RootPortInRange(s)
    ensures Inv(s) ==> Inv(SetBridgeId(s, id))
  {
    if Inv(s) { StpSteps.SetBridgeIdInv(s, id); }
  }

  lemma PortEnableKeeps(s: Bridge, i: nat)
    requires i < |s.ports| && RootPortInRange(s)
    ensures Inv(s) ==> Inv(PortEnable(s, i))
  {
    if Inv(s) { StpSteps.PortEnableInv(s, i); }
  }

  lemma PortDisableKeeps(s: Bridge, i: nat)
    requires i < |s.ports| && RootPortInRange(s)
    ensures Inv(s) ==> Inv(PortDisable(s, i))
  {
    if Inv(s) { StpSteps.PortDisableInv(s, i); }
  }

  lemma PathCostKeeps(s: Bridge, i: nat, cost: nat)
    requires i < |s.ports| && RootPortInRange(s)
    ensures 1 <= cost < 0x1_0000 && Inv(s) ==> Inv(PortSetPathCost(s, i, cost))
  {
    if 1 <= cost < 0x1_0000 && Inv(s) { StpSteps.PortSetPathCostInv(s, i, cost); }
  }

  lemma UpdateTimersKeeps(s: Bridge)
    ensures Inv(s) ==> Inv(UpdateBridgeTimers(s))
  {
    if Inv(s) { StpSteps.UpdateBridgeTimersInv(s, s.rqHelloTime, s.rqMaxAge, s.rqForwardDelay); }
  }

  class Stp {
    const bigEndian: bool
    var bridgeId: nat
    var maxAge: nat
    var helloTime: nat
    var forwardDelay: nat
    var bridgeMaxAge: nat
    var bridgeHelloTime: nat
    var bridgeForwardDelay: nat
    var rqMaxAge: int
    var rqHelloTime: int
    var rqForwardDelay: int
    var designatedRoot: nat
    var rootPathCost: nat
    var rootPort: Option<nat>
    var topologyChangeDetected: bool
    var topologyChange: bool
    var helloTimer: Timer
    var tcnTimer: Timer
    var topologyChangeTimer: Timer
    const ports: array<Port>
    var sent: seq<Sent>

    /** The bridge as a value. */
    ghost function View(): Bridge
      reads this, ports
    {
      Bridge(bigEndian, bridgeId, maxAge, helloTime, forwardDelay,
             bridgeMaxAge, bridgeHelloTime, bridgeForwardDelay,
             rqMaxAge, rqHelloTime, rqForwardDelay,
             designatedRoot, rootPathCost, rootPort, topologyChangeDetected, topologyChange,
             helloTimer, tcnTimer, topologyChangeTimer, ports[..], sent)
    }

    ghost predicate Valid()
      reads this, ports
    {
      ports.Length == MAX_PORTS && (rootPort.Some? ==> rootPort.value < ports.Length)
    }

    /** Roles, states and timers fit together, as on every bridge that only its public
        operations have changed. */
    ghost predicate Settled()
      reads this, ports
    {
      Inv(View())
    }

    // -------------------------------------------------------------- selection

    predicate IsDesignatedPort(i: nat)
      requires i < ports.Length
      reads this, ports
      ensures IsDesignatedPort(i) <==> IsDesignated(View().bridgeId, View().ports[i])
    {
      ports[i].designatedBridge == bridgeId && ports[i].designatedPort == ports[i].portId
    }

    method RootSelection()
      requires Valid()
      modifies this
      ensures Valid() && View() == StpModel.RootSelection(old(View()))
    {
      var root: Option<nat> := None;
      for i := 0 to ports.Length
        invariant root == BestRoot(bridgeId, ports[..], i)
        invariant View() == old(View())
      {
        var p := ports[i];
        if p.state == Disabled || IsDesignatedPort(i) || p.designatedRoot >= bridgeId {
          continue;
        }
        if root.Some? && !SupersedesRoot(ports[root.value], p) {
          continue;
        }
        root := Some(i);
      }
      rootPort := root;
      if root.None? {
        designatedRoot := bridgeId;
        rootPathCost := 0;
      } else {
        designatedRoot := ports[root.value].designatedRoot;
        rootPathCost := ports[root.value].designatedCost + ports[root.value].pathCost;
      }
    }

    method BecomeDesignatedPort(i: nat)
      requires Valid() && i < ports.Length
      modifies ports
      ensures Valid() && View() == BecomeDesignated(old(View()), i)
    {
      ports[i] := ports[i].(designatedRoot := designatedRoot, designatedCost := rootPathCost,
                            designatedBridge := bridgeId, designatedPort := ports[i].portId);
    }

    method DesignatedPortSelection()
      requires Valid()
      modifies ports
      ensures Valid() && View() == StpModel.DesignatedPortSelection(old(View()))
    {
      ghost var goal := StpModel.DesignatedPortSelection(View());
      for i := 0 to ports.Length
        invariant forall j :: 0 <= j < i ==> ports[j] == goal.ports[j]
        invariant forall j :: i <= j < ports.Length ==> ports[j] == old(ports[j])
      {
        var p := ports[i];
        if p.state != Disabled
           && (IsDesignatedPort(i)
               || p.designatedRoot != designatedRoot
               || rootPathCost < p.designatedCost
               || (rootPathCost == p.designatedCost
                   && (bridgeId < p.designatedBridge
                       || (bridgeId == p.designatedBridge && p.portId <= p.designatedPort)))) {
          BecomeDesignatedPort(i);
        }
      }
      assert ports[..] == goal.ports;
    }

    method ConfigurationUpdate()
      requires Valid()
      modifies this, ports
      ensures Valid() && View() == StpModel.ConfigurationUpdate(old(View()))
    {
      RootSelection();
      DesignatedPortSelection();
    }

    // -------------------------------------------------------------- topology changes

    method TransmitTcn()
      requires Valid()
      modifies `sent
      ensures Valid() && View() == StpModel.TransmitTcn(old(View()))
    {
      if rootPort.None? {
        return;
      }
      sent := sent + [Sent(rootPort.value, Tcn)];
    }

    method TopologyChangeDetection()
      requires Valid()
      modifies this
      ensures Valid() && View() == StpModel.TopologyChangeDetection(old(View()))
    {
      if bridgeId == designatedRoot {
        topologyChange := true;
        topologyChangeTimer := Start(0);
      } else if !topologyChangeDetected {
        TransmitTcn();
        tcnTimer := Start(0);
      }
      topologyChangeDetected := true;
    }

    // -------------------------------------------------------------- port states

    method MakeForwarding(i: nat)
      requires Valid() && i < ports.Length
      modifies ports
      ensures Valid() && View() == old(View()).(ports := old(ports[..])[i := StpModel.MakeForwarding(old(ports[i]))])
    {
      if ports[i].state == Blocking {
        ports[i] := ports[i].(state := Listening, forwardDelayTimer := Start(0));
      }
    }

    /** Blocks the port, and reports a topology change if it was learning or forwarding. */
    method MakeBlocking(i: nat)
      requires Valid() && i < ports.Length
      modifies this, ports
      ensures Valid()
      ensures
        var s := old(View());
        var p := s.ports[i];
        View() == (if (p.state == Forwarding || p.state == Learning) && p.changeDetection
                   then StpModel.TopologyChangeDetection(s) else s)
                  .(ports := s.ports[i := StpModel.MakeBlocking(p)])
    {
      var p := ports[i];
      if p.state != Disabled && p.state != Blocking {
        if p.state == Forwarding || p.state == Learning {
          if p.changeDetection {
            TopologyChangeDetection();
          }
        }
        ports[i] := ports[i].(state := Blocking, forwardDelayTimer := Stop(p.forwardDelayTimer));
      }
    }

    /** The body of the loop of port state selection. */
    method SelectPortState(i: nat)
      requires Valid() && i < ports.Length && ports[i].state != Disabled
      modifies this, ports
      ensures Valid()
      ensures
        var s := old(View());
        View() == Reported(s, StopsForwarding(s, i), s.ports[i := SelectState(s, i)])
    {
      if rootPort == Some(i) {
        ports[i] := ports[i].(configPending := false, topologyChangeAck := false);
        MakeForwarding(i);
      } else if IsDesignatedPort(i) {
        ports[i] := ports[i].(messageAgeTimer := Stop(ports[i].messageAgeTimer));
        MakeForwarding(i);
      } else {
        BlockPort(i);
      }
    }

    /** The body of the loop for a port that has no role. */
    method BlockPort(i: nat)
      requires Valid() && i < ports.Length && ports[i].state != Disabled
      requires rootPort != Some(i) && !IsDesignatedPort(i)
      modifies this, ports
      ensures Valid()
      ensures
        var s := old(View());
        View() == Reported(s, StopsForwarding(s, i), s.ports[i := SelectState(s, i)])
    {
      ports[i] := ports[i].(configPending := false, topologyChangeAck := false);
      DetectionIgnoresPorts(old(View()), ports[..]);
      MakeBlocking(i);
    }

    method PortStateSelection()
      requires Valid()
      modifies this, ports
      ensures Valid() && View() == StateSelection(old(View()))
    {
      ghost var s := View();
      ghost var reported := SelectPortStates();
      DetectionIgnoresPorts(s, ports[..]);
      assert ports[..] == seq(|s.ports|, i requires 0 <= i < |s.ports| => SelectState(s, i));
    }

    /** The loop of port state selection: whether it reports a change, and what it makes of the ports. */
    method SelectPortStates() returns (ghost reported: bool)
      requires Valid()
      modifies this, ports
      ensures Valid()
      ensures
        var s := old(View());
        && (reported <==> exists j :: 0 <= j < |s.ports| && StopsForwarding(s, j))
        && View() == Reported(s, reported, ports[..])
        && forall j :: 0 <= j < |s.ports| ==> ports[j] == SelectState(s, j)
    {
      ghost var s := View();
      reported := false;
      for i := 0 to ports.Length
        invariant Valid()
        invariant reported <==> exists j :: 0 <= j < i && StopsForwarding(s, j)
        invariant View() == Reported(s, reported, ports[..])
        invariant forall j :: 0 <= j < i ==> ports[j] == SelectState(s, j)
        invariant forall j :: i <= j < ports.Length ==> ports[j] == s.ports[j]
      {
        if ports[i].state != Disabled {
          ReportedOneMore(s, reported, ports[..], i);
          SelectPortState(i);
          reported := reported || StopsForwarding(s, i);
        }
      }
    }

    // -------------------------------------------------------------- sending

    method TransmitConfig(i: nat)
      requires Valid() && i < ports.Length
      modifies `sent, ports
      ensures Valid() && View() == StpModel.TransmitConfig(old(View()), i)
    {
      var root := bridgeId == designatedRoot;
      if !root && rootPort.None? {
        return;
      }
      if ports[i].holdTimer.active {
        ports[i] := ports[i].(configPending := true);
      } else {
        var age := if root then 0
                   else (ports[rootPort.value].messageAgeTimer.value + MESSAGE_AGE_INCREMENT) % 0x1_0000;
        var config := Config(designatedRoot, rootPathCost, bridgeId, ports[i].portId, age,
                             maxAge, helloTime, forwardDelay,
                             bigEndian && ports[i].topologyChangeAck, bigEndian && topologyChange);
        if age < maxAge {
          ports[i] := ports[i].(topologyChangeAck := false, configPending := false);
          sent := sent + [Sent(i, config)];
          ports[i] := ports[i].(holdTimer := Start(0));
        }
      }
    }

    method ConfigBpduGeneration()
      requires Valid()
      modifies `sent, ports
      ensures Valid() && View() == ConfigGeneration(old(View()))
    {
      ghost var s := View();
      for i := 0 to ports.Length
        invariant Valid()
        invariant View() == GenerateUpTo(s, i)
      {
        if ports[i].state != Disabled && IsDesignatedPort(i) {
          TransmitConfig(i);
        }
      }
    }

    method AdoptOwnTimes()
      requires Valid()
      modifies `maxAge, `helloTime, `forwardDelay
      ensures Valid() && View() == OwnTimes(old(View()))
    {
      maxAge := bridgeMaxAge;
      helloTime := bridgeHelloTime;
      forwardDelay := bridgeForwardDelay;
    }

    method BecomeRootBridge()
      requires Valid()
      modifies this, ports
      ensures Valid() && View() == StpModel.BecomeRootBridge(old(View()))
    {
      AdoptOwnTimes();
      TopologyChangeDetection();
      tcnTimer := Stop(tcnTimer);
      ConfigBpduGeneration();
      helloTimer := Start(0);
    }

    /** Selection, and the announcement if the bridge has just become root. */
    method ReselectAsRoot(wasRoot: bool)
      requires Valid()
      modifies this, ports
      ensures Valid() && View() == StpModel.ReselectAsRoot(old(View()), wasRoot)
    {
      ConfigurationUpdate();
      PortStateSelection();
      if bridgeId == designatedRoot && !wasRoot {
        BecomeRootBridge();
      }
    }

    // -------------------------------------------------------------- receiving

    method RecordConfigInformation(i: nat, c: Bpdu)
      requires Valid() && i < ports.Length && c.Config?
      modifies ports
      ensures Valid() && View() == Record(old(View()), i, c)
    {
      ports[i] := ports[i].(designatedRoot := c.rootId, designatedCost := c.rootPathCost,
                            designatedBridge := c.bridgeId, designatedPort := c.portId,
                            messageAgeTimer := Start(c.messageAge));
    }

    method LoseRoot()
      requires Valid()
      modifies this
      ensures Valid() && View() == StepDown(old(View()))
    {
      helloTimer := Stop(helloTimer);
      if topologyChangeDetected {
        topologyChangeTimer := Stop(topologyChangeTimer);
        TransmitTcn();
        tcnTimer := Start(0);
      }
    }

    method RecordConfigTimeoutValues(c: Bpdu)
      requires Valid() && c.Config?
      modifies `maxAge, `helloTime, `forwardDelay, `topologyChange
      ensures Valid() && View() == RecordTimeouts(old(View()), c)
    {
      maxAge := c.maxAge;
      helloTime := c.helloTime;
      forwardDelay := c.forwardDelay;
      topologyChange := bigEndian && c.topologyChange;
    }

    method RelayConfig(c: Bpdu)
      requires Valid() && c.Config?
      modifies this, ports
      ensures Valid() && View() == Relay(old(View()), c)
    {
      RecordConfigTimeoutValues(c);
      ConfigBpduGeneration();
      if bigEndian && c.topologyChangeAck {
        topologyChangeDetected := false;
        tcnTimer := Stop(tcnTimer);
      }
    }

    method AcceptConfig(i: nat, c: Bpdu)
      requires Valid() && i < ports.Length && c.Config?
      modifies this, ports
      ensures Valid() && View() == Accept(old(View()), i, c)
    {
      var root := bridgeId == designatedRoot;
      RecordConfigInformation(i, c);
      ConfigurationUpdate();
      PortStateSelection();
      if bridgeId != designatedRoot && root {
        LoseRoot();
      }
      if rootPort == Some(i) {
        RelayConfig(c);
      }
    }

    method ReceivedConfigBpdu(i: nat, c: Bpdu)
      requires Valid() && i < ports.Length && c.Config?
      modifies this, ports
      ensures Valid() && View() == ReceivedConfig(old(View()), i, c)
      ensures c.maxAge <= 0xffff && c.rootPathCost < COST_LIMIT && old(Settled()) ==> Settled()
    {
      ReceivedConfigKeeps(View(), i, c);
      if c.messageAge >= c.maxAge {
        return;
      }
      if ports[i].state != Disabled {
        if SupersedesInfo(i, c) {
          AcceptConfig(i, c);
        } else if IsDesignatedPort(i) {
          TransmitConfig(i);
        }
      }
    }

    predicate SupersedesInfo(i: nat, c: Bpdu)
      requires i < ports.Length && c.Config?
      reads this, ports
      ensures SupersedesInfo(i, c) <==> SupersedesPortInfo(View(), View().ports[i], c)
    {
      var p := ports[i];
      if c.rootId != p.designatedRoot then c.rootId < p.designatedRoot
      else if c.rootPathCost != p.designatedCost then c.rootPathCost < p.designatedCost
      else if c.bridgeId != p.designatedBridge then c.bridgeId < p.designatedBridge
      else c.bridgeId != bridgeId || c.portId <= p.designatedPort
    }

    method ReceivedTcnBpdu(i: nat)
      requires Valid() && i < ports.Length
      modifies this, ports
      ensures Valid() && View() == ReceivedTcn(old(View()), i)
      ensures old(Settled()) ==> Settled()
    {
      ReceivedTcnKeeps(View(), i);
      if ports[i].state != Disabled {
        if IsDesignatedPort(i) {
          TopologyChangeDetection();
          ports[i] := ports[i].(topologyChangeAck := true);
          TransmitConfig(i);
        }
      }
    }

    // -------------------------------------------------------------- time

    method MessageAgeTimerExpiry(i: nat)
      requires Valid() && i < ports.Length
      modifies this, ports
      ensures Valid() && View() == MessageAgeExpiry(old(View()), i)
    {
      var root := bridgeId == designatedRoot;
      BecomeDesignatedPort(i);
      ReselectAsRoot(root);
    }

    method IsDesignatedForSomePort() returns (r: bool)
      requires Valid()
      ensures r == DesignatedForSomePort(View())
    {
      for i := 0 to ports.Length
        invariant forall j :: 0 <= j < i ==> !(Enabled(ports[j]) && ports[j].designatedBridge == bridgeId)
      {
        if ports[i].state != Disabled && ports[i].designatedBridge == bridgeId {
          assert Enabled(View().ports[i]);
          return true;
        }
      }
      return false;
    }

    method ForwardDelayTimerExpiry(i: nat)
      requires Valid() && i < ports.Length
      modifies this, ports
      ensures Valid() && View() == ForwardDelayExpiry(old(View()), i)
    {
      if ports[i].state == Listening {
        ports[i] := ports[i].(state := Learning, forwardDelayTimer := Start(0));
      } else if ports[i].state == Learning {
        ports[i] := ports[i].(state := Forwarding);
        var speaks := IsDesignatedForSomePort();
        if speaks {
          if ports[i].changeDetection {
            TopologyChangeDetection();
          }
        }
      }
    }

    method TickHelloTimer(elapsed: nat)
      requires Valid()
      modifies this, ports
      ensures Valid() && View() == TickHello(old(View()), elapsed)
    {
      var expired := Expires(helloTimer, elapsed, helloTime);
      helloTimer := Charge(helloTimer, elapsed, helloTime);
      if expired {
        ConfigBpduGeneration();
        helloTimer := Start(0);
      }
    }

    method TickTcnTimer(elapsed: nat)
      requires Valid()
      modifies `tcnTimer, `sent
      ensures Valid() && View() == TickTcn(old(View()), elapsed)
    {
      var expired := Expires(tcnTimer, elapsed, bridgeHelloTime);
      tcnTimer := Charge(tcnTimer, elapsed, bridgeHelloTime);
      if expired {
        TransmitTcn();
        tcnTimer := Start(0);
      }
    }

    method TickTopologyChangeTimer(elapsed: nat)
      requires Valid()
      modifies `topologyChangeTimer, `topologyChangeDetected, `topologyChange
      ensures Valid() && View() == TickTopologyChange(old(View()), elapsed)
    {
      var expired := Expires(topologyChangeTimer, elapsed, maxAge + forwardDelay);
      topologyChangeTimer := Charge(topologyChangeTimer, elapsed, maxAge + forwardDelay);
      if expired {
        topologyChangeDetected := false;
        topologyChange := false;
      }
    }

    method TickMessageAge(elapsed: nat)
      requires Valid()
      modifies this, ports
      ensures Valid() && View() == AgePorts(old(View()), elapsed, MAX_PORTS)
    {
      ghost var s := View();
      for i := 0 to ports.Length
        invariant Valid()
        invariant View() == AgePorts(s, elapsed, i)
      {
        TickPortAge(elapsed, i);
      }
    }

    /** The body of the loop over message ages. */
    method TickPortAge(elapsed: nat, i: nat)
      requires Valid() && i < ports.Length
      modifies this, ports
      ensures Valid() && View() == AgePort(old(View()), elapsed, i)
    {
      if ports[i].state != Disabled {
        var expired := Expires(ports[i].messageAgeTimer, elapsed, maxAge);
        ports[i] := ports[i].(messageAgeTimer := Charge(ports[i].messageAgeTimer, elapsed, maxAge));
        if expired {
          MessageAgeTimerExpiry(i);
        }
      }
    }

    method TickForwardDelay(elapsed: nat, i: nat)
      requires Valid() && i < ports.Length
      modifies this, ports
      ensures Valid() && View() == ChargeForwardDelay(old(View()), elapsed, i)
    {
      var expired := Expires(ports[i].forwardDelayTimer, elapsed, forwardDelay);
      ports[i] := ports[i].(forwardDelayTimer := Charge(ports[i].forwardDelayTimer, elapsed, forwardDelay));
      if expired {
        ForwardDelayTimerExpiry(i);
      }
    }

    method TickHold(elapsed: nat, i: nat)
      requires Valid() && i < ports.Length
      modifies this, ports
      ensures Valid() && View() == ChargeHold(old(View()), elapsed, i)
    {
      var expired := Expires(ports[i].holdTimer, elapsed, TICKS_PER_SECOND);
      ports[i] := ports[i].(holdTimer := Charge(ports[i].holdTimer, elapsed, TICKS_PER_SECOND));
      if expired {
        if ports[i].configPending {
          TransmitConfig(i);
        }
      }
    }

    method TickDelays(elapsed: nat)
      requires Valid()
      modifies this, ports
      ensures Valid() && View() == DelayPorts(old(View()), elapsed, MAX_PORTS)
    {
      ghost var s := View();
      for i := 0 to ports.Length
        invariant Valid()
        invariant View() == DelayPorts(s, elapsed, i)
      {
        if ports[i].state != Disabled {
          TickForwardDelay(elapsed, i);
          TickHold(elapsed, i);
        }
      }
    }

    /** Runs the bridge given that `elapsed` timer ticks have passed. */
    method Tick(elapsed: nat)
      requires Valid()
      modifies this, ports
      ensures Valid() && View() == StpModel.Tick(old(View()), elapsed)
      ensures old(Settled()) ==> Settled()
    {
      TickKeeps(View(), elapsed);
      if elapsed == 0 {
        return;
      }
      TickHelloTimer(elapsed);
      TickTcnTimer(elapsed);
      TickTopologyChangeTimer(elapsed);
      TickMessageAge(elapsed);
      TickDelays(elapsed);
    }

    // -------------------------------------------------------------- management

    method SetBridgeId(id: nat)
      requires Valid()
      modifies this, ports
      ensures Valid() && View() == StpModel.SetBridgeId(old(View()), id)
      ensures old(Settled()) ==> Settled()
    {
      SetBridgeIdKeeps(View(), id);
      if id != bridgeId {
        var root := bridgeId == designatedRoot;
        RenameBridge(id);
        ReselectAsRoot(root);
      }
    }

    /** The loop over the designated ports, and the bridge's own identifier. */
    method RenameBridge(id: nat)
      requires Valid()
      modifies this, ports
      ensures Valid() && View() == Rename(old(View()), id)
    {
      ghost var goal := Rename(View(), id);
      for i := 0 to ports.Length
        invariant Valid()
        invariant View().(ports := old(ports[..])) == old(View())
        invariant forall j :: 0 <= j < i ==> ports[j] == goal.ports[j]
        invariant forall j :: i <= j < ports.Length ==> ports[j] == old(ports[j])
      {
        if ports[i].state != Disabled && IsDesignatedPort(i) {
          ports[i] := ports[i].(designatedBridge := id);
        }
      }
      bridgeId := id;
      assert ports[..] == goal.ports;
    }

    method InitializePort(i: nat, state: PortState)
      requires Valid() && i < ports.Length && (state == Disabled || state == Blocking)
      modifies ports
      ensures Valid() && View() == StpModel.InitializePort(old(View()), i, state)
    {
      BecomeDesignatedPort(i);
      var p := ports[i];
      ports[i] := p.(state := state, topologyChangeAck := false, configPending := false,
                     changeDetection := true,
                     messageAgeTimer := Stop(p.messageAgeTimer),
                     forwardDelayTimer := Stop(p.forwardDelayTimer),
                     holdTimer := Stop(p.holdTimer));
    }

    method PortEnable(i: nat)
      requires Valid() && i < ports.Length
      modifies this, ports
      ensures Valid() && View() == StpModel.PortEnable(old(View()), i)
      ensures old(Settled()) ==> Settled()
    {
      PortEnableKeeps(View(), i);
      if ports[i].state == Disabled {
        InitializePort(i, Blocking);
        PortStateSelection();
      }
    }

    method PortDisable(i: nat)
      requires Valid() && i < ports.Length
      modifies this, ports
      ensures Valid() && View() == StpModel.PortDisable(old(View()), i)
      ensures old(Settled()) ==> Settled()
    {
      PortDisableKeeps(View(), i);
      if ports[i].state != Disabled {
        var root := bridgeId == designatedRoot;
        BecomeDesignatedPort(i);
        var p := ports[i];
        ports[i] := p.(state := Disabled, topologyChangeAck := false, configPending := false,
                       messageAgeTimer := Stop(p.messageAgeTimer),
                       forwardDelayTimer := Stop(p.forwardDelayTimer));
        assert View() == SwitchOff(old(View()), i);
        ReselectAsRoot(root);
      }
    }

    method PortSetPathCost(i: nat, pathCost: nat)
      requires Valid() && i < ports.Length
      modifies this, ports
      ensures Valid() && View() == StpModel.PortSetPathCost(old(View()), i, pathCost)
      ensures 1 <= pathCost < 0x1_0000 && old(Settled()) ==> Settled()
    {
      PathCostKeeps(View(), i, pathCost);
      if ports[i].pathCost != pathCost {
        ports[i] := ports[i].(pathCost := pathCost);
        ConfigurationUpdate();
        PortStateSelection();
      }
    }

    /** Recomputes the bridge's own times from the requested ones. */
    method UpdateBridgeTimers()
      requires Valid()
      modifies this
      ensures Valid() && View() == StpModel.UpdateBridgeTimers(old(View()))
      ensures old(Settled()) ==> Settled()
    {
      UpdateTimersKeeps(View());
      var ht := HelloMs(rqHelloTime);
      var ma := MaxAgeMs(rqMaxAge, ht);
      var fd := ForwardDelayMs(rqForwardDelay, ma);
      bridgeHelloTime := MsToTimer(ht);
      bridgeMaxAge := MsToTimer(ma);
      bridgeForwardDelay := MsToTimer(fd);
      if bridgeId == designatedRoot {
        AdoptOwnTimes();
      }
    }

    constructor (bigEndian: bool, requestedId: nat)
      ensures Valid() && fresh(ports) && View() == Create(bigEndian, requestedId) && Settled()
    {
      var id := requestedId;
      if id / 0x1_0000_0000_0000 == 0 {
        id := id + 32768 * 0x1_0000_0000_0000;
      }
      this.bigEndian := bigEndian;
      bridgeId := id;
      rqMaxAge, rqHelloTime, rqForwardDelay := 6000, 2000, 4000;
      maxAge, helloTime, forwardDelay := 0, 0, 0;
      bridgeMaxAge, bridgeHelloTime, bridgeForwardDelay := 0, 0, 0;
      designatedRoot := id;
      rootPathCost := 0;
      rootPort := None;
      topologyChangeDetected, topologyChange := false, false;
      tcnTimer, topologyChangeTimer, helloTimer := Timer(false, 0), Timer(false, 0), Start(0);
      sent := [];
      ports := new Port[MAX_PORTS](i requires 0 <= i < MAX_PORTS => NewPort(i, id));
      new;
      assert ports[..] == seq(MAX_PORTS, i requires 0 <= i < MAX_PORTS => NewPort(i, id));
      assert View() == Blank(bigEndian, DefaultId(requestedId));
      UpdateBridgeTimers();
      NewIsSettled(bigEndian, requestedId);
    }

    lemma NewIsSettled(bigEndian: bool, requestedId: nat)
      requires View() == Create(bigEndian, requestedId)
      ensures Settled()
    {
      StpSteps.CreateInv(bigEndian, requestedId);
    }
  }
}

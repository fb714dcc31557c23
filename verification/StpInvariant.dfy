/** The invariant every operation of a bridge keeps: which ports are root, designated and
    blocking, and which timers run. */
module StpInvariant {
  import opened Wrappers
  import opened StpModel
  import opened StpSelection

  /** What holds of a port between any two statements that matter. */
  predicate PortReady(s: Bridge, i: nat)
    requires i < |s.ports|
  {
    var p := s.ports[i];
    && p.portId % 256 == i + 1
    && 1 <= p.pathCost < 0x1_0000
    && (p.forwardDelayTimer.active <==> p.state == Listening || p.state == Learning)
    && (p.configPending || p.topologyChangeAck ==> Enabled(p))
    && (Enabled(p) && !IsDesignated(s.bridgeId, p) ==>
          p.messageAgeTimer.active && p.messageAgeTimer.value < 0xffff
          && p.designatedCost < COST_LIMIT)
  }

  /** What selection makes true of a port. */
  predicate PortSettled(s: Bridge, i: nat)
    requires i < |s.ports|
  {
    var p := s.ports[i];
    var designated := IsDesignated(s.bridgeId, p);
    && (p.configPending || p.topologyChangeAck ==> designated)
    && (Enabled(p) ==>
          && (designated ==> p.designatedRoot == s.designatedRoot
                             && p.designatedCost == s.rootPathCost && !p.messageAgeTimer.active)
          && (!designated ==> !TakesOver(s, p))
          && (p.state == Blocking <==> s.rootPort != Some(i) && !designated))
  }

  predicate Ready(s: Bridge) {
    && |s.ports| == MAX_PORTS
    && s.maxAge <= 0xffff && s.bridgeMaxAge <= 0xffff
    && forall i :: 0 <= i < |s.ports| ==> PortReady(s, i)
  }

  /** The root port is the least candidate and gives the bridge its view of the root. */
  ghost predicate RootSettled(s: Bridge) {
    && Selects(s.bridgeId, s.ports, Below(|s.ports|), s.rootPort)
    && match s.rootPort
       case None => s.designatedRoot == s.bridgeId && s.rootPathCost == 0
       case Some(r) => s.designatedRoot == s.ports[r].designatedRoot
                       && s.rootPathCost == s.ports[r].designatedCost + s.ports[r].pathCost
  }

  ghost predicate Inv(s: Bridge) {
    && Ready(s)
    && RootSettled(s)
    && forall i :: 0 <= i < |s.ports| ==> PortSettled(s, i)
  }

  /** The invariant read as statements about a running bridge. */
  lemma InvMeans(s: Bridge)
    requires Inv(s)
    ensures s.rootPort.None? <==> IsRoot(s)
    ensures s.rootPort.Some? ==>
              var p := s.ports[s.rootPort.value]; Enabled(p) && !IsDesignated(s.bridgeId, p)
    ensures forall i :: 0 <= i < |s.ports| ==>
              var p := s.ports[i];
              var designated := IsDesignated(s.bridgeId, p);
              && (Enabled(p) ==> (p.state == Blocking <==> s.rootPort != Some(i) && !designated))
              && (p.forwardDelayTimer.active <==> p.state == Listening || p.state == Learning)
              && (Enabled(p) ==> (p.messageAgeTimer.active <==> !designated))
              && (Enabled(p) ==> p.designatedRoot == s.designatedRoot)
              && (p.configPending || p.topologyChangeAck ==> Enabled(p) && designated)
    ensures s.rootPathCost < 0x8000_0000
  {
    forall i | 0 <= i < |s.ports|
      ensures var p := s.ports[i];
              var designated := IsDesignated(s.bridgeId, p);
              && (Enabled(p) ==> (p.state == Blocking <==> s.rootPort != Some(i) && !designated))
              && (p.forwardDelayTimer.active <==> p.state == Listening || p.state == Learning)
              && (Enabled(p) ==> (p.messageAgeTimer.active <==> !designated))
              && (Enabled(p) ==> p.designatedRoot == s.designatedRoot)
              && (p.configPending || p.topologyChangeAck ==> Enabled(p) && designated)
    {
      assert PortReady(s, i) && PortSettled(s, i);
    }
    if s.rootPort.Some? {
      assert PortReady(s, s.rootPort.value);
    }
  }

  // ---------------------------------------------------------------- selection settles

  lemma ReadyNumbered(s: Bridge)
    requires Ready(s)
    ensures Numbered(s.ports)
  {
    forall i | 0 <= i < |s.ports| ensures s.ports[i].portId % 256 == i + 1 {
      assert PortReady(s, i);
    }
  }

  /** The role of a port agrees with the bridge's view of the root. */
  predicate RoleSettled(s: Bridge, p: Port) {
    Enabled(p) ==>
      if IsDesignated(s.bridgeId, p)
      then p.designatedRoot == s.designatedRoot && p.designatedCost == s.rootPathCost
      else !TakesOver(s, p)
  }

  lemma UpdatedPort(s: Bridge, i: nat)
    requires i < |s.ports| && PortReady(s, i)
    ensures
      var t := ConfigurationUpdate(s);
      && PortReady(t, i) && RoleSettled(t, t.ports[i])
      && (Enabled(t.ports[i]) && !IsDesignated(t.bridgeId, t.ports[i]) ==> t.ports[i] == s.ports[i])
  {
  }

  /** The root port has a positive cost, so selection does not make it designated. */
  lemma UpdatedRoot(s: Bridge)
    requires Ready(s)
    ensures RootSettled(ConfigurationUpdate(s))
  {
    ReadyNumbered(s);
    BestRootSelects(s.bridgeId, s.ports, |s.ports|);
    var a, t := RootSelection(s), ConfigurationUpdate(s);
    forall i | 0 <= i < |t.ports| && Candidate(t.bridgeId, t.ports[i])
      ensures t.ports[i] == s.ports[i]
    {
      UpdatedPort(s, i);
    }
    if a.rootPort.Some? {
      assert PortReady(s, a.rootPort.value);
      assert !TakesOver(a, s.ports[a.rootPort.value]);
      assert t.ports[a.rootPort.value] == s.ports[a.rootPort.value];
    }
  }

  lemma ConfigurationUpdateSettles(s: Bridge)
    requires Ready(s)
    ensures
      var t := ConfigurationUpdate(s);
      && Ready(t) && RootSettled(t)
      && forall i :: 0 <= i < |t.ports| ==> RoleSettled(t, t.ports[i])
  {
    UpdatedRoot(s);
    forall i | 0 <= i < |s.ports|
      ensures PortReady(ConfigurationUpdate(s), i)
      ensures RoleSettled(ConfigurationUpdate(s), ConfigurationUpdate(s).ports[i])
    {
      UpdatedPort(s, i);
    }
  }

  /** Selection of states touches neither identities nor the recorded vectors. */
  predicate SameView(s: Bridge, t: Bridge) {
    && t.bridgeId == s.bridgeId && t.designatedRoot == s.designatedRoot
    && t.rootPathCost == s.rootPathCost && t.rootPort == s.rootPort
    && t.maxAge == s.maxAge && t.bridgeMaxAge == s.bridgeMaxAge && |t.ports| == |s.ports|
  }

  predicate SameVector(p: Port, q: Port) {
    && p.portId == q.portId && p.pathCost == q.pathCost
    && p.designatedRoot == q.designatedRoot && p.designatedCost == q.designatedCost
    && p.designatedBridge == q.designatedBridge && p.designatedPort == q.designatedPort
  }

  lemma SelectedPort(s: Bridge, t: Bridge, i: nat)
    requires i < |s.ports| && SameView(s, t) && t.ports[i] == SelectState(s, i)
    requires PortReady(s, i) && RoleSettled(s, s.ports[i])
    requires s.rootPort == Some(i) ==> !IsDesignated(s.bridgeId, s.ports[i])
    ensures PortReady(t, i) && PortSettled(t, i)
    ensures SameVector(t.ports[i], s.ports[i]) && (Enabled(t.ports[i]) <==> Enabled(s.ports[i]))
  {
  }

  lemma RootSettledFrame(s: Bridge, t: Bridge)
    requires RootSettled(s) && SameView(s, t)
    requires forall i :: 0 <= i < |s.ports| ==>
               SameVector(t.ports[i], s.ports[i]) && (Enabled(t.ports[i]) <==> Enabled(s.ports[i]))
    ensures RootSettled(t)
  {
  }

  lemma StateSelectionSettles(s: Bridge)
    requires Ready(s) && RootSettled(s)
    requires forall i :: 0 <= i < |s.ports| ==> RoleSettled(s, s.ports[i])
    ensures Inv(StateSelection(s))
  {
    var t := StateSelection(s);
    assert SameView(s, t);
    forall i | 0 <= i < |t.ports|
      ensures PortReady(t, i) && PortSettled(t, i)
      ensures SameVector(t.ports[i], s.ports[i]) && (Enabled(t.ports[i]) <==> Enabled(s.ports[i]))
    {
      assert PortReady(s, i);
      SelectedPort(s, t, i);
    }
    RootSettledFrame(s, t);
  }

  lemma ReselectSettles(s: Bridge)
    requires Ready(s)
    ensures Inv(Reselect(s))
  {
    ConfigurationUpdateSettles(s);
    StateSelectionSettles(ConfigurationUpdate(s));
  }
}

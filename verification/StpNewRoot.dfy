/** What a bridge does when it becomes root, and when it ceases to be. */
module StpNewRoot {
  import opened Wrappers
  import opened StpModel
  import opened StpSelection
  import opened StpInvariant
  import opened StpSteps
  import opened StpMessageAge
  import opened StpForwarding
  import opened StpSending
  import opened StpSettings
  import opened StpHello
  import opened StpRelaying
  import opened StpTopology

  // ---------------------------------------------------------------- becoming root

  /** The first hello of a new root on port `i`: its own identifier and times, and the change. */
  function FirstHello(s: Bridge, i: nat): Bpdu
    requires i < |s.ports|
  {
    Config(s.bridgeId, 0, s.bridgeId, s.ports[i].portId, 0,
           s.bridgeMaxAge, s.bridgeHelloTime, s.bridgeForwardDelay,
           s.bigEndian && s.ports[i].topologyChangeAck, s.bigEndian)
  }

  /** From `s` to `t` the bridge announces itself as root where it could speak, and the change. */
  ghost predicate Announces(s: Bridge, t: Bridge, i: nat)
    requires i < |s.ports|
  {
    && t.topologyChange && t.topologyChangeDetected && RunsAsRoot(t)
    && NewlySent(s, t, Sent(i, FirstHello(s.(bridgeId := t.bridgeId), i)))
  }

  lemma BecomeRootAnnounces(u: Bridge, i: nat)
    requires RootPortInRange(u) && IsRoot(u) && u.rootPathCost == 0 && u.bridgeMaxAge > 0
    requires i < |u.ports| && FreeToSend(u, i)
    ensures Announces(u, BecomeRootBridge(u), i)
  {
    var b := TopologyChangeDetection(OwnTimes(u));
    var c := b.(tcnTimer := Stop(b.tcnTimer));
    GenerationSends(c, i);
    GenerationKeeps(c);
    BecomeRootHello(u);
    assert ConfigOn(c, i) == FirstHello(u, i);
  }

  /** Selection leaves a port that may speak for its LAN free to do so, saying the same. */
  lemma ReselectFree(v: Bridge, i: nat)
    requires Ready(v) && i < |v.ports| && FreeToSend(v, i) && IsRoot(Reselect(v))
    ensures
      var u := Reselect(v);
      && FreeToSend(u, i) && RootPortInRange(u) && u.rootPathCost == 0 && FirstHello(u, i) == FirstHello(v, i)
      && u.bridgeMaxAge == v.bridgeMaxAge && v.sent <= u.sent && u.bridgeId == v.bridgeId
  {
    var u := Reselect(v);
    ReselectSettles(v);
    InvMeans(u);
    ReselectDesignated(v, i);
    ReselectSame(v);
    ReselectEvolves(v);
    assert Older(v, u, i) && SamePortSettings(v, u, i);
  }

  lemma ReselectedAnnounces(v: Bridge, i: nat)
    requires Ready(v) && i < |v.ports| && FreeToSend(v, i) && v.bridgeMaxAge > 0 && IsRoot(ReselectAsRoot(v, false))
    ensures Announces(v, ReselectAsRoot(v, false), i)
  {
    var u := Reselect(v);
    BecomeRootStays(u);
    ReselectFree(v, i);
    BecomeRootAnnounces(u, i);
    BecomeRootSame(u);
    SentThen(v, u, BecomeRootBridge(u), Sent(i, FirstHello(v, i)));
  }

  lemma BecomeRootStays(s: Bridge)
    requires RootPortInRange(s)
    ensures IsRoot(BecomeRootBridge(s)) <==> IsRoot(s)
  {
    var b := TopologyChangeDetection(OwnTimes(s));
    GenerationKeeps(b.(tcnTimer := Stop(b.tcnTimer)));
  }

  /** A bridge that becomes root by having a port disabled, or its identifier changed, says
      hello at once on every designated port it has enabled that is not under hold. */
  lemma NewRootAnnounces(s: Bridge, e: Event, i: nat)
    requires Inv(s) && Legal(e) && (e.EDisable? || e.ESetBridgeId?) && !IsRoot(s) && IsRoot(Step(s, e))
    requires i < |s.ports| && FreeToSend(s, i) && e != EDisable(i) && s.bridgeMaxAge > 0
    ensures Announces(s, Step(s, e), i)
  {
    match e
    case EDisable(j) =>
      SwitchOffReady(s, j);
      ReselectedAnnounces(SwitchOff(s, j), i);
      ReselectAsRootSame(SwitchOff(s, j), false);
    case ESetBridgeId(id) =>
      RenameReady(s, id);
      ReselectedAnnounces(Rename(s, id), i);
      ReselectAsRootSame(Rename(s, id), false);
  }

  // ---------------------------------------------------------------- becoming root as time passes

  /** Before it becomes root the bridge sends nothing and keeps every port free that was. */
  lemma AgePortFree(s: Bridge, elapsed: nat, j: nat, i: nat)
    requires Inv(s) && j < |s.ports| && i < |s.ports| && FreeToSend(s, i) && !IsRoot(AgePort(s, elapsed, j))
    ensures
      var t := AgePort(s, elapsed, j);
      FreeToSend(t, i) && FirstHello(t, i) == FirstHello(s, i) && t.bridgeMaxAge == s.bridgeMaxAge && s.sent <= t.sent
  {
    var p, t := s.ports[j], AgePort(s, elapsed, j);
    var u := s.(ports := s.ports[j := p.(messageAgeTimer := Charge(p.messageAgeTimer, elapsed, s.maxAge))]);
    AgePortEvolves(s, elapsed, j);
    AgePortSame(s, elapsed, j);
    assert Older(s, t, i) && SamePortSettings(s, t, i);
    if Enabled(p) && Expires(p.messageAgeTimer, elapsed, s.maxAge) {
      var v := BecomeDesignated(u, j);
      BecomeRootStays(Reselect(v));
      AgedOutReady(s, elapsed, j);
      ReselectSettles(v);
      InvMeans(t);
      ReselectDesignated(v, i);
    }
  }

  lemma AgePortAnnounces(s: Bridge, elapsed: nat, j: nat, i: nat)
    requires Inv(s) && j < |s.ports| && i < |s.ports| && FreeToSend(s, i) && s.bridgeMaxAge > 0
    requires !IsRoot(s) && IsRoot(AgePort(s, elapsed, j))
    ensures Announces(s, AgePort(s, elapsed, j), i)
  {
    var p := s.ports[j];
    assert PortSettled(s, i) && PortSettled(s, j);
    var u := s.(ports := s.ports[j := p.(messageAgeTimer := Charge(p.messageAgeTimer, elapsed, s.maxAge))]);
    var v := BecomeDesignated(u, j);
    AgedOutReady(s, elapsed, j);
    ReselectedAnnounces(v, i);
    ReselectAsRootSame(v, false);
  }

  /** Once announced, so it stays for the rest of the tick. */
  lemma AgePortStaysRoot(s: Bridge, elapsed: nat, j: nat)
    requires Inv(s) && j < |s.ports| && IsRoot(s) && s.topologyChange && s.topologyChangeDetected
    ensures
      var t := AgePort(s, elapsed, j);
      IsRoot(t) && t.topologyChange && t.topologyChangeDetected && SameTimes(s, t) && s.sent <= t.sent
  {
    AgePortRoot(s, elapsed, j);
    AgePortEvolves(s, elapsed, j);
    var p := s.ports[j];
    var u := s.(ports := s.ports[j := p.(messageAgeTimer := Charge(p.messageAgeTimer, elapsed, s.maxAge))]);
    if Enabled(p) && Expires(p.messageAgeTimer, elapsed, s.maxAge) {
      DetectedStays(ConfigurationUpdate(BecomeDesignated(u, j)));
    }
  }

  lemma DetectedStays(s: Bridge)
    requires s.topologyChange && s.topologyChangeDetected
    ensures StateSelection(s).topologyChange && StateSelection(s).topologyChangeDetected
  {
  }

  /** Either nothing has happened yet, or the announcement has. */
  ghost predicate AnnouncedUpTo(a: Bridge, elapsed: nat, n: nat, i: nat)
    requires n <= |a.ports| && i < |a.ports| && RootPortInRange(a)
  {
    var u := AgePorts(a, elapsed, n);
    && Inv(u) && a.sent <= u.sent && u.bridgeId == a.bridgeId
    && (if IsRoot(u) then Announces(a, u, i)
        else FreeToSend(u, i) && FirstHello(u, i) == FirstHello(a, i) && u.bridgeMaxAge == a.bridgeMaxAge)
  }

  lemma AnnouncedOneMore(a: Bridge, elapsed: nat, n: nat, i: nat)
    requires n < |a.ports| && i < |a.ports| && RootPortInRange(a) && a.bridgeMaxAge > 0
    requires AnnouncedUpTo(a, elapsed, n, i)
    ensures AnnouncedUpTo(a, elapsed, n + 1, i)
  {
    var u := AgePorts(a, elapsed, n);
    var t := AgePort(u, elapsed, n);
    AgePortInv(u, elapsed, n);
    AgePortSame(u, elapsed, n);
    if IsRoot(u) {
      AgePortStaysRoot(u, elapsed, n);
      SentThen(a, u, t, Sent(i, FirstHello(a, i)));
    } else if IsRoot(t) {
      AgePortAnnounces(u, elapsed, n, i);
      SentThen(a, u, t, Sent(i, FirstHello(a, i)));
    } else {
      AgePortFree(u, elapsed, n, i);
    }
  }

  lemma {:induction false} AnnouncedPorts(a: Bridge, elapsed: nat, n: nat, i: nat)
    requires Inv(a) && !IsRoot(a) && a.bridgeMaxAge > 0 && n <= |a.ports| && i < |a.ports| && FreeToSend(a, i)
    ensures AnnouncedUpTo(a, elapsed, n, i)
  {
    if n > 0 {
      AnnouncedPorts(a, elapsed, n - 1, i);
      AnnouncedOneMore(a, elapsed, n - 1, i);
    }
  }

  /** The same for a bridge whose last word of a better root grows too old in a tick, if it
      was not saying hello already. */
  lemma NewRootSpeaks(s: Bridge, elapsed: nat, i: nat)
    requires Inv(s) && elapsed > 0 && !IsRoot(s) && IsRoot(Tick(s, elapsed)) && !s.helloTimer.active
    requires i < |s.ports| && FreeToSend(s, i) && s.bridgeMaxAge > 0
    ensures NewlySent(s, Tick(s, elapsed), Sent(i, FirstHello(s, i)))
    ensures Tick(s, elapsed).topologyChangeDetected && RunsAsRoot(Tick(s, elapsed))
  {
    var a := TickBridgeTimers(s, elapsed);
    var b := AgePorts(a, elapsed, |a.ports|);
    QuietTimers(s, elapsed);
    TickBridgeTimersQuiet(s, elapsed);
    QuietInv(s, a);
    DelayPortsKeep(b, elapsed, |b.ports|);
    AnnouncedPorts(a, elapsed, |a.ports|, i);
    DelayedSends(b, elapsed, |b.ports|, 0);
    DetectedLater(b, elapsed, 0, |b.ports|);
    SentThen(s, a, b, Sent(i, FirstHello(s, i)));
    SentThen(s, b, Tick(s, elapsed), Sent(i, FirstHello(s, i)));
  }

  /** The bridge's own timers change no port while it says no hello. */
  lemma QuietTimers(s: Bridge, elapsed: nat)
    requires RootPortInRange(s) && !s.helloTimer.active
    ensures
      var a := TickBridgeTimers(s, elapsed);
      && a.ports == s.ports && a.bridgeId == s.bridgeId && IsRoot(a) == IsRoot(s) && s.sent <= a.sent
      && a.bigEndian == s.bigEndian && a.bridgeMaxAge == s.bridgeMaxAge
      && a.bridgeHelloTime == s.bridgeHelloTime && a.bridgeForwardDelay == s.bridgeForwardDelay
  {
    BridgeTimersSame(s, elapsed);
    HelloTimerKeeps(s, elapsed);
    TickOthersEvolves(TickHello(s, elapsed), elapsed);
  }

  // ---------------------------------------------------------------- ceasing to be root

  lemma StepDownSends(a: Bridge)
    requires a.rootPort.Some?
    ensures
      var b := StepDown(a);
      && !b.helloTimer.active && a.sent <= b.sent && b.topologyChangeDetected == a.topologyChangeDetected
      && (a.topologyChangeDetected ==>
            b.tcnTimer == Start(0) && !b.topologyChangeTimer.active && NewlySent(a, b, Sent(a.rootPort.value, Tcn)))
  {
    if a.topologyChangeDetected { assert StepDown(a).sent[|a.sent|] == Sent(a.rootPort.value, Tcn); }
  }

  /** A root bridge that hears of a better one says no more hellos; a change it was announcing
      it reports to the new root instead, on its new root port. */
  lemma OldRootReports(s: Bridge, i: nat, c: Bpdu)
    requires Inv(s) && IsRoot(s) && i < |s.ports| && c.Config? && Accepts(s, i, c) && c.rootPathCost < COST_LIMIT
    requires !IsRoot(ReceivedConfig(s, i, c))
    ensures
      var t := ReceivedConfig(s, i, c);
      && !t.helloTimer.active && t.rootPort.Some?
      && (s.topologyChangeDetected ==>
            !t.topologyChangeTimer.active && NewlySent(s, t, Sent(t.rootPort.value, Tcn)))
      && (t.topologyChangeDetected ==> t.tcnTimer.active)
  {
    var a := Reselect(Record(s, i, c));
    RecordReady(s, i, c);
    ReselectSettles(Record(s, i, c));
    InvMeans(a);
    AcceptKeeps(s, i, c);
    StepDownSends(a);
    ReselectTimes(Record(s, i, c));
    if s.topologyChangeDetected { AlreadyDetected(ConfigurationUpdate(Record(s, i, c))); }
    var b := StepDown(a);
    RelayedAfter(b, i, c);
    if s.topologyChangeDetected {
      SentThen(s, a, b, Sent(a.rootPort.value, Tcn));
      SentThen(s, b, ReceivedConfig(s, i, c), Sent(a.rootPort.value, Tcn));
    }
  }

  lemma RelayedAfter(b: Bridge, i: nat, c: Bpdu)
    requires RootPortInRange(b) && c.Config? && i < |b.ports|
    ensures
      var t := if b.rootPort == Some(i) then Relay(b, c) else b;
      && b.sent <= t.sent && t.rootPort == b.rootPort && t.topologyChangeTimer == b.topologyChangeTimer
      && (t.topologyChangeDetected ==> b.topologyChangeDetected && t.tcnTimer == b.tcnTimer)
  {
    GenerateExact(RecordTimeouts(b, c), |b.ports|);
  }
}

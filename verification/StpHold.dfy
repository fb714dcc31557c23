/** How often a bridge speaks, and where: on one port it sends config BPDUs at least a second
    apart, and only on ports it is designated for. */
module StpHold {
  import opened Wrappers
  import opened StpModel
  import opened StpSelection
  import opened StpInvariant
  import opened StpSteps
  import opened StpMessageAge
  import opened StpForwarding
  import opened StpSending
  import opened StpSettings

  /** From `s` to `t` no config BPDU goes out on port `i`. */
  predicate Silent(s: Bridge, t: Bridge, i: nat) {
    && s.sent <= t.sent
    && forall k :: |s.sent| <= k < |t.sent| ==> !(t.sent[k].port == i && t.sent[k].bpdu.Config?)
  }

  predicate Speaker(s: Bridge, i: nat)
    requires i < |s.ports|
  {
    Enabled(s.ports[i]) && IsDesignated(s.bridgeId, s.ports[i])
  }

  /** Port `i` says nothing and keeps its hold timer; or it was not under hold, has spoken for
      its LAN, and is under hold from then on. */
  predicate Held(s: Bridge, t: Bridge, i: nat)
    requires i < |s.ports| && i < |t.ports|
  {
    || (Silent(s, t, i) && t.ports[i].holdTimer == s.ports[i].holdTimer)
    || (s.sent <= t.sent && !s.ports[i].holdTimer.active && t.ports[i].holdTimer == Start(0) && Speaker(t, i))
  }

  lemma SilentBoth(s: Bridge, t: Bridge, u: Bridge, i: nat)
    requires Silent(s, t, i) && Silent(t, u, i)
    ensures Silent(s, u, i)
  {
    forall k | |s.sent| <= k < |u.sent| ensures !(u.sent[k].port == i && u.sent[k].bpdu.Config?) {
      if k < |t.sent| { assert u.sent[k] == t.sent[k]; }
    }
  }

  lemma HeldTransitive(s: Bridge, t: Bridge, u: Bridge, i: nat)
    requires i < |s.ports| && i < |t.ports| && i < |u.ports|
    requires Held(s, t, i) && Held(t, u, i) && (Speaker(t, i) ==> Speaker(u, i))
    ensures Held(s, u, i)
  {
    if Silent(s, t, i) && Silent(t, u, i) { SilentBoth(s, t, u, i); }
  }

  /** Only notices went out. */
  lemma NoticesHeld(s: Bridge, t: Bridge, i: nat)
    requires i < |s.ports| && i < |t.ports| && t.ports[i].holdTimer == s.ports[i].holdTimer
    requires t.sent == s.sent || exists r :: t.sent == s.sent + [Sent(r, Tcn)]
    ensures Held(s, t, i)
  {
  }

  lemma TransmitHeld(s: Bridge, j: nat, i: nat)
    requires j < |s.ports| && i < |s.ports| && RootPortInRange(s) && (j == i ==> Speaker(s, i))
    ensures Held(s, TransmitConfig(s, j), i) && (Speaker(s, i) ==> Speaker(TransmitConfig(s, j), i))
  {
    TransmitOnlySent(s, j);
    assert PortSentFrom(s, TransmitConfig(s, j), i);
  }

  predicate GeneratedHeld(s: Bridge, n: nat, i: nat)
    requires n <= |s.ports| && i < |s.ports| && RootPortInRange(s)
  {
    Held(s, GenerateUpTo(s, n), i) && (Speaker(s, i) ==> Speaker(GenerateUpTo(s, n), i))
  }

  lemma GenerateOneMoreHeld(s: Bridge, n: nat, i: nat)
    requires n < |s.ports| && i < |s.ports| && RootPortInRange(s) && GeneratedHeld(s, n, i)
    ensures GeneratedHeld(s, n + 1, i)
  {
    var u := GenerateUpTo(s, n);
    if Enabled(u.ports[n]) && IsDesignated(u.bridgeId, u.ports[n]) {
      TransmitHeld(u, n, i);
      HeldTransitive(s, u, TransmitConfig(u, n), i);
    }
  }

  lemma {:induction false} GenerateHeld(s: Bridge, n: nat, i: nat)
    requires n <= |s.ports| && i < |s.ports| && RootPortInRange(s)
    ensures GeneratedHeld(s, n, i)
  {
    if n > 0 {
      GenerateHeld(s, n - 1, i);
      GenerateOneMoreHeld(s, n - 1, i);
    }
  }

  lemma SelectionHeld(s: Bridge, i: nat)
    requires i < |s.ports|
    ensures Held(s, StateSelection(s), i)
  {
    assert StateSelection(s).ports[i] == SelectState(s, i);
    NoticesHeld(s, StateSelection(s), i);
  }

  lemma ReselectHeld(s: Bridge, i: nat)
    requires i < |s.ports|
    ensures var t := Reselect(s); Silent(s, t, i) && t.ports[i].holdTimer == s.ports[i].holdTimer
  {
    var u := ConfigurationUpdate(s);
    assert u.ports[i].holdTimer == s.ports[i].holdTimer && u.sent == s.sent;
    SelectionSilent(u, i);
  }

  lemma SelectionSilent(s: Bridge, i: nat)
    requires i < |s.ports|
    ensures var t := StateSelection(s); Silent(s, t, i) && t.ports[i].holdTimer == s.ports[i].holdTimer
  {
    assert StateSelection(s).ports[i] == SelectState(s, i);
  }

  lemma BecomeRootHeld(s: Bridge, i: nat)
    requires i < |s.ports| && RootPortInRange(s)
    ensures Held(s, BecomeRootBridge(s), i)
  {
    var b := TopologyChangeDetection(OwnTimes(s));
    var c := b.(tcnTimer := Stop(b.tcnTimer));
    NoticesHeld(s, c, i);
    GenerateHeld(c, |c.ports|, i);
    HeldTransitive(s, c, ConfigGeneration(c), i);
  }

  lemma ReselectAsRootHeld(s: Bridge, wasRoot: bool, i: nat)
    requires i < |s.ports|
    ensures Held(s, ReselectAsRoot(s, wasRoot), i)
  {
    var u := Reselect(s);
    ReselectHeld(s, i);
    if IsRoot(u) && !wasRoot {
      BecomeRootHeld(u, i);
      SilentThenHeld(s, u, BecomeRootBridge(u), i);
    }
  }

  lemma SilentThenHeld(s: Bridge, t: Bridge, u: Bridge, i: nat)
    requires i < |s.ports| && i < |t.ports| && i < |u.ports|
    requires Silent(s, t, i) && t.ports[i].holdTimer == s.ports[i].holdTimer && Held(t, u, i)
    ensures Held(s, u, i)
  {
    if Silent(t, u, i) { SilentBoth(s, t, u, i); }
  }

  // ---------------------------------------------------------------- a tick

  lemma AgePortHeld(s: Bridge, elapsed: nat, j: nat, i: nat)
    requires Inv(s) && j < |s.ports| && i < |s.ports|
    ensures Held(s, AgePort(s, elapsed, j), i) && (Speaker(s, i) ==> Speaker(AgePort(s, elapsed, j), i))
  {
    var p := s.ports[j];
    var u := s.(ports := s.ports[j := p.(messageAgeTimer := Charge(p.messageAgeTimer, elapsed, s.maxAge))]);
    AgePortEvolves(s, elapsed, j);
    AgePortSame(s, elapsed, j);
    assert Older(s, AgePort(s, elapsed, j), i) && SamePortSettings(s, AgePort(s, elapsed, j), i);
    if Enabled(p) && Expires(p.messageAgeTimer, elapsed, s.maxAge) {
      var v := BecomeDesignated(u, j);
      ReselectAsRootHeld(v, IsRoot(u), i);
      SilentThenHeld(s, v, MessageAgeExpiry(u, j), i);
    }
  }

  ghost predicate AgedHeld(s: Bridge, elapsed: nat, n: nat, i: nat)
    requires n <= |s.ports| && i < |s.ports| && RootPortInRange(s)
  {
    var u := AgePorts(s, elapsed, n);
    Inv(u) && Held(s, u, i) && (Speaker(s, i) ==> Speaker(u, i))
  }

  lemma AgeOneMoreHeld(s: Bridge, elapsed: nat, n: nat, i: nat)
    requires n < |s.ports| && i < |s.ports| && RootPortInRange(s) && AgedHeld(s, elapsed, n, i)
    ensures AgedHeld(s, elapsed, n + 1, i)
  {
    var u := AgePorts(s, elapsed, n);
    AgePortInv(u, elapsed, n);
    AgePortHeld(u, elapsed, n, i);
    HeldTransitive(s, u, AgePort(u, elapsed, n), i);
  }

  lemma {:induction false} AgePortsHeld(s: Bridge, elapsed: nat, n: nat, i: nat)
    requires Inv(s) && n <= |s.ports| && i < |s.ports|
    ensures AgedHeld(s, elapsed, n, i)
  {
    if n > 0 {
      AgePortsHeld(s, elapsed, n - 1, i);
      AgeOneMoreHeld(s, elapsed, n - 1, i);
    }
  }

  lemma BridgeTimersHeld(s: Bridge, elapsed: nat, i: nat)
    requires RootPortInRange(s) && i < |s.ports|
    ensures var a := TickBridgeTimers(s, elapsed); Held(s, a, i) && (Speaker(s, i) ==> Speaker(a, i))
  {
    var c := s.(helloTimer := Charge(s.helloTimer, elapsed, s.helloTime));
    var h := TickHello(s, elapsed);
    GenerateHeld(c, |c.ports|, i);
    assert Held(s, h, i) && (Speaker(s, i) ==> Speaker(h, i));
    OtherTimersHeld(h, elapsed, i);
    HeldTransitive(s, h, TickBridgeTimers(s, elapsed), i);
  }

  lemma OtherTimersHeld(s: Bridge, elapsed: nat, i: nat)
    requires i < |s.ports|
    ensures var t := TickTopologyChange(TickTcn(s, elapsed), elapsed); Held(s, t, i) && (Speaker(s, i) ==> Speaker(t, i))
  {
    BridgeTimersPorts(s, elapsed);
    NoticesHeld(s, TickTopologyChange(TickTcn(s, elapsed), elapsed), i);
  }

  /** Speaking, or being silent under hold, until the timers of the ports are charged. */
  lemma BeforeCharge(s: Bridge, elapsed: nat, i: nat)
    requires Inv(s) && i < |s.ports|
    ensures
      var b := AgePorts(TickBridgeTimers(s, elapsed), elapsed, |s.ports|);
      Inv(b) && Held(s, b, i) && (Speaker(s, i) ==> Speaker(b, i))
  {
    var a := TickBridgeTimers(s, elapsed);
    TickBridgeTimersQuiet(s, elapsed);
    QuietInv(s, a);
    BridgeTimersHeld(s, elapsed, i);
    AgePortsHeld(a, elapsed, |a.ports|, i);
    HeldTransitive(s, a, AgePorts(a, elapsed, |a.ports|), i);
  }

  lemma DelaySpeaker(s: Bridge, elapsed: nat, j: nat, i: nat)
    requires Inv(s) && j < |s.ports| && i < |s.ports|
    ensures Speaker(s, i) ==> Speaker(DelayPort(s, elapsed, j), i)
  {
    DelayPortEvolves(s, elapsed, j);
    DelayPortSame(s, elapsed, j);
    assert Older(s, DelayPort(s, elapsed, j), i) && SamePortSettings(s, DelayPort(s, elapsed, j), i);
  }

  lemma ForwardDelayHeld(s: Bridge, elapsed: nat, j: nat, i: nat)
    requires j < |s.ports| && i < |s.ports|
    ensures var v := ChargeForwardDelay(s, elapsed, j);
      Silent(s, v, i) && v.ports[i].holdTimer == s.ports[i].holdTimer && (Speaker(s, i) ==> Speaker(v, i))
  {
    ForwardDelayPorts(s, elapsed, j);
  }

  lemma OtherDelayHeld(s: Bridge, elapsed: nat, j: nat, i: nat)
    requires j < |s.ports| && i < |s.ports| && j != i && RootPortInRange(s)
    ensures Held(s, DelayPort(s, elapsed, j), i)
  {
    if Enabled(s.ports[j]) {
      var v := ChargeForwardDelay(s, elapsed, j);
      var p := v.ports[j];
      var u := v.(ports := v.ports[j := p.(holdTimer := Charge(p.holdTimer, elapsed, TICKS_PER_SECOND))]);
      ForwardDelayHeld(s, elapsed, j, i);
      TransmitHeld(u, j, i);
      SilentThenHeld(s, v, u, i);
      SilentThenHeld(s, u, TransmitConfig(u, j), i);
    }
  }

  /** What a tick of `d` may do to a port with hold timer `h`: nothing goes out before the hold
      time is over, and after something did go out a new one has begun. */
  predicate HoldKept(s: Bridge, t: Bridge, i: nat, d: nat)
    requires i < |s.ports| && i < |t.ports|
  {
    var h, g := s.ports[i].holdTimer, t.ports[i].holdTimer;
    && s.sent <= t.sent
    && (h.active && h.value + d < TICKS_PER_SECOND ==> Silent(s, t, i) && g.active && g.value <= h.value + d)
    && (!Silent(s, t, i) ==> Speaker(t, i) && (d >= TICKS_PER_SECOND || (g.active && g.value <= d)))
  }

  lemma OwnDelayHeld(s: Bridge, elapsed: nat, i: nat)
    requires Inv(s) && i < |s.ports|
    ensures HoldKept(s, DelayPort(s, elapsed, i), i, elapsed)
  {
    assert PortSettled(s, i);
    if Enabled(s.ports[i]) {
      var v := ChargeForwardDelay(s, elapsed, i);
      ForwardDelayPorts(s, elapsed, i);
      ForwardDelayHeld(s, elapsed, i, i);
      var p := v.ports[i];
      var u := v.(ports := v.ports[i := p.(holdTimer := Charge(p.holdTimer, elapsed, TICKS_PER_SECOND))]);
      if Expires(p.holdTimer, elapsed, TICKS_PER_SECOND) && p.configPending {
        TransmitHeld(u, i, i);
        if Silent(u, TransmitConfig(u, i), i) { SilentBoth(s, u, TransmitConfig(u, i), i); }
      }
    }
  }

  /** Held before the charge, kept through it, held after. */
  lemma KeptBetween(s: Bridge, u: Bridge, v: Bridge, t: Bridge, i: nat, d: nat)
    requires i < |s.ports| && i < |u.ports| && i < |v.ports| && i < |t.ports|
    requires Held(s, u, i) && HoldKept(u, v, i, d) && Held(v, t, i)
    requires (Speaker(u, i) ==> Speaker(v, i)) && (Speaker(v, i) ==> Speaker(t, i))
    ensures HoldKept(s, t, i, d)
  {
    if Silent(s, u, i) && Silent(u, v, i) {
      SilentBoth(s, u, v, i);
      if Silent(v, t, i) { SilentBoth(s, v, t, i); }
    }
  }

  ghost predicate DelayedHeld(b: Bridge, elapsed: nat, k: nat, n: nat, i: nat)
    requires k <= n <= |b.ports| && i < |b.ports| && RootPortInRange(b)
  {
    var u, t := DelayPorts(b, elapsed, k), DelayPorts(b, elapsed, n);
    Inv(t) && Held(u, t, i) && (Speaker(u, i) ==> Speaker(t, i))
  }

  lemma DelayOneMoreHeld(b: Bridge, elapsed: nat, k: nat, n: nat, i: nat)
    requires k <= n < |b.ports| && i < |b.ports| && n != i && RootPortInRange(b) && DelayedHeld(b, elapsed, k, n, i)
    ensures DelayedHeld(b, elapsed, k, n + 1, i)
  {
    var u := DelayPorts(b, elapsed, n);
    DelayPortInv(u, elapsed, n);
    OtherDelayHeld(u, elapsed, n, i);
    DelaySpeaker(u, elapsed, n, i);
    HeldTransitive(DelayPorts(b, elapsed, k), u, DelayPort(u, elapsed, n), i);
  }

  lemma DelayNoneHeld(b: Bridge, elapsed: nat, k: nat, n: nat, i: nat)
    requires Inv(b) && k == n <= |b.ports| && i < |b.ports|
    ensures DelayedHeld(b, elapsed, k, n, i)
  {
    DelayPortsInv(b, elapsed, k);
  }

  lemma {:induction false} DelayPortsHeld(b: Bridge, elapsed: nat, k: nat, n: nat, i: nat)
    requires Inv(b) && k <= n <= |b.ports| && i < |b.ports| && (n <= i || i < k)
    ensures DelayedHeld(b, elapsed, k, n, i)
  {
    if k == n {
      DelayNoneHeld(b, elapsed, k, n, i);
    } else {
      DelayPortsHeld(b, elapsed, k, n - 1, i);
      DelayOneMoreHeld(b, elapsed, k, n - 1, i);
    }
  }

  lemma TickHold(s: Bridge, elapsed: nat, i: nat)
    requires Inv(s) && elapsed > 0 && i < |s.ports|
    ensures HoldKept(s, Tick(s, elapsed), i, elapsed)
  {
    var b := AgePorts(TickBridgeTimers(s, elapsed), elapsed, |s.ports|);
    BeforeCharge(s, elapsed, i);
    ChargedHold(s, b, elapsed, i);
  }

  lemma ChargedHold(s: Bridge, b: Bridge, elapsed: nat, i: nat)
    requires Inv(b) && i < |s.ports| == |b.ports| && Held(s, b, i)
    ensures HoldKept(s, DelayPorts(b, elapsed, |b.ports|), i, elapsed)
  {
    var u := DelayPorts(b, elapsed, i);
    var v := DelayPort(u, elapsed, i);
    DelayPortsHeld(b, elapsed, 0, i, i);
    HeldTransitive(s, b, u, i);
    OwnDelayHeld(u, elapsed, i);
    DelaySpeaker(u, elapsed, i, i);
    DelayPortsHeld(b, elapsed, i + 1, |b.ports|, i);
    KeptBetween(s, u, v, DelayPorts(b, elapsed, |b.ports|), i, elapsed);
  }

  // ---------------------------------------------------------------- the other operations

  lemma HeldKept(s: Bridge, t: Bridge, i: nat)
    requires i < |s.ports| && i < |t.ports| && Held(s, t, i)
    ensures HoldKept(s, t, i, 0)
  {
  }

  lemma AcceptHeld(s: Bridge, j: nat, c: Bpdu, i: nat)
    requires j < |s.ports| && i < |s.ports| && c.Config?
    ensures Held(s, Accept(s, j, c), i)
  {
    var r := Record(s, j, c);
    var a := Reselect(r);
    var b := if !IsRoot(a) && IsRoot(s) then StepDown(a) else a;
    ReselectHeld(r, i);
    SilentThenHeld(s, r, a, i);
    assert Silent(a, b, i);
    SilentBoth(r, a, b, i);
    if b.rootPort == Some(j) {
      var d := RecordTimeouts(b, c);
      GenerateHeld(d, |d.ports|, i);
      SilentThenHeld(s, d, ConfigGeneration(d), i);
    }
  }

  lemma ReceivedHeld(s: Bridge, e: Event, i: nat)
    requires Shaped(s) && Legal(e) && i < MAX_PORTS && (e.EReceiveConfig? || e.EReceiveTcn?)
    ensures Held(s, Step(s, e), i)
  {
    match e
    case EReceiveConfig(j, c) =>
      AcceptHeld(s, j, c, i);
      if Speaker(s, j) { TransmitHeld(s, j, i); }
    case EReceiveTcn(j) =>
      if Speaker(s, j) {
        var u := TopologyChangeDetection(s);
        var v := u.(ports := u.ports[j := u.ports[j].(topologyChangeAck := true)]);
        TransmitHeld(v, j, i);
        SilentThenHeld(s, v, TransmitConfig(v, j), i);
      }
  }

  lemma EnableHeld(s: Bridge, j: nat, i: nat)
    requires RootPortInRange(s) && i < |s.ports| && j < |s.ports| && (j != i || Enabled(s.ports[i]))
    ensures Held(s, PortEnable(s, j), i)
  {
    var u := InitializePort(s, j, Blocking);
    if j != i {
      SelectionHeld(u, i);
      SilentThenHeld(s, u, StateSelection(u), i);
    }
  }

  lemma DisableHeld(s: Bridge, j: nat, i: nat)
    requires RootPortInRange(s) && i < |s.ports| && j < |s.ports|
    ensures Held(s, PortDisable(s, j), i)
  {
    var u := SwitchOff(s, j);
    ReselectAsRootHeld(u, IsRoot(s), i);
    SilentThenHeld(s, u, ReselectAsRoot(u, IsRoot(s)), i);
  }

  lemma PathCostHeld(s: Bridge, j: nat, cost: nat, i: nat)
    requires RootPortInRange(s) && i < |s.ports| && j < |s.ports|
    ensures Held(s, PortSetPathCost(s, j, cost), i)
  {
    var u := s.(ports := s.ports[j := s.ports[j].(pathCost := cost)]);
    ReselectHeld(u, i);
    SilentThenHeld(s, u, Reselect(u), i);
  }

  lemma RenameHeld(s: Bridge, id: nat, i: nat)
    requires RootPortInRange(s) && i < |s.ports|
    ensures Held(s, SetBridgeId(s, id), i)
  {
    var u := Rename(s, id);
    ReselectAsRootHeld(u, IsRoot(s), i);
    SilentThenHeld(s, u, ReselectAsRoot(u, IsRoot(s)), i);
  }

  lemma ManagedHeld(s: Bridge, e: Event, i: nat)
    requires Shaped(s) && Legal(e) && i < MAX_PORTS && !e.ETick? && !e.EReceiveConfig? && !e.EReceiveTcn?
    requires e != EEnable(i) || Enabled(s.ports[i])
    ensures Held(s, Step(s, e), i)
  {
    match e
    case ESetBridgeId(id) => RenameHeld(s, id, i);
    case EEnable(j) => EnableHeld(s, j, i);
    case EDisable(j) => DisableHeld(s, j, i);
    case ESetPathCost(j, cost) => PathCostHeld(s, j, cost, i);
    case _ =>
  }

  /** A port that is enabled is free to speak for its LAN at once, and nothing waits on it. */
  lemma EnabledIsFree(s: Bridge, i: nat)
    requires Inv(s) && i < |s.ports| && !Enabled(s.ports[i])
    ensures
      var t := PortEnable(s, i);
      FreeToSend(t, i) && !t.ports[i].configPending && !t.ports[i].topologyChangeAck && t.sent == s.sent
  {
    var u, t := InitializePort(s, i, Blocking), PortEnable(s, i);
    InvMeans(s);
    assert t.ports[i] == SelectState(u, i);
    NothingStops(s, u, i);
  }

  /** No port of a settled bridge stops forwarding when another is enabled. */
  lemma NothingStops(s: Bridge, u: Bridge, i: nat)
    requires Inv(s) && i < |s.ports| && u == InitializePort(s, i, Blocking)
    ensures StateSelection(u).sent == u.sent
  {
    InvMeans(s);
    forall j | 0 <= j < |u.ports| ensures !StopsForwarding(u, j) { }
  }

  /** Whatever happens, short of a port being enabled anew: no config BPDU goes out on a port
      before its hold time is over, when one does a new hold time begins, and the bridge is
      then designated for the LAN of that port. */
  lemma StepHold(s: Bridge, e: Event, i: nat)
    requires Inv(s) && Legal(e) && i < |s.ports| && (e != EEnable(i) || Enabled(s.ports[i]))
    ensures HoldKept(s, Step(s, e), i, Elapsed(e))
  {
    if e.ETick? {
      if e.elapsed > 0 { TickHold(s, e.elapsed, i); }
    } else if e.EReceiveConfig? || e.EReceiveTcn? {
      ReceivedHeld(s, e, i);
      HeldKept(s, Step(s, e), i);
    } else {
      ManagedHeld(s, e, i);
      HeldKept(s, Step(s, e), i);
    }
  }

  // ---------------------------------------------------------------- over a run

  /** In event `k` a config BPDU goes out on port `i`. */
  predicate SpeaksIn(s: Bridge, es: seq<Event>, i: nat, k: nat)
    requires Shaped(s) && AllLegal(es) && k < |es|
  {
    !Silent(After(s, es, k), After(s, es, k + 1), i)
  }

  lemma RunStepHold(s: Bridge, es: seq<Event>, i: nat, k: nat)
    requires Inv(s) && AllLegal(es) && i < MAX_PORTS && k < |es| && es[k] != EEnable(i)
    ensures HoldKept(After(s, es, k), After(s, es, k + 1), i, Elapsed(es[k]))
  {
    AfterInv(s, es, k);
    AfterStep(s, es, k);
    StepHold(After(s, es, k), es[k], i);
  }

  /** Since event `a` the hold time runs, or a second has passed. */
  predicate HoldSince(s: Bridge, es: seq<Event>, i: nat, a: nat, k: nat)
    requires Shaped(s) && AllLegal(es) && i < MAX_PORTS && a <= k <= |es|
  {
    var h := After(s, es, k).ports[i].holdTimer;
    Passed(es, a, k) >= TICKS_PER_SECOND || (h.active && h.value <= Passed(es, a, k))
  }

  lemma HoldOneMore(s: Bridge, es: seq<Event>, i: nat, a: nat, k: nat)
    requires Inv(s) && AllLegal(es) && i < MAX_PORTS && a <= k < |es| && es[k] != EEnable(i)
    requires HoldSince(s, es, i, a, k)
    ensures HoldSince(s, es, i, a, k + 1)
    ensures SpeaksIn(s, es, i, k) ==> Passed(es, a, k + 1) >= TICKS_PER_SECOND
  {
    RunStepHold(s, es, i, k);
  }

  lemma HoldFrom(s: Bridge, es: seq<Event>, i: nat, a: nat)
    requires Inv(s) && AllLegal(es) && i < MAX_PORTS && a < |es| && es[a] != EEnable(i) && SpeaksIn(s, es, i, a)
    ensures HoldSince(s, es, i, a, a + 1)
  {
    RunStepHold(s, es, i, a);
    assert Passed(es, a, a + 1) == Elapsed(es[a]);
  }

  lemma {:induction false} HoldRun(s: Bridge, es: seq<Event>, i: nat, a: nat, k: nat)
    requires Inv(s) && AllLegal(es) && i < MAX_PORTS && a < k <= |es| && SpeaksIn(s, es, i, a)
    requires forall j :: a <= j < k ==> es[j] != EEnable(i)
    ensures HoldSince(s, es, i, a, k)
  {
    if k == a + 1 {
      HoldFrom(s, es, i, a);
    } else {
      HoldRun(s, es, i, a, k - 1);
      HoldOneMore(s, es, i, a, k - 1);
    }
  }

  /** Over every run, two events in which config BPDUs go out on the same port are at least a
      second apart, unless the port is enabled anew in between. */
  lemma ASecondApart(s: Bridge, es: seq<Event>, i: nat, a: nat, b: nat)
    requires Inv(s) && AllLegal(es) && i < MAX_PORTS && a < b < |es|
    requires SpeaksIn(s, es, i, a) && SpeaksIn(s, es, i, b)
    requires forall j :: a <= j <= b ==> es[j] != EEnable(i)
    ensures Passed(es, a, b + 1) >= TICKS_PER_SECOND
  {
    HoldRun(s, es, i, a, b);
    HoldOneMore(s, es, i, a, b);
  }
}

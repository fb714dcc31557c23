/** What a bridge sends, and when: hellos, what was held back, what it passes on and what it
    answers. */
module StpSending {
  import opened Wrappers
  import opened StpModel
  import opened StpSelection
  import opened StpInvariant
  import opened StpSteps
  import opened StpMessageAge

  // ---------------------------------------------------------------- generating config BPDUs

  /** The bridge has something to say, and it is not too old to be said. */
  predicate MaySpeak(s: Bridge)
    requires RootPortInRange(s)
  {
    (IsRoot(s) || s.rootPort.Some?) && SentAge(s) < s.maxAge
  }

  /** The bridge speaks for the LAN of port `i`, and the port is not under hold. */
  predicate FreeToSend(s: Bridge, i: nat)
    requires i < |s.ports|
  {
    Enabled(s.ports[i]) && IsDesignated(s.bridgeId, s.ports[i]) && !s.ports[i].holdTimer.active
  }

  /** The config BPDUs due on the ports among the first `n` that are free, in order. */
  function Announcements(s: Bridge, n: nat): seq<Sent>
    requires n <= |s.ports| && RootPortInRange(s)
  {
    if n == 0 then []
    else if FreeToSend(s, n - 1) && MaySpeak(s) then Announcements(s, n - 1) + [Sent(n - 1, ConfigOn(s, n - 1))]
    else Announcements(s, n - 1)
  }

  lemma {:induction false} AnnouncementsAre(s: Bridge, n: nat, x: Sent)
    requires n <= |s.ports| && RootPortInRange(s)
    ensures x in Announcements(s, n) <==>
              x.port < n && MaySpeak(s) && FreeToSend(s, x.port) && x.bpdu == ConfigOn(s, x.port)
  {
    if n > 0 { AnnouncementsAre(s, n - 1, x); }
  }

  /** The port differs at most in what sending touches. */
  predicate SentFrom(p: Port, q: Port) {
    q == p.(topologyChangeAck := q.topologyChangeAck, configPending := q.configPending, holdTimer := q.holdTimer)
  }

  predicate PortsSentFrom(s: Bridge, t: Bridge) {
    |t.ports| == |s.ports| && forall i :: 0 <= i < |s.ports| ==> PortSentFrom(s, t, i)
  }

  predicate PortSentFrom(s: Bridge, t: Bridge, i: nat)
    requires i < |s.ports| && i < |t.ports|
  {
    SentFrom(s.ports[i], t.ports[i])
  }

  /** Ports from `n` on are untouched. */
  predicate UntouchedFrom(s: Bridge, t: Bridge, n: nat) {
    |t.ports| == |s.ports| && n <= |s.ports| && t.ports[n..] == s.ports[n..]
  }

  /** A bridge that differs at most in what was sent from it. */
  predicate OnlySent(s: Bridge, t: Bridge) {
    t == s.(sent := t.sent, ports := t.ports) && PortsSentFrom(s, t)
  }

  lemma SameVoice(s: Bridge, t: Bridge)
    requires OnlySent(s, t) && RootPortInRange(s)
    ensures RootPortInRange(t) && MaySpeak(t) == MaySpeak(s)
  {
    if s.rootPort.Some? { assert PortSentFrom(s, t, s.rootPort.value); }
  }

  lemma SameWords(s: Bridge, t: Bridge, i: nat)
    requires OnlySent(s, t) && RootPortInRange(s) && i < |s.ports| && t.ports[i] == s.ports[i]
    requires IsRoot(s) || s.rootPort.Some?
    ensures RootPortInRange(t) && ConfigOn(t, i) == ConfigOn(s, i) && FreeToSend(t, i) == FreeToSend(s, i)
  {
    if s.rootPort.Some? { assert PortSentFrom(s, t, s.rootPort.value); }
  }

  lemma TransmitOnlySent(s: Bridge, i: nat)
    requires i < |s.ports| && RootPortInRange(s)
    ensures OnlySent(s, TransmitConfig(s, i)) && UntouchedFrom(s, TransmitConfig(s, i), i + 1)
  {
    var t := TransmitConfig(s, i);
    assert t.ports == s.ports[i := t.ports[i]] && SentFrom(s.ports[i], t.ports[i]);
    forall j | 0 <= j < |s.ports| ensures PortSentFrom(s, t, j) { }
  }

  lemma OnlySentTransitive(s: Bridge, t: Bridge, u: Bridge)
    requires OnlySent(s, t) && OnlySent(t, u)
    ensures OnlySent(s, u)
  {
    forall i | 0 <= i < |s.ports| ensures PortSentFrom(s, u, i) {
      assert PortSentFrom(s, t, i) && PortSentFrom(t, u, i);
    }
  }

  /** What generating sends and leaves alone, for the ports among the first `n`. */
  predicate Generated(s: Bridge, n: nat, t: Bridge)
    requires n <= |s.ports| && RootPortInRange(s)
  {
    OnlySent(s, t) && UntouchedFrom(s, t, n) && t.sent == s.sent + Announcements(s, n)
  }

  lemma GeneratedOneMore(s: Bridge, n: nat, u: Bridge)
    requires n < |s.ports| && RootPortInRange(s) && Generated(s, n, u) && u.rootPort == s.rootPort
    ensures Generated(s, n + 1,
              if Enabled(u.ports[n]) && IsDesignated(u.bridgeId, u.ports[n]) then TransmitConfig(u, n) else u)
  {
    assert u.ports[n] == u.ports[n..][0] == s.ports[n];
    assert u.ports[n + 1..] == u.ports[n..][1..] && s.ports[n + 1..] == s.ports[n..][1..];
    SameVoice(s, u);
    if Enabled(u.ports[n]) && IsDesignated(u.bridgeId, u.ports[n]) {
      TransmitOnlySent(u, n);
      OnlySentTransitive(s, u, TransmitConfig(u, n));
      if IsRoot(s) || s.rootPort.Some? { SameWords(s, u, n); }
    }
  }

  /** Config BPDUs go out on exactly the enabled designated ports that are not under hold, in
      the order of the ports. */
  lemma {:induction false} GenerateExact(s: Bridge, n: nat)
    requires n <= |s.ports| && RootPortInRange(s)
    ensures Generated(s, n, GenerateUpTo(s, n))
  {
    if n > 0 {
      GenerateExact(s, n - 1);
      GeneratedOneMore(s, n - 1, GenerateUpTo(s, n - 1));
    }
  }

  /** From `s` to `t` the bridge sends `x`. */
  ghost predicate NewlySent(s: Bridge, t: Bridge, x: Sent) {
    s.sent <= t.sent && exists k :: |s.sent| <= k < |t.sent| && t.sent[k] == x
  }

  lemma SentThen(s: Bridge, t: Bridge, u: Bridge, x: Sent)
    requires s.sent <= t.sent <= u.sent && (NewlySent(s, t, x) || NewlySent(t, u, x))
    ensures NewlySent(s, u, x)
  {
    if NewlySent(s, t, x) {
      var k :| |s.sent| <= k < |t.sent| && t.sent[k] == x;
      assert u.sent[k] == x;
    } else {
      var k :| |t.sent| <= k < |u.sent| && u.sent[k] == x;
    }
  }

  lemma GenerationSends(s: Bridge, i: nat)
    requires RootPortInRange(s) && i < |s.ports| && MaySpeak(s) && FreeToSend(s, i)
    ensures NewlySent(s, ConfigGeneration(s), Sent(i, ConfigOn(s, i)))
  {
    var all, t := Announcements(s, |s.ports|), ConfigGeneration(s);
    GenerateExact(s, |s.ports|);
    AnnouncementsAre(s, |s.ports|, Sent(i, ConfigOn(s, i)));
    var k :| 0 <= k < |all| && all[k] == Sent(i, ConfigOn(s, i));
    assert t.sent[|s.sent| + k] == all[k];
  }

  lemma EvolvesSends(s: Bridge, t: Bridge)
    requires Evolves(s, t)
    ensures s.sent <= t.sent
  {
  }

  // ---------------------------------------------------------------- hellos

  /** The hello of a root bridge on port `i`. */
  function HelloOn(s: Bridge, i: nat): Bpdu
    requires i < |s.ports|
  {
    Config(s.bridgeId, 0, s.bridgeId, s.ports[i].portId, 0, s.maxAge, s.helloTime, s.forwardDelay,
           s.bigEndian && s.ports[i].topologyChangeAck, s.bigEndian && s.topologyChange)
  }

  /** What comes after the hello timer in a tick only adds to what was sent. */
  lemma TickAfterHello(s: Bridge, elapsed: nat)
    requires Inv(s) && elapsed > 0
    ensures TickHello(s, elapsed).sent <= Tick(s, elapsed).sent
  {
    var h := TickHello(s, elapsed);
    HelloQuiet(s, elapsed);
    QuietInv(s, h);
    TickOthersEvolves(h, elapsed);
    var a := TickBridgeTimers(s, elapsed);
    TickOthersQuiet(h, elapsed);
    QuietInv(h, a);
    AgePortsEvolves(a, elapsed, |a.ports|);
    DelayPortsEvolves(AgePorts(a, elapsed, |a.ports|), elapsed, |a.ports|);
    EvolvesSends(h, a);
    EvolvesSends(a, AgePorts(a, elapsed, |a.ports|));
    EvolvesSends(AgePorts(a, elapsed, |a.ports|), Tick(s, elapsed));
  }

  /** When the hello time of a root bridge has passed, it says hello on every enabled
      designated port that is not under hold, names itself as root with age 0, and starts the
      hello time again. */
  lemma HelloIsSent(s: Bridge, elapsed: nat, i: nat)
    requires Inv(s) && IsRoot(s) && s.maxAge > 0 && elapsed > 0
    requires Expires(s.helloTimer, elapsed, s.helloTime)
    requires i < |s.ports| && FreeToSend(s, i)
    ensures NewlySent(s, Tick(s, elapsed), Sent(i, HelloOn(s, i)))
    ensures TickHello(s, elapsed).helloTimer == Start(0)
  {
    InvMeans(s);
    var a := s.(helloTimer := Charge(s.helloTimer, elapsed, s.helloTime));
    GenerationSends(a, i);
    TickAfterHello(s, elapsed);
    SentThen(s, TickHello(s, elapsed), Tick(s, elapsed), Sent(i, HelloOn(s, i)));
  }

  // ---------------------------------------------------------------- what was held back

  /** A config BPDU waits on port `i` for the hold timer `h` to run out. */
  predicate Waits(s: Bridge, i: nat, h: Timer)
    requires i < |s.ports|
  {
    var p := s.ports[i];
    Enabled(p) && IsDesignated(s.bridgeId, p) && p.configPending && p.holdTimer == h && h.active
  }

  lemma TransmitWaits(s: Bridge, j: nat, i: nat, h: Timer)
    requires j < |s.ports| && i < |s.ports| && RootPortInRange(s) && Waits(s, i, h)
    ensures Waits(TransmitConfig(s, j), i, h)
  {
  }

  lemma {:induction false} GenerateWaits(s: Bridge, n: nat, i: nat, h: Timer)
    requires n <= |s.ports| && i < |s.ports| && RootPortInRange(s) && Waits(s, i, h)
    ensures Waits(GenerateUpTo(s, n), i, h)
  {
    if n > 0 {
      GenerateWaits(s, n - 1, i, h);
      TransmitWaits(GenerateUpTo(s, n - 1), n - 1, i, h);
    }
  }

  lemma UpdateWaits(s: Bridge, i: nat, h: Timer)
    requires Ready(s) && i < |s.ports| && Waits(s, i, h)
    ensures Waits(ConfigurationUpdate(s), i, h) && ConfigurationUpdate(s).rootPort != Some(i)
  {
    ReadyNumbered(s);
    BestRootSelects(s.bridgeId, s.ports, |s.ports|);
  }

  lemma SelectWaits(s: Bridge, i: nat, h: Timer)
    requires i < |s.ports| && Waits(s, i, h) && s.rootPort != Some(i)
    ensures Waits(StateSelection(s), i, h)
  {
    assert StateSelection(s).ports[i] == SelectState(s, i);
  }

  lemma BecomeRootWaits(s: Bridge, i: nat, h: Timer)
    requires i < |s.ports| && RootPortInRange(s) && Waits(s, i, h)
    ensures Waits(BecomeRootBridge(s), i, h)
  {
    var b := TopologyChangeDetection(OwnTimes(s));
    GenerateWaits(b.(tcnTimer := Stop(b.tcnTimer)), |s.ports|, i, h);
  }

  lemma ReselectAsRootWaits(s: Bridge, wasRoot: bool, i: nat, h: Timer)
    requires Ready(s) && i < |s.ports| && Waits(s, i, h)
    ensures Waits(ReselectAsRoot(s, wasRoot), i, h)
  {
    UpdateWaits(s, i, h);
    SelectWaits(ConfigurationUpdate(s), i, h);
    var u := Reselect(s);
    if IsRoot(u) && !wasRoot { BecomeRootWaits(u, i, h); }
  }

  lemma AgePortWaits(s: Bridge, elapsed: nat, j: nat, i: nat, h: Timer)
    requires Inv(s) && j < |s.ports| && i < |s.ports| && Waits(s, i, h)
    ensures Waits(AgePort(s, elapsed, j), i, h)
  {
    var p := s.ports[j];
    assert PortSettled(s, j);
    var u := s.(ports := s.ports[j := p.(messageAgeTimer := Charge(p.messageAgeTimer, elapsed, s.maxAge))]);
    if Enabled(p) && Expires(p.messageAgeTimer, elapsed, s.maxAge) {
      AgedOutReady(s, elapsed, j);
      ReselectAsRootWaits(BecomeDesignated(u, j), IsRoot(u), i, h);
    }
  }

  /** A settled bridge on which a BPDU waits. */
  ghost predicate SettledWaits(s: Bridge, i: nat, h: Timer)
    requires i < |s.ports|
  {
    Inv(s) && Waits(s, i, h)
  }

  lemma AgeOneMoreWaits(s: Bridge, elapsed: nat, n: nat, i: nat, h: Timer)
    requires n < |s.ports| && i < |s.ports| && SettledWaits(s, i, h)
    ensures SettledWaits(AgePort(s, elapsed, n), i, h)
  {
    AgePortInv(s, elapsed, n);
    AgePortWaits(s, elapsed, n, i, h);
  }

  lemma {:induction false} AgePortsWait(s: Bridge, elapsed: nat, n: nat, i: nat, h: Timer)
    requires n <= |s.ports| && i < |s.ports| && SettledWaits(s, i, h)
    ensures SettledWaits(AgePorts(s, elapsed, n), i, h)
  {
    if n > 0 {
      AgePortsWait(s, elapsed, n - 1, i, h);
      AgeOneMoreWaits(AgePorts(s, elapsed, n - 1), elapsed, n - 1, i, h);
    }
  }

  lemma DelayPortWaits(s: Bridge, elapsed: nat, j: nat, i: nat, h: Timer)
    requires j < |s.ports| && i < |s.ports| && j != i && SettledWaits(s, i, h)
    ensures SettledWaits(DelayPort(s, elapsed, j), i, h)
  {
    DelayPortInv(s, elapsed, j);
    ForwardDelayWaits(s, elapsed, j, i, h);
    if Enabled(s.ports[j]) { ChargeHoldWaits(ChargeForwardDelay(s, elapsed, j), elapsed, j, i, h); }
  }

  lemma ForwardDelayPorts(s: Bridge, elapsed: nat, j: nat)
    requires j < |s.ports|
    ensures ChargeForwardDelay(s, elapsed, j).ports == s.ports[j := DelayedPort(s.ports[j], elapsed, s.forwardDelay)]
    ensures ChargeForwardDelay(s, elapsed, j).bridgeId == s.bridgeId
  {
    assert ChargeForwardDelay(s, elapsed, j).ports[j] == DelayedPort(s.ports[j], elapsed, s.forwardDelay);
  }

  lemma ForwardDelayWaits(s: Bridge, elapsed: nat, j: nat, i: nat, h: Timer)
    requires j < |s.ports| && i < |s.ports| && Waits(s, i, h)
    ensures Waits(ChargeForwardDelay(s, elapsed, j), i, h)
  {
    ForwardDelayPorts(s, elapsed, j);
  }

  lemma ChargeHoldWaits(s: Bridge, elapsed: nat, j: nat, i: nat, h: Timer)
    requires j < |s.ports| && i < |s.ports| && j != i && RootPortInRange(s) && Waits(s, i, h)
    ensures Waits(ChargeHold(s, elapsed, j), i, h)
  {
    var p := s.ports[j];
    var u := s.(ports := s.ports[j := p.(holdTimer := Charge(p.holdTimer, elapsed, TICKS_PER_SECOND))]);
    TransmitWaits(u, j, i, h);
  }

  lemma {:induction false} DelayPortsWait(s: Bridge, elapsed: nat, n: nat, i: nat, h: Timer)
    requires n <= i < |s.ports| && SettledWaits(s, i, h)
    ensures SettledWaits(DelayPorts(s, elapsed, n), i, h)
  {
    if n > 0 {
      DelayPortsWait(s, elapsed, n - 1, i, h);
      DelayPortWaits(DelayPorts(s, elapsed, n - 1), elapsed, n - 1, i, h);
    }
  }

  /** Both bridges would say the same, flags aside. */
  predicate SameView(s: Bridge, t: Bridge) {
    && t.bridgeId == s.bridgeId && t.designatedRoot == s.designatedRoot && t.rootPathCost == s.rootPathCost
    && t.rootPort == s.rootPort && t.maxAge == s.maxAge && t.helloTime == s.helloTime
    && t.forwardDelay == s.forwardDelay && t.helloTimer == s.helloTimer && |t.ports| == |s.ports|
    && forall j :: 0 <= j < |s.ports| ==> SamePortView(s, t, j)
  }

  predicate SamePortView(s: Bridge, t: Bridge, j: nat)
    requires j < |s.ports| && j < |t.ports|
  {
    && t.ports[j].messageAgeTimer == s.ports[j].messageAgeTimer && t.ports[j].portId == s.ports[j].portId
    && t.ports[j].designatedBridge == s.ports[j].designatedBridge
  }

  lemma SameViewTransitive(s: Bridge, t: Bridge, u: Bridge)
    requires SameView(s, t) && SameView(t, u)
    ensures SameView(s, u)
  {
    forall j | 0 <= j < |s.ports| ensures SamePortView(s, u, j) {
      assert SamePortView(s, t, j) && SamePortView(t, u, j);
    }
  }

  lemma TransmitView(s: Bridge, i: nat)
    requires i < |s.ports| && RootPortInRange(s)
    ensures SameView(s, TransmitConfig(s, i))
  {
    TransmitOnlySent(s, i);
    forall j | 0 <= j < |s.ports| ensures SamePortView(s, TransmitConfig(s, i), j) {
      assert PortSentFrom(s, TransmitConfig(s, i), j);
    }
  }

  lemma ChargeForwardDelayView(s: Bridge, elapsed: nat, i: nat)
    requires i < |s.ports|
    ensures SameView(s, ChargeForwardDelay(s, elapsed, i))
  {
    var t := ChargeForwardDelay(s, elapsed, i);
    ForwardDelayPorts(s, elapsed, i);
    forall j | 0 <= j < |s.ports| ensures SamePortView(s, t, j) { }
  }

  lemma ChargeHoldView(s: Bridge, elapsed: nat, i: nat)
    requires i < |s.ports| && RootPortInRange(s)
    ensures SameView(s, ChargeHold(s, elapsed, i))
  {
    var p := s.ports[i];
    var u := s.(ports := s.ports[i := p.(holdTimer := Charge(p.holdTimer, elapsed, TICKS_PER_SECOND))]);
    assert SameView(s, u);
    TransmitView(u, i);
    SameViewTransitive(s, u, TransmitConfig(u, i));
  }

  lemma DelayPortView(s: Bridge, elapsed: nat, i: nat)
    requires i < |s.ports| && RootPortInRange(s)
    ensures SameView(s, DelayPort(s, elapsed, i))
  {
    if Enabled(s.ports[i]) {
      var u := ChargeForwardDelay(s, elapsed, i);
      ChargeForwardDelayView(s, elapsed, i);
      ChargeHoldView(u, elapsed, i);
      SameViewTransitive(s, u, ChargeHold(u, elapsed, i));
    }
  }

  predicate ViewUpTo(s: Bridge, elapsed: nat, n: nat)
    requires n <= |s.ports| && RootPortInRange(s)
  {
    SameView(s, DelayPorts(s, elapsed, n))
  }

  lemma ViewOneMore(s: Bridge, elapsed: nat, n: nat)
    requires n < |s.ports| && RootPortInRange(s) && ViewUpTo(s, elapsed, n)
    ensures ViewUpTo(s, elapsed, n + 1)
  {
    var u := DelayPorts(s, elapsed, n);
    DelayPortView(u, elapsed, n);
    SameViewTransitive(s, u, DelayPort(u, elapsed, n));
  }

  lemma {:induction false} DelayPortsView(s: Bridge, elapsed: nat, n: nat)
    requires n <= |s.ports| && RootPortInRange(s)
    ensures ViewUpTo(s, elapsed, n)
  {
    if n > 0 {
      DelayPortsView(s, elapsed, n - 1);
      ViewOneMore(s, elapsed, n - 1);
    }
  }

  /** `m` is what the bridge has to say on port `i`, flags aside. */
  predicate Says(s: Bridge, i: nat, m: Bpdu)
    requires RootPortInRange(s) && i < |s.ports|
  {
    && (IsRoot(s) || s.rootPort.Some?) && m.Config? && m.rootId == s.designatedRoot && m.rootPathCost == s.rootPathCost && m.bridgeId == s.bridgeId
    && m.portId == s.ports[i].portId && m.messageAge == SentAge(s)
    && m.maxAge == s.maxAge && m.helloTime == s.helloTime && m.forwardDelay == s.forwardDelay
  }

  lemma SameViewSays(s: Bridge, t: Bridge, i: nat)
    requires SameView(s, t) && RootPortInRange(s) && i < |s.ports|
    ensures RootPortInRange(t) && (MaySpeak(s) <==> MaySpeak(t))
    ensures MaySpeak(s) ==> Says(t, i, ConfigOn(s, i))
  {
    assert SamePortView(s, t, i);
    if s.rootPort.Some? { assert SamePortView(s, t, s.rootPort.value); }
  }

  /** The tick in which the hold timer of port `i` runs out, seen from that port. */
  lemma HoldRunsOut(s: Bridge, elapsed: nat, i: nat, h: Timer)
    requires i < |s.ports| && RootPortInRange(s) && Waits(s, i, h)
    requires Expires(h, elapsed, TICKS_PER_SECOND) && MaySpeak(s)
    ensures exists m :: NewlySent(s, DelayPort(s, elapsed, i), Sent(i, m)) && Says(s, i, m)
  {
    var v := ChargeForwardDelay(s, elapsed, i);
    ChargeForwardDelayView(s, elapsed, i);
    ForwardDelayKeepsWaiting(s, elapsed, i, h);
    var q := v.ports[i];
    var u := v.(ports := v.ports[i := q.(holdTimer := Charge(h, elapsed, TICKS_PER_SECOND))]);
    HoldView(s, v, u, i);
    TransmitSends(u, i);
    SentThen(s, u, TransmitConfig(u, i), Sent(i, ConfigOn(u, i)));
  }

  lemma TransmitSends(s: Bridge, i: nat)
    requires i < |s.ports| && RootPortInRange(s) && MaySpeak(s) && !s.ports[i].holdTimer.active
    ensures NewlySent(s, TransmitConfig(s, i), Sent(i, ConfigOn(s, i)))
  {
    assert TransmitConfig(s, i).sent[|s.sent|] == Sent(i, ConfigOn(s, i));
  }

  lemma HoldView(s: Bridge, v: Bridge, u: Bridge, i: nat)
    requires SameView(s, v) && i < |s.ports| && RootPortInRange(s) && MaySpeak(s)
    requires |u.ports| == |v.ports| && u == v.(ports := v.ports[i := v.ports[i].(holdTimer := u.ports[i].holdTimer)])
    ensures RootPortInRange(u) && MaySpeak(u) && Says(s, i, ConfigOn(u, i))
  {
    assert SameView(v, u);
    SameViewTransitive(s, v, u);
    SameViewSays(s, u, i);
  }

  lemma ForwardDelayKeepsWaiting(s: Bridge, elapsed: nat, i: nat, h: Timer)
    requires i < |s.ports| && Waits(s, i, h)
    ensures Waits(ChargeForwardDelay(s, elapsed, i), i, h)
    ensures s.sent <= ChargeForwardDelay(s, elapsed, i).sent
  {
    ForwardDelayWaits(s, elapsed, i, i, h);
    ChargeForwardDelayEvolves(s, elapsed, i);
    EvolvesSends(s, ChargeForwardDelay(s, elapsed, i));
  }

  lemma TickBeforeDelay(s: Bridge, elapsed: nat, i: nat, h: Timer)
    requires i < |s.ports| && SettledWaits(s, i, h)
    ensures
      var b := AgePorts(TickBridgeTimers(s, elapsed), elapsed, |s.ports|);
      SettledWaits(b, i, h) && s.sent <= b.sent
  {
    var a := TickBridgeTimers(s, elapsed);
    TickBridgeTimersQuiet(s, elapsed);
    QuietInv(s, a);
    HelloWaits(s, elapsed, i, h);
    AgePortsWait(a, elapsed, |a.ports|, i, h);
    TickBridgeTimersEvolves(s, elapsed);
    AgePortsEvolves(a, elapsed, |a.ports|);
    EvolvesSends(s, a);
    EvolvesSends(a, AgePorts(a, elapsed, |a.ports|));
  }

  lemma HelloWaits(s: Bridge, elapsed: nat, i: nat, h: Timer)
    requires i < |s.ports| && RootPortInRange(s) && Waits(s, i, h)
    ensures Waits(TickBridgeTimers(s, elapsed), i, h)
  {
    var b := TickHello(s, elapsed);
    HelloTimerWaits(s, elapsed, i, h);
    BridgeTimersPorts(b, elapsed);
    SamePortsWait(b, TickBridgeTimers(s, elapsed), i, h);
  }

  lemma HelloTimerWaits(s: Bridge, elapsed: nat, i: nat, h: Timer)
    requires i < |s.ports| && RootPortInRange(s) && Waits(s, i, h)
    ensures Waits(TickHello(s, elapsed), i, h)
  {
    var a := s.(helloTimer := Charge(s.helloTimer, elapsed, s.helloTime));
    GenerateWaits(a, |a.ports|, i, h);
  }

  lemma BridgeTimersPorts(s: Bridge, elapsed: nat)
    ensures var t := TickTopologyChange(TickTcn(s, elapsed), elapsed); t.ports == s.ports && t.bridgeId == s.bridgeId
  {
  }

  lemma SamePortsWait(s: Bridge, t: Bridge, i: nat, h: Timer)
    requires i < |s.ports| && t.ports == s.ports && t.bridgeId == s.bridgeId && Waits(s, i, h)
    ensures Waits(t, i, h)
  {
  }

  ghost predicate SentUpTo(b: Bridge, elapsed: nat, n: nat, k: nat)
    requires k <= n <= |b.ports| && RootPortInRange(b)
  {
    Inv(DelayPorts(b, elapsed, n)) && DelayPorts(b, elapsed, k).sent <= DelayPorts(b, elapsed, n).sent
  }

  lemma SentOneMore(b: Bridge, elapsed: nat, n: nat, k: nat)
    requires k <= n < |b.ports| && RootPortInRange(b) && SentUpTo(b, elapsed, n, k)
    ensures SentUpTo(b, elapsed, n + 1, k)
  {
    var u := DelayPorts(b, elapsed, n);
    DelayPortInv(u, elapsed, n);
    DelayOneMoreSends(u, elapsed, n);
  }

  lemma {:induction false} DelayedSends(b: Bridge, elapsed: nat, n: nat, k: nat)
    requires Inv(b) && k <= n <= |b.ports|
    ensures SentUpTo(b, elapsed, n, k)
  {
    if k < n {
      DelayedSends(b, elapsed, n - 1, k);
      SentOneMore(b, elapsed, n - 1, k);
    } else {
      DelayPortsInv(b, elapsed, n);
    }
  }

  lemma DelayOneMoreSends(u: Bridge, elapsed: nat, n: nat)
    requires Inv(u) && n < |u.ports|
    ensures u.sent <= DelayPort(u, elapsed, n).sent
  {
    DelayPortEvolves(u, elapsed, n);
    EvolvesSends(u, DelayPort(u, elapsed, n));
  }

  /** The forward delay and hold timers, seen from a port whose hold time is over. */
  lemma DelaySends(b: Bridge, elapsed: nat, i: nat, h: Timer)
    requires i < |b.ports| && SettledWaits(b, i, h) && Expires(h, elapsed, TICKS_PER_SECOND) && MaySpeak(b)
    ensures exists m ::
      NewlySent(b, DelayPorts(b, elapsed, |b.ports|), Sent(i, m)) && Says(DelayPorts(b, elapsed, |b.ports|), i, m)
  {
    var u, t := DelayPorts(b, elapsed, i), DelayPorts(b, elapsed, |b.ports|);
    DelayPortsWait(b, elapsed, i, i, h);
    DelayPortsView(b, elapsed, i);
    DelayPortsView(b, elapsed, |b.ports|);
    SameViewSays(b, u, i);
    HoldRunsOut(u, elapsed, i, h);
    var m :| NewlySent(u, DelayPort(u, elapsed, i), Sent(i, m)) && Says(u, i, m);
    DelayedSends(b, elapsed, i, 0);
    DelayedSends(b, elapsed, |b.ports|, i + 1);
    SentThen(b, u, DelayPort(u, elapsed, i), Sent(i, m));
    SentThen(b, DelayPort(u, elapsed, i), t, Sent(i, m));
    SayToo(b, u, t, i, m);
  }

  lemma SayToo(b: Bridge, u: Bridge, t: Bridge, i: nat, m: Bpdu)
    requires SameView(b, u) && SameView(b, t) && RootPortInRange(b) && RootPortInRange(u) && RootPortInRange(t)
    requires i < |b.ports| && Says(u, i, m)
    ensures Says(t, i, m)
  {
    assert SamePortView(b, u, i) && SamePortView(b, t, i);
    if b.rootPort.Some? { assert SamePortView(b, u, b.rootPort.value) && SamePortView(b, t, b.rootPort.value); }
  }

  /** A config BPDU that waits for a hold timer is sent in the tick in which that runs out, as
      long as the bridge then has something to say that is not too old. */
  lemma HeldBackIsSent(s: Bridge, elapsed: nat, i: nat)
    requires Inv(s) && elapsed > 0 && i < |s.ports| && s.ports[i].configPending
    requires Expires(s.ports[i].holdTimer, elapsed, TICKS_PER_SECOND)
    requires MaySpeak(Tick(s, elapsed))
    ensures exists m :: NewlySent(s, Tick(s, elapsed), Sent(i, m)) && Says(Tick(s, elapsed), i, m)
  {
    var h := s.ports[i].holdTimer;
    assert PortReady(s, i) && PortSettled(s, i);
    TickBeforeDelay(s, elapsed, i, h);
    var b := AgePorts(TickBridgeTimers(s, elapsed), elapsed, |s.ports|);
    DelayPortsView(b, elapsed, |b.ports|);
    SameViewSays(b, Tick(s, elapsed), i);
    DelaySends(b, elapsed, i, h);
    var m :| NewlySent(b, Tick(s, elapsed), Sent(i, m)) && Says(Tick(s, elapsed), i, m);
    SentThen(s, b, Tick(s, elapsed), Sent(i, m));
  }
}

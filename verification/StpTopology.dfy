/** Topology changes: a bridge that notices one tells the root, again and again until it is
    acknowledged, and the root tells everybody for a while. */
module StpTopology {
  import opened Wrappers
  import opened StpModel
  import opened StpSelection
  import opened StpInvariant
  import opened StpSteps
  import opened StpMessageAge
  import opened StpForwarding
  import opened StpSending
  import opened StpSettings
  import opened StpHello
  import opened StpRelaying

  // ---------------------------------------------------------------- notices go on

  lemma TcnTimerSends(s: Bridge, elapsed: nat, r: nat)
    requires s.rootPort == Some(r) && Expires(s.tcnTimer, elapsed, s.bridgeHelloTime)
    ensures NewlySent(s, TickTcn(s, elapsed), Sent(r, Tcn)) && TickTcn(s, elapsed).tcnTimer == Start(0)
  {
    assert TickTcn(s, elapsed).sent[|s.sent|] == Sent(r, Tcn);
  }

  lemma HelloBefore(s: Bridge, elapsed: nat)
    requires RootPortInRange(s)
    ensures var h := TickHello(s, elapsed);
      && h.rootPort == s.rootPort && h.tcnTimer == s.tcnTimer && h.bridgeHelloTime == s.bridgeHelloTime
      && h.topologyChangeDetected == s.topologyChangeDetected && h.topologyChange == s.topologyChange
      && h.topologyChangeTimer == s.topologyChangeTimer && h.maxAge == s.maxAge && h.forwardDelay == s.forwardDelay
      && IsRoot(h) == IsRoot(s) && s.sent <= h.sent
  {
    var a := s.(helloTimer := Charge(s.helloTimer, elapsed, s.helloTime));
    GenerateExact(a, |a.ports|);
  }

  /** When the bridge's own hello time has passed since the last notice, a bridge that is not
      root sends another on its root port and starts the time again. */
  lemma NoticeIsRepeated(s: Bridge, elapsed: nat)
    requires Inv(s) && !IsRoot(s) && elapsed > 0 && Expires(s.tcnTimer, elapsed, s.bridgeHelloTime)
    ensures s.rootPort.Some? && NewlySent(s, Tick(s, elapsed), Sent(s.rootPort.value, Tcn))
    ensures TickBridgeTimers(s, elapsed).tcnTimer == Start(0)
  {
    InvMeans(s);
    var h, r := TickHello(s, elapsed), s.rootPort.value;
    HelloBefore(s, elapsed);
    TcnTimerSends(h, elapsed, r);
    SentThen(s, h, TickTcn(h, elapsed), Sent(r, Tcn));
    var a := TickBridgeTimers(s, elapsed);
    SentThen(s, TickTcn(h, elapsed), a, Sent(r, Tcn));
    TickBridgeTimersQuiet(s, elapsed);
    QuietInv(s, a);
    TickAfterTimers(a, elapsed);
    SentThen(s, a, Tick(s, elapsed), Sent(r, Tcn));
  }

  lemma TickAfterTimers(a: Bridge, elapsed: nat)
    requires Inv(a)
    ensures a.sent <= DelayPorts(AgePorts(a, elapsed, |a.ports|), elapsed, |a.ports|).sent
  {
    AgePortsEvolves(a, elapsed, |a.ports|);
    var b := AgePorts(a, elapsed, |a.ports|);
    DelayPortsEvolves(b, elapsed, |b.ports|);
    EvolvesSends(a, b);
    EvolvesSends(b, DelayPorts(b, elapsed, |b.ports|));
  }

  /** A change that was noticed is being reported. */
  predicate Reporting(s: Bridge) { s.topologyChangeDetected ==> s.tcnTimer.active }

  /** So it is on every bridge that is not root. */
  predicate NoticesRun(s: Bridge) { !IsRoot(s) ==> Reporting(s) }

  lemma DetectionReports(s: Bridge)
    requires Reporting(s)
    ensures var t := TopologyChangeDetection(s); IsRoot(t) == IsRoot(s) && (!IsRoot(s) ==> Reporting(t))
  {
  }

  lemma ReselectReports(s: Bridge)
    requires Reporting(s)
    ensures NoticesRun(Reselect(s))
  {
    SelectionReports(ConfigurationUpdate(s));
  }

  lemma SelectionReports(s: Bridge)
    requires Reporting(s)
    ensures NoticesRun(StateSelection(s))
  {
  }

  lemma BecomesRoot(s: Bridge, wasRoot: bool)
    requires Reporting(s)
    ensures NoticesRun(ReselectAsRoot(s, wasRoot))
  {
    ReselectReports(s);
    var u := Reselect(s);
    var b := TopologyChangeDetection(OwnTimes(u));
    GenerationKeeps(b.(tcnTimer := Stop(b.tcnTimer)));
  }

  lemma AgePortReports(s: Bridge, elapsed: nat, i: nat)
    requires Inv(s) && i < |s.ports| && NoticesRun(s)
    ensures NoticesRun(AgePort(s, elapsed, i))
  {
    if IsRoot(s) {
      AgePortRoot(s, elapsed, i);
    } else {
      var p := s.ports[i];
      var u := s.(ports := s.ports[i := p.(messageAgeTimer := Charge(p.messageAgeTimer, elapsed, s.maxAge))]);
      BecomesRoot(BecomeDesignated(u, i), IsRoot(u));
    }
  }

  ghost predicate ReportsUpTo(s: Bridge, elapsed: nat, n: nat)
    requires n <= |s.ports| && RootPortInRange(s)
  {
    Inv(AgePorts(s, elapsed, n)) && NoticesRun(AgePorts(s, elapsed, n))
  }

  lemma ReportsOneMore(s: Bridge, elapsed: nat, n: nat)
    requires n < |s.ports| && RootPortInRange(s) && ReportsUpTo(s, elapsed, n)
    ensures ReportsUpTo(s, elapsed, n + 1)
  {
    var u := AgePorts(s, elapsed, n);
    AgePortInv(u, elapsed, n);
    AgePortReports(u, elapsed, n);
  }

  lemma {:induction false} AgePortsReport(s: Bridge, elapsed: nat, n: nat)
    requires Inv(s) && NoticesRun(s) && n <= |s.ports|
    ensures ReportsUpTo(s, elapsed, n)
  {
    if n > 0 {
      AgePortsReport(s, elapsed, n - 1);
      ReportsOneMore(s, elapsed, n - 1);
    }
  }

  lemma DelayPortReports(s: Bridge, elapsed: nat, i: nat)
    requires i < |s.ports| && RootPortInRange(s) && NoticesRun(s)
    ensures NoticesRun(DelayPort(s, elapsed, i))
  {
    var v := ChargeForwardDelay(s, elapsed, i);
    assert NoticesRun(v);
    var p := v.ports[i];
    TransmitOnlySent(v.(ports := v.ports[i := p.(holdTimer := Charge(p.holdTimer, elapsed, TICKS_PER_SECOND))]), i);
  }

  predicate DelayedReports(s: Bridge, elapsed: nat, n: nat)
    requires n <= |s.ports| && RootPortInRange(s)
  {
    NoticesRun(DelayPorts(s, elapsed, n))
  }

  lemma DelayedOneMoreReports(s: Bridge, elapsed: nat, n: nat)
    requires n < |s.ports| && RootPortInRange(s) && DelayedReports(s, elapsed, n)
    ensures DelayedReports(s, elapsed, n + 1)
  {
    DelayPortReports(DelayPorts(s, elapsed, n), elapsed, n);
  }

  lemma {:induction false} DelayPortsReport(s: Bridge, elapsed: nat, n: nat)
    requires n <= |s.ports| && RootPortInRange(s) && NoticesRun(s)
    ensures DelayedReports(s, elapsed, n)
  {
    if n > 0 {
      DelayPortsReport(s, elapsed, n - 1);
      DelayedOneMoreReports(s, elapsed, n - 1);
    }
  }

  lemma TimersReport(s: Bridge, elapsed: nat)
    requires RootPortInRange(s) && NoticesRun(s)
    ensures NoticesRun(TickBridgeTimers(s, elapsed))
  {
    HelloBefore(s, elapsed);
    OthersKeep(TickHello(s, elapsed), elapsed);
  }

  lemma TickReports(s: Bridge, elapsed: nat)
    requires Inv(s) && NoticesRun(s)
    ensures NoticesRun(Tick(s, elapsed))
  {
    if elapsed > 0 {
      var a := TickBridgeTimers(s, elapsed);
      TickBridgeTimersQuiet(s, elapsed);
      QuietInv(s, a);
      TimersReport(s, elapsed);
      AgePortsReport(a, elapsed, |a.ports|);
      DelayPortsReport(AgePorts(a, elapsed, |a.ports|), elapsed, |a.ports|);
    }
  }

  lemma AcceptReports(s: Bridge, i: nat, c: Bpdu)
    requires i < |s.ports| && c.Config? && NoticesRun(s)
    ensures NoticesRun(Accept(s, i, c))
  {
    var a := Reselect(Record(s, i, c));
    if !IsRoot(s) { ReselectReports(Record(s, i, c)); }
    var b := if !IsRoot(a) && IsRoot(s) then StepDown(a) else a;
    assert NoticesRun(b);
    if b.rootPort == Some(i) { GenerationKeeps(RecordTimeouts(b, c)); }
  }

  lemma ReceivedReports(s: Bridge, e: Event)
    requires Shaped(s) && Legal(e) && NoticesRun(s) && (e.EReceiveConfig? || e.EReceiveTcn?)
    ensures NoticesRun(Step(s, e))
  {
    match e
    case EReceiveConfig(i, c) =>
      AcceptReports(s, i, c);
      TransmitOnlySent(s, i);
    case EReceiveTcn(i) =>
      var u := TopologyChangeDetection(s);
      TransmitOnlySent(u.(ports := u.ports[i := u.ports[i].(topologyChangeAck := true)]), i);
  }

  lemma DisableReports(s: Bridge, i: nat)
    requires Inv(s) && NoticesRun(s) && i < |s.ports|
    ensures NoticesRun(PortDisable(s, i))
  {
    if Enabled(s.ports[i]) {
      var u := SwitchOff(s, i);
      if IsRoot(s) {
        RootHasNoCandidates(s);
        SwitchOffReady(s, i);
        ReselectRoot(u);
      } else {
        BecomesRoot(u, false);
      }
    }
  }

  lemma PathCostReports(s: Bridge, i: nat, cost: nat)
    requires Inv(s) && NoticesRun(s) && i < |s.ports| && 1 <= cost < 0x1_0000
    ensures NoticesRun(PortSetPathCost(s, i, cost))
  {
    var u := s.(ports := s.ports[i := s.ports[i].(pathCost := cost)]);
    if IsRoot(s) {
      RootHasNoCandidates(s);
      PathCostReady(s, i, cost);
      ReselectRoot(u);
    } else {
      ReselectReports(u);
    }
  }

  lemma EnableReports(s: Bridge, i: nat)
    requires RootPortInRange(s) && NoticesRun(s) && i < |s.ports|
    ensures NoticesRun(PortEnable(s, i))
  {
    var u := InitializePort(s, i, Blocking);
    SelectionKeeps(u);
    if !IsRoot(s) { SelectionReports(u); }
  }

  /** Every operation but a change of identifier keeps a noticed change reported. */
  lemma StepReports(s: Bridge, e: Event)
    requires Inv(s) && NoticesRun(s) && Legal(e) && !e.ESetBridgeId?
    ensures NoticesRun(Step(s, e))
  {
    match e
    case ETick(elapsed) => TickReports(s, elapsed);
    case EReceiveConfig(_, _) | EReceiveTcn(_) => ReceivedReports(s, e);
    case EEnable(i) => EnableReports(s, i);
    case EDisable(i) => DisableReports(s, i);
    case ESetPathCost(i, cost) => PathCostReports(s, i, cost);
    case _ =>
  }

  /** With its new identifier the bridge has a candidate for root port. */
  predicate RenamedFollows(s: Bridge, id: nat) {
    exists j :: 0 <= j < |s.ports| && Candidate(id, Rename(s, id).ports[j])
  }

  /** A change of identifier silences the report if and only if it makes a root bridge that
      has noticed a change, and reports none, follow another. */
  lemma RenameReportsExactly(s: Bridge, id: nat)
    requires Inv(s) && NoticesRun(s)
    ensures NoticesRun(SetBridgeId(s, id)) <==>
            !(id != s.bridgeId && IsRoot(s) && !Reporting(s) && RenamedFollows(s, id))
  {
    if id != s.bridgeId {
      var u := Rename(s, id);
      RenameReady(s, id);
      ReselectRoot(u);
      if Reporting(s) {
        BecomesRoot(u, IsRoot(s));
      } else {
        AlreadyDetected(ConfigurationUpdate(u));
      }
    }
  }

  /** Selection adds nothing to a change already noticed, except on the root. */
  lemma AlreadyDetected(s: Bridge)
    requires s.topologyChangeDetected
    ensures StateSelection(s).topologyChangeDetected && StateSelection(s).tcnTimer == s.tcnTimer
  {
  }

  /** Over every run without a change of identifier, a bridge that is not root and has noticed
      a change has the timer running that repeats its notices. */
  lemma {:induction false} RunReports(bigEndian: bool, id: nat, es: seq<Event>, k: nat)
    requires AllLegal(es) && k <= |es| && forall j :: 0 <= j < |es| ==> !es[j].ESetBridgeId?
    ensures Inv(After(Create(bigEndian, id), es, k)) && NoticesRun(After(Create(bigEndian, id), es, k))
  {
    var s := Create(bigEndian, id);
    if k == 0 {
      CreateInv(bigEndian, id);
    } else {
      RunReports(bigEndian, id, es, k - 1);
      StepInv(After(s, es, k - 1), es[k - 1]);
      StepReports(After(s, es, k - 1), es[k - 1]);
      AfterStep(s, es, k - 1);
    }
  }

  // ---------------------------------------------------------------- notices are answered

  /** What the bridge says on port `i` in answer to a notice: the acknowledgement, and the
      change itself if it is the root or knows of it from the root. The flags only leave a
      big-endian host. */
  function Acknowledgement(s: Bridge, i: nat): Bpdu
    requires i < |s.ports| && RootPortInRange(s) && (IsRoot(s) || s.rootPort.Some?)
  {
    Config(s.designatedRoot, s.rootPathCost, s.bridgeId, s.ports[i].portId, SentAge(s),
           s.maxAge, s.helloTime, s.forwardDelay, s.bigEndian, s.bigEndian && (IsRoot(s) || s.topologyChange))
  }

  /** A notice on a designated port is passed on towards the root, unless the bridge reports a
      change already, and acknowledged once, now or when the hold time is over. */
  lemma NoticeIsAnswered(s: Bridge, i: nat)
    requires Inv(s) && i < |s.ports| && Enabled(s.ports[i]) && IsDesignated(s.bridgeId, s.ports[i])
    ensures
      var t := ReceivedTcn(s, i);
      && t.topologyChangeDetected
      && (IsRoot(s) ==> t.topologyChange && t.topologyChangeTimer == Start(0))
      && (!IsRoot(s) && !s.topologyChangeDetected ==>
            s.rootPort.Some? && NewlySent(s, t, Sent(s.rootPort.value, Tcn)) && t.tcnTimer == Start(0))
      && (if s.ports[i].holdTimer.active then Waits(t, i, s.ports[i].holdTimer) && t.ports[i].topologyChangeAck
          else MaySpeak(s) ==> NewlySent(s, t, Sent(i, Acknowledgement(s, i))) && !t.ports[i].topologyChangeAck)
  {
    InvMeans(s);
    var u := TopologyChangeDetection(s);
    var v := u.(ports := u.ports[i := u.ports[i].(topologyChangeAck := true)]);
    TransmitOnlySent(v, i);
    DetectionSends(s);
    if !s.ports[i].holdTimer.active && MaySpeak(s) {
      AnswerIs(s, i, v);
      TransmitSends(v, i);
    }
    AnsweredSent(s, v, TransmitConfig(v, i), i);
  }

  lemma DetectionSends(s: Bridge)
    ensures var u := TopologyChangeDetection(s);
      && s.sent <= u.sent
      && (!IsRoot(s) && !s.topologyChangeDetected && s.rootPort.Some? ==> NewlySent(s, u, Sent(s.rootPort.value, Tcn)))
  {
    var u := TopologyChangeDetection(s);
    if !IsRoot(s) && !s.topologyChangeDetected && s.rootPort.Some? {
      assert u.sent[|s.sent|] == Sent(s.rootPort.value, Tcn);
    }
  }

  lemma AnswerIs(s: Bridge, i: nat, v: Bridge)
    requires i < |s.ports| && RootPortInRange(s) && MaySpeak(s)
    requires v == TopologyChangeDetection(s).(ports := s.ports[i := s.ports[i].(topologyChangeAck := true)])
    ensures RootPortInRange(v) && MaySpeak(v) && ConfigOn(v, i) == Acknowledgement(s, i)
  {
  }

  lemma AnsweredSent(s: Bridge, v: Bridge, t: Bridge, i: nat)
    requires s.sent <= v.sent <= t.sent
    ensures forall x :: NewlySent(s, v, x) || NewlySent(v, t, x) ==> NewlySent(s, t, x)
  {
    forall x | NewlySent(s, v, x) || NewlySent(v, t, x) ensures NewlySent(s, t, x) { SentThen(s, v, t, x); }
  }

  /** A bridge that follows `c` takes the root's word on whether the topology is changing, and
      stops reporting a change if and only if `c` acknowledges it and the host is big-endian:
      on a little-endian host an acknowledgement is neither sent nor heard. */
  lemma AcknowledgedExactly(s: Bridge, i: nat, c: Bpdu)
    requires i < |s.ports| && c.Config? && RootPortInRange(s) && Accepts(s, i, c)
    requires ReceivedConfig(s, i, c).rootPort == Some(i)
    ensures
      var t := ReceivedConfig(s, i, c);
      && t.topologyChange == (s.bigEndian && c.topologyChange)
      && (s.topologyChangeDetected ==> (!t.topologyChangeDetected <==> s.bigEndian && c.topologyChangeAck))
      && (s.bigEndian && c.topologyChangeAck ==> !t.topologyChangeDetected && !t.tcnTimer.active)
  {
    var b := Heard(s, i, c);
    HeardTimes(s, i, c);
    HeardDetected(s, i, c);
    GenerationKeeps(RecordTimeouts(b, c));
  }

  lemma HeardDetected(s: Bridge, i: nat, c: Bpdu)
    requires i < |s.ports| && c.Config?
    ensures s.topologyChangeDetected ==> Heard(s, i, c).topologyChangeDetected
  {
    var u := ConfigurationUpdate(Record(s, i, c));
    if s.topologyChangeDetected { AlreadyDetected(u); }
  }

  /** The root announces a change for a max age and a forward delay, and no longer. */
  lemma AnnouncementEnds(s: Bridge, elapsed: nat)
    requires RootPortInRange(s)
    ensures
      var t := TickBridgeTimers(s, elapsed);
      if Expires(s.topologyChangeTimer, elapsed, s.maxAge + s.forwardDelay)
      then !t.topologyChange && !t.topologyChangeDetected && !t.topologyChangeTimer.active
      else t.topologyChange == s.topologyChange && t.topologyChangeDetected == s.topologyChangeDetected
  {
    HelloBefore(s, elapsed);
    TcnKeeps(TickHello(s, elapsed), elapsed);
  }

  lemma TcnKeeps(s: Bridge, elapsed: nat)
    ensures var t := TickTcn(s, elapsed);
      && t.topologyChangeTimer == s.topologyChangeTimer && t.topologyChange == s.topologyChange
      && t.topologyChangeDetected == s.topologyChangeDetected
      && t.maxAge == s.maxAge && t.forwardDelay == s.forwardDelay
  {
  }

  // ---------------------------------------------------------------- what is noticed

  lemma DelayPortDetected(s: Bridge, elapsed: nat, i: nat)
    requires i < |s.ports| && RootPortInRange(s) && s.topologyChangeDetected
    ensures DelayPort(s, elapsed, i).topologyChangeDetected
  {
    var v := ChargeForwardDelay(s, elapsed, i);
    assert v.topologyChangeDetected;
    HoldDetected(v, elapsed, i);
  }

  lemma HoldDetected(s: Bridge, elapsed: nat, i: nat)
    requires i < |s.ports| && RootPortInRange(s)
    ensures ChargeHold(s, elapsed, i).topologyChangeDetected == s.topologyChangeDetected
  {
    var p := s.ports[i];
    TransmitOnlySent(s.(ports := s.ports[i := p.(holdTimer := Charge(p.holdTimer, elapsed, TICKS_PER_SECOND))]), i);
  }

  lemma {:induction false} DetectedLater(b: Bridge, elapsed: nat, k: nat, n: nat)
    requires k <= n <= |b.ports| && RootPortInRange(b) && DelayPorts(b, elapsed, k).topologyChangeDetected
    ensures DelayPorts(b, elapsed, n).topologyChangeDetected
  {
    if k < n {
      DetectedLater(b, elapsed, k, n - 1);
      DelayPortDetected(DelayPorts(b, elapsed, n - 1), elapsed, n - 1);
    }
  }

  /** The forward delay timer that makes a port forward makes the bridge notice it. */
  lemma ExpiryDetects(u: Bridge, elapsed: nat, i: nat)
    requires i < |u.ports| && RootPortInRange(u) && u.ports[i].state == Learning && u.ports[i].changeDetection
    requires Expires(u.ports[i].forwardDelayTimer, elapsed, u.forwardDelay)
    requires DesignatedForSomePort(u)
    ensures DelayPort(u, elapsed, i).topologyChangeDetected
  {
    var p := u.ports[i];
    var c := u.(ports := u.ports[i := p.(forwardDelayTimer := Charge(p.forwardDelayTimer, elapsed, u.forwardDelay))]);
    var w := c.(ports := c.ports[i := c.ports[i].(state := Forwarding)]);
    var j :| 0 <= j < |u.ports| && Enabled(u.ports[j]) && u.ports[j].designatedBridge == u.bridgeId;
    assert Enabled(w.ports[j]) && w.ports[j].designatedBridge == w.bridgeId;
    assert DesignatedForSomePort(w);
    HoldDetected(ChargeForwardDelay(u, elapsed, i), elapsed, i);
  }

  /** The ports by then have what counts as they had it before, and after. */
  lemma DelayedFrame(b: Bridge, elapsed: nat, i: nat, j: nat)
    requires i <= |b.ports| && j < |b.ports| && RootPortInRange(b)
    ensures var u := DelayPorts(b, elapsed, i);
      && u.bridgeId == b.bridgeId && u.forwardDelay == b.forwardDelay
      && u.ports[j].designatedBridge == b.ports[j].designatedBridge
      && (Enabled(u.ports[j]) <==> Enabled(b.ports[j])) && u.ports[j].changeDetection == b.ports[j].changeDetection
  {
    DelayPortsView(b, elapsed, i);
    DelayPortsSame(b, elapsed, i);
    assert SamePortView(b, DelayPorts(b, elapsed, i), j) && SamePortSettings(b, DelayPorts(b, elapsed, i), j);
  }

  /** A port with change detection that comes to forward in a tick is noticed, if the bridge
      is designated for some LAN. */
  lemma ForwardingIsNoticed(s: Bridge, elapsed: nat, i: nat)
    requires Inv(s) && elapsed > 0 && i < |s.ports| && s.ports[i].changeDetection
    requires s.ports[i].state != Forwarding && Tick(s, elapsed).ports[i].state == Forwarding
    requires DesignatedForSomePort(Tick(s, elapsed))
    ensures Tick(s, elapsed).topologyChangeDetected
  {
    var a := TickBridgeTimers(s, elapsed);
    var b, t := AgePorts(a, elapsed, |a.ports|), Tick(s, elapsed);
    AgedBeforeDelay(s, elapsed);
    assert PortHeldBack(s, b, i) && PortReady(b, i);
    BridgeTimersSame(s, elapsed);
    AgePortsSame(a, elapsed, |a.ports|);
    assert SamePortSettings(s, a, i) && SamePortSettings(a, b, i);
    NoticedIn(b, elapsed, i);
  }

  /** A port that comes to forward was learning when its turn came, and its timer ran out. */
  lemma LearningThen(b: Bridge, elapsed: nat, i: nat)
    requires RootPortInRange(b) && i < |b.ports| && b.ports[i].state != Forwarding
    requires DelayPorts(b, elapsed, |b.ports|).ports[i].state == Forwarding
    ensures var u := DelayPorts(b, elapsed, i);
      u.ports[i].state == Learning && Expires(u.ports[i].forwardDelayTimer, elapsed, u.forwardDelay)
  {
    DelayPortsEffect(b, elapsed, |b.ports|, i);
    DelayPortsEffect(b, elapsed, i, i);
  }

  lemma DesignatedThen(b: Bridge, elapsed: nat, i: nat)
    requires RootPortInRange(b) && i < |b.ports| && DesignatedForSomePort(DelayPorts(b, elapsed, |b.ports|))
    ensures DesignatedForSomePort(DelayPorts(b, elapsed, i))
  {
    var t := DelayPorts(b, elapsed, |b.ports|);
    var j :| 0 <= j < |t.ports| && Enabled(t.ports[j]) && t.ports[j].designatedBridge == t.bridgeId;
    DelayedFrame(b, elapsed, i, j);
    DelayedFrame(b, elapsed, |b.ports|, j);
  }

  lemma NoticedIn(b: Bridge, elapsed: nat, i: nat)
    requires RootPortInRange(b) && i < |b.ports| && b.ports[i].changeDetection && b.ports[i].state != Forwarding
    requires DelayPorts(b, elapsed, |b.ports|).ports[i].state == Forwarding
    requires DesignatedForSomePort(DelayPorts(b, elapsed, |b.ports|))
    ensures DelayPorts(b, elapsed, |b.ports|).topologyChangeDetected
  {
    var u := DelayPorts(b, elapsed, i);
    LearningThen(b, elapsed, i);
    DelayedFrame(b, elapsed, i, i);
    DesignatedThen(b, elapsed, i);
    ExpiryDetects(u, elapsed, i);
    DetectedLater(b, elapsed, i + 1, |b.ports|);
  }

  /** A port with change detection that selection takes out of learning or forwarding is
      noticed. */
  lemma BlockingIsNoticed(s: Bridge, i: nat)
    requires i < |s.ports| && s.ports[i].changeDetection && (s.ports[i].state == Forwarding || s.ports[i].state == Learning)
    requires Reselect(s).ports[i].state == Blocking
    ensures Reselect(s).topologyChangeDetected
  {
    var u := ConfigurationUpdate(s);
    assert Reselect(s).ports[i] == SelectState(u, i);
    assert StopsForwarding(u, i);
  }
}

/** The root bridge says hello: its hello timer runs, and it goes by its own times, whenever
    it is root, and so it speaks within every hello time. */
module StpHello {
  import opened Wrappers
  import opened StpModel
  import opened StpSelection
  import opened StpInvariant
  import opened StpSteps
  import opened StpMessageAge
  import opened StpForwarding
  import opened StpSending
  import opened StpSettings

  /** The hello timer runs, and the bridge goes by its own times. */
  predicate RunsAsRoot(s: Bridge) {
    && s.helloTimer.active && s.maxAge == s.bridgeMaxAge && s.helloTime == s.bridgeHelloTime
    && s.forwardDelay == s.bridgeForwardDelay
  }

  predicate HelloRuns(s: Bridge) { IsRoot(s) ==> RunsAsRoot(s) }

  /** The same hello timer and times. */
  predicate SameTimes(s: Bridge, t: Bridge) {
    && t.bridgeId == s.bridgeId && t.helloTimer == s.helloTimer
    && t.helloTime == s.helloTime && t.maxAge == s.maxAge && t.forwardDelay == s.forwardDelay
    && t.bridgeHelloTime == s.bridgeHelloTime && t.bridgeMaxAge == s.bridgeMaxAge
    && t.bridgeForwardDelay == s.bridgeForwardDelay
  }

  lemma NoCandidates(s: Bridge)
    requires Ready(s) && forall j :: 0 <= j < |s.ports| ==> !Candidate(s.bridgeId, s.ports[j])
    ensures RootSelection(s).rootPort.None?
  {
    ReadyNumbered(s);
    BestRootSelects(s.bridgeId, s.ports, |s.ports|);
  }

  lemma SomeCandidate(s: Bridge, j: nat)
    requires Ready(s) && j < |s.ports| && Candidate(s.bridgeId, s.ports[j])
    ensures RootSelection(s).rootPort.Some? && RootSelection(s).designatedRoot < s.bridgeId
  {
    ReadyNumbered(s);
    BestRootSelects(s.bridgeId, s.ports, |s.ports|);
    assert j in Below(|s.ports|);
  }

  lemma RootHasNoCandidates(s: Bridge)
    requires Inv(s) && IsRoot(s)
    ensures forall j :: 0 <= j < |s.ports| ==> !Candidate(s.bridgeId, s.ports[j])
  {
    InvMeans(s);
    forall j | 0 <= j < |s.ports| ensures !Candidate(s.bridgeId, s.ports[j]) { assert j in Below(|s.ports|); }
  }

  lemma OtherHasCandidate(s: Bridge)
    requires Inv(s) && !IsRoot(s)
    ensures s.rootPort.Some? && Candidate(s.bridgeId, s.ports[s.rootPort.value])
  {
    InvMeans(s);
  }

  /** Reselection decides who is root by whether some port is a candidate. */
  lemma ReselectRoot(s: Bridge)
    requires Ready(s)
    ensures IsRoot(Reselect(s)) <==> forall j :: 0 <= j < |s.ports| ==> !Candidate(s.bridgeId, s.ports[j])
    ensures SameTimes(s, Reselect(s))
  {
    ReselectKeeps(s);
    if j :| 0 <= j < |s.ports| && Candidate(s.bridgeId, s.ports[j]) {
      SomeCandidate(s, j);
    } else {
      NoCandidates(s);
    }
  }

  lemma ReselectKeeps(s: Bridge)
    ensures SameTimes(s, Reselect(s)) && Reselect(s).designatedRoot == RootSelection(s).designatedRoot
  {
    SelectionKeeps(ConfigurationUpdate(s));
  }

  lemma SelectionKeeps(s: Bridge)
    ensures SameTimes(s, StateSelection(s)) && StateSelection(s).designatedRoot == s.designatedRoot
  {
  }

  lemma GenerationKeeps(s: Bridge)
    requires RootPortInRange(s)
    ensures OnlySent(s, ConfigGeneration(s))
  {
    GenerateExact(s, |s.ports|);
  }

  /** A bridge that has just become root starts its hello timer. */
  lemma BecomeRootHello(s: Bridge)
    requires RootPortInRange(s)
    ensures RunsAsRoot(BecomeRootBridge(s))
  {
    var b := TopologyChangeDetection(OwnTimes(s));
    GenerationKeeps(b.(tcnTimer := Stop(b.tcnTimer)));
  }

  lemma ReselectAsRootHello(s: Bridge, wasRoot: bool)
    requires Ready(s) && (wasRoot ==> RunsAsRoot(s))
    ensures HelloRuns(ReselectAsRoot(s, wasRoot))
  {
    ReselectRoot(s);
    BecomeRootHello(Reselect(s));
  }

  lemma AgePortHello(s: Bridge, elapsed: nat, i: nat)
    requires Inv(s) && i < |s.ports| && HelloRuns(s)
    ensures HelloRuns(AgePort(s, elapsed, i))
  {
    var p := s.ports[i];
    var u := s.(ports := s.ports[i := p.(messageAgeTimer := Charge(p.messageAgeTimer, elapsed, s.maxAge))]);
    if Enabled(p) && Expires(p.messageAgeTimer, elapsed, s.maxAge) {
      AgedOutReady(s, elapsed, i);
      ReselectAsRootHello(BecomeDesignated(u, i), IsRoot(u));
    }
  }

  ghost predicate SettledHello(s: Bridge) { Inv(s) && HelloRuns(s) }

  ghost predicate HelloUpTo(s: Bridge, elapsed: nat, n: nat)
    requires n <= |s.ports| && RootPortInRange(s)
  {
    SettledHello(AgePorts(s, elapsed, n))
  }

  lemma HelloOneMore(s: Bridge, elapsed: nat, n: nat)
    requires n < |s.ports| && RootPortInRange(s) && HelloUpTo(s, elapsed, n)
    ensures HelloUpTo(s, elapsed, n + 1)
  {
    var u := AgePorts(s, elapsed, n);
    AgePortInv(u, elapsed, n);
    AgePortHello(u, elapsed, n);
  }

  lemma {:induction false} AgePortsHello(s: Bridge, elapsed: nat, n: nat)
    requires SettledHello(s) && n <= |s.ports|
    ensures HelloUpTo(s, elapsed, n)
  {
    if n > 0 {
      AgePortsHello(s, elapsed, n - 1);
      HelloOneMore(s, elapsed, n - 1);
    }
  }

  lemma HelloTimerKeeps(s: Bridge, elapsed: nat)
    requires RootPortInRange(s)
    ensures
      var t := TickBridgeTimers(s, elapsed);
      SameTimes(s.(helloTimer := TickHello(s, elapsed).helloTimer), t) && t.designatedRoot == s.designatedRoot
  {
    var a := s.(helloTimer := Charge(s.helloTimer, elapsed, s.helloTime));
    GenerationKeeps(a);
    OthersKeep(TickHello(s, elapsed), elapsed);
  }

  lemma OthersKeep(s: Bridge, elapsed: nat)
    ensures
      var t := TickTopologyChange(TickTcn(s, elapsed), elapsed);
      SameTimes(s, t) && t.designatedRoot == s.designatedRoot
  {
    var a := TickTcn(s, elapsed);
    assert SameTimes(s, a) && a.designatedRoot == s.designatedRoot;
  }

  lemma DelayPortsKeep(s: Bridge, elapsed: nat, n: nat)
    requires n <= |s.ports| && RootPortInRange(s)
    ensures
      var t := DelayPorts(s, elapsed, n);
      SameTimes(s, t) && t.designatedRoot == s.designatedRoot
  {
    DelayPortsView(s, elapsed, n);
    DelayPortsSame(s, elapsed, n);
  }

  lemma TickHelloRuns(s: Bridge, elapsed: nat)
    requires SettledHello(s)
    ensures HelloRuns(Tick(s, elapsed))
  {
    if elapsed > 0 {
      var a := TickBridgeTimers(s, elapsed);
      TickBridgeTimersQuiet(s, elapsed);
      QuietInv(s, a);
      HelloTimerKeeps(s, elapsed);
      AgePortsHello(a, elapsed, |a.ports|);
      DelayPortsKeep(AgePorts(a, elapsed, |a.ports|), elapsed, |a.ports|);
    }
  }

  // ---------------------------------------------------------------- receiving

  lemma AcceptKeeps(s: Bridge, i: nat, c: Bpdu)
    requires i < |s.ports| && c.Config? && Ready(Record(s, i, c))
    ensures var a, t := Reselect(Record(s, i, c)), Accept(s, i, c);
      && (IsRoot(t) <==> IsRoot(a))
      && (IsRoot(a) ==> SameTimes(a, t)) && (!IsRoot(s) ==> t.helloTimer == a.helloTimer)
      && (IsRoot(s) && !IsRoot(a) ==> !t.helloTimer.active)
  {
    var a := Reselect(Record(s, i, c));
    var b := if !IsRoot(a) && IsRoot(s) then StepDown(a) else a;
    RootHasNoPort(Record(s, i, c));
    if b.rootPort == Some(i) { GenerationKeeps(RecordTimeouts(b, c)); }
  }

  lemma RootHasNoPort(s: Bridge)
    requires Ready(s)
    ensures IsRoot(Reselect(s)) ==> Reselect(s).rootPort.None?
  {
    ReselectSettles(s);
    InvMeans(Reselect(s));
  }

  /** Some port is a candidate for root port once `c` is recorded. */
  predicate LeavesCandidate(s: Bridge, i: nat, c: Bpdu)
    requires i < |s.ports| && c.Config?
  {
    var r := Record(s, i, c);
    exists j :: 0 <= j < |r.ports| && Candidate(r.bridgeId, r.ports[j])
  }

  /** A BPDU that is accepted leaves a root bridge without hellos, or with the times of
      another, if and only if it takes the last candidate for root port away from a bridge
      that does not run as root. */
  lemma AcceptHelloExact(s: Bridge, i: nat, c: Bpdu)
    requires SettledHello(s) && i < |s.ports| && Enabled(s.ports[i])
    requires c.Config? && c.messageAge < c.maxAge <= 0xffff && c.rootPathCost < COST_LIMIT
    requires SupersedesPortInfo(s, s.ports[i], c)
    ensures HelloRuns(ReceivedConfig(s, i, c)) <==> LeavesCandidate(s, i, c) || RunsAsRoot(s)
  {
    RecordReady(s, i, c);
    ReselectRoot(Record(s, i, c));
    AcceptKeeps(s, i, c);
  }

  /** Which only a BPDU of the bridge itself can do. */
  lemma OthersLeaveCandidate(s: Bridge, i: nat, c: Bpdu)
    requires Inv(s) && !IsRoot(s) && i < |s.ports| && c.Config? && c.bridgeId != s.bridgeId && Enabled(s.ports[i])
    requires SupersedesPortInfo(s, s.ports[i], c)
    ensures LeavesCandidate(s, i, c)
  {
    OtherHasCandidate(s);
    InvMeans(s);
    var r, o := Record(s, i, c), s.rootPort.value;
    assert Candidate(r.bridgeId, r.ports[o]);
  }

  lemma ReceivedConfigHello(s: Bridge, i: nat, c: Bpdu)
    requires SettledHello(s) && i < |s.ports|
    requires c.Config? && c.maxAge <= 0xffff && c.rootPathCost < COST_LIMIT && c.bridgeId != s.bridgeId
    ensures HelloRuns(ReceivedConfig(s, i, c))
  {
    if c.messageAge < c.maxAge && Enabled(s.ports[i]) {
      if SupersedesPortInfo(s, s.ports[i], c) {
        AcceptHelloExact(s, i, c);
        if !IsRoot(s) { OthersLeaveCandidate(s, i, c); }
      } else {
        TransmitOnlySent(s, i);
      }
    }
  }

  // ---------------------------------------------------------------- every run

  lemma PathCostHello(s: Bridge, i: nat, cost: nat)
    requires SettledHello(s) && i < |s.ports| && 1 <= cost < 0x1_0000
    ensures HelloRuns(PortSetPathCost(s, i, cost))
  {
    if cost != s.ports[i].pathCost {
      var u := s.(ports := s.ports[i := s.ports[i].(pathCost := cost)]);
      PathCostReady(s, i, cost);
      ReselectRoot(u);
      if !IsRoot(s) {
        OtherHasCandidate(s);
        assert Candidate(u.bridgeId, u.ports[s.rootPort.value]);
      }
    }
  }

  lemma EnableHello(s: Bridge, i: nat)
    requires RootPortInRange(s) && HelloRuns(s) && i < |s.ports|
    ensures HelloRuns(PortEnable(s, i))
  {
    SelectionKeeps(InitializePort(s, i, Blocking));
  }

  lemma DisableHello(s: Bridge, i: nat)
    requires SettledHello(s) && i < |s.ports|
    ensures HelloRuns(PortDisable(s, i))
  {
    if Enabled(s.ports[i]) {
      SwitchOffReady(s, i);
      ReselectAsRootHello(SwitchOff(s, i), IsRoot(s));
    }
  }

  lemma RenameHello(s: Bridge, id: nat)
    requires SettledHello(s)
    ensures HelloRuns(SetBridgeId(s, id))
  {
    if id != s.bridgeId {
      RenameReady(s, id);
      ReselectAsRootHello(Rename(s, id), IsRoot(s));
    }
  }

  lemma TcnHello(s: Bridge, i: nat)
    requires RootPortInRange(s) && HelloRuns(s) && i < |s.ports|
    ensures HelloRuns(ReceivedTcn(s, i))
  {
    var u := TopologyChangeDetection(s);
    TransmitOnlySent(u.(ports := u.ports[i := u.ports[i].(topologyChangeAck := true)]), i);
  }

  /** The event is not a config BPDU of the bridge itself come back. */
  predicate NotOwn(s: Bridge, e: Event) {
    e.EReceiveConfig? && e.config.Config? ==> e.config.bridgeId != s.bridgeId
  }

  lemma StepHello(s: Bridge, e: Event)
    requires SettledHello(s) && Legal(e) && NotOwn(s, e)
    ensures SettledHello(Step(s, e))
  {
    StepInv(s, e);
    match e
    case ETick(elapsed) => TickHelloRuns(s, elapsed);
    case ESetBridgeId(id) => RenameHello(s, id);
    case EReceiveConfig(i, c) => ReceivedConfigHello(s, i, c);
    case EReceiveTcn(i) => TcnHello(s, i);
    case EEnable(i) => EnableHello(s, i);
    case EDisable(i) => DisableHello(s, i);
    case ESetPathCost(i, cost) => PathCostHello(s, i, cost);
    case ESetChangeDetection(_, _) =>
    case _ => RequestHello(s, e);
  }

  lemma RequestHello(s: Bridge, e: Event)
    requires Shaped(s) && HelloRuns(s) && (e.ESetHelloTime? || e.ESetMaxAge? || e.ESetForwardDelay?)
    ensures HelloRuns(Step(s, e))
  {
  }

  /** After every run in which no BPDU of the bridge itself comes back to it, a bridge that is
      root has its hello timer running and goes by its own times. */
  lemma {:induction false} RootHasHello(bigEndian: bool, id: nat, es: seq<Event>, k: nat)
    requires AllLegal(es) && k <= |es|
    requires forall j :: 0 <= j < k ==> NotOwn(After(Create(bigEndian, id), es, j), es[j])
    ensures SettledHello(After(Create(bigEndian, id), es, k))
  {
    var s := Create(bigEndian, id);
    if k == 0 {
      CreateInv(bigEndian, id);
    } else {
      RootHasHello(bigEndian, id, es, k - 1);
      StepHello(After(s, es, k - 1), es[k - 1]);
      AfterStep(s, es, k - 1);
    }
  }

  // ---------------------------------------------------------------- within a hello time

  /** The same root bridge with the same times. */
  predicate RootAs(s: Bridge, t: Bridge) {
    SameTimes(s, t) && IsRoot(t)
  }

  lemma AgePortRoot(s: Bridge, elapsed: nat, i: nat)
    requires Inv(s) && IsRoot(s) && i < |s.ports|
    ensures RootAs(s, AgePort(s, elapsed, i))
  {
    var p := s.ports[i];
    var u := s.(ports := s.ports[i := p.(messageAgeTimer := Charge(p.messageAgeTimer, elapsed, s.maxAge))]);
    if Enabled(p) && Expires(p.messageAgeTimer, elapsed, s.maxAge) {
      var v := BecomeDesignated(u, i);
      AgedOutReady(s, elapsed, i);
      RootHasNoCandidates(s);
      assert forall j :: 0 <= j < |v.ports| ==> !Candidate(v.bridgeId, v.ports[j]);
      ReselectRoot(v);
      ReselectKeeps(v);
    }
  }

  ghost predicate RootUpTo(s: Bridge, elapsed: nat, n: nat)
    requires n <= |s.ports| && RootPortInRange(s)
  {
    Inv(AgePorts(s, elapsed, n)) && RootAs(s, AgePorts(s, elapsed, n))
  }

  lemma RootOneMore(s: Bridge, elapsed: nat, n: nat)
    requires n < |s.ports| && RootPortInRange(s) && RootUpTo(s, elapsed, n)
    ensures RootUpTo(s, elapsed, n + 1)
  {
    var u := AgePorts(s, elapsed, n);
    AgePortInv(u, elapsed, n);
    AgePortRoot(u, elapsed, n);
  }

  lemma {:induction false} AgePortsRoot(s: Bridge, elapsed: nat, n: nat)
    requires Inv(s) && IsRoot(s) && n <= |s.ports|
    ensures RootUpTo(s, elapsed, n)
  {
    if n > 0 {
      AgePortsRoot(s, elapsed, n - 1);
      RootOneMore(s, elapsed, n - 1);
    }
  }

  /** Time does not dethrone a root bridge or change its times. */
  lemma RootTick(s: Bridge, elapsed: nat)
    requires Inv(s) && IsRoot(s) && elapsed > 0
    ensures RootAs(s.(helloTimer := TickHello(s, elapsed).helloTimer), Tick(s, elapsed))
  {
    var a := TickBridgeTimers(s, elapsed);
    TickBridgeTimersQuiet(s, elapsed);
    QuietInv(s, a);
    HelloTimerKeeps(s, elapsed);
    AgePortsRoot(a, elapsed, |a.ports|);
    DelayPortsKeep(AgePorts(a, elapsed, |a.ports|), elapsed, |a.ports|);
  }

  /** Nothing but time passes. */
  predicate Ticks(es: seq<Event>) { forall k :: 0 <= k < |es| ==> es[k].ETick? && es[k].elapsed > 0 }

  /** In event `k` the bridge is root and its hello timer runs out. */
  ghost predicate HelloDue(s: Bridge, es: seq<Event>, k: nat)
    requires Shaped(s) && AllLegal(es) && k < |es|
  {
    var u := After(s, es, k);
    Inv(u) && IsRoot(u) && RootAs(s.(helloTimer := u.helloTimer), u)
    && Expires(u.helloTimer, Elapsed(es[k]), u.helloTime)
  }

  /** The hello timer after `k` events in which it has not run out. */
  ghost predicate NotDueYet(s: Bridge, es: seq<Event>, k: nat)
    requires Shaped(s) && AllLegal(es) && k <= |es|
  {
    var u := After(s, es, k);
    && Inv(u) && RootAs(s.(helloTimer := u.helloTimer), u)
    && u.helloTimer == Start(s.helloTimer.value + Passed(es, 0, k))
  }

  lemma NotDueOneMore(s: Bridge, es: seq<Event>, k: nat)
    requires Shaped(s) && AllLegal(es) && Ticks(es) && k < |es| && NotDueYet(s, es, k)
    ensures HelloDue(s, es, k) || NotDueYet(s, es, k + 1)
  {
    var u := After(s, es, k);
    AfterStep(s, es, k);
    StepInv(u, es[k]);
    RootTick(u, es[k].elapsed);
  }

  ghost predicate DueOrNotYet(s: Bridge, es: seq<Event>, n: nat)
    requires Shaped(s) && AllLegal(es) && n <= |es|
  {
    NotDueYet(s, es, n) || exists k :: 0 <= k < n && HelloDue(s, es, k)
  }

  lemma DueOneMore(s: Bridge, es: seq<Event>, n: nat)
    requires Shaped(s) && AllLegal(es) && Ticks(es) && n < |es| && DueOrNotYet(s, es, n)
    ensures DueOrNotYet(s, es, n + 1)
  {
    if NotDueYet(s, es, n) {
      NotDueOneMore(s, es, n);
    } else {
      var k :| 0 <= k < n && HelloDue(s, es, k);
      assert k < n + 1;
    }
  }

  lemma {:induction false} DueOrNot(s: Bridge, es: seq<Event>, n: nat)
    requires Inv(s) && IsRoot(s) && s.helloTimer.active && AllLegal(es) && Ticks(es) && n <= |es|
    ensures DueOrNotYet(s, es, n)
  {
    if n == 0 {
      assert NotDueYet(s, es, 0);
    } else {
      DueOrNot(s, es, n - 1);
      DueOneMore(s, es, n - 1);
    }
  }

  lemma PassedWhole(es: seq<Event>, n: nat)
    requires 0 < n <= |es|
    ensures Passed(es, 0, n) == Passed(es, 0, n - 1) + Elapsed(es[n - 1])
  {
  }

  /** A root bridge left alone for a hello time says hello in one of the ticks, on every
      enabled designated port that is then not under hold. */
  lemma RootSpeaks(s: Bridge, es: seq<Event>) returns (k: nat)
    requires Inv(s) && IsRoot(s) && s.helloTimer.active && s.maxAge > 0 && AllLegal(es) && Ticks(es) && es != []
    requires s.helloTimer.value + Passed(es, 0, |es|) >= s.helloTime
    ensures k < |es|
    ensures
      var u := After(s, es, k);
      && IsRoot(u) && u.bridgeId == s.bridgeId
      && forall i :: 0 <= i < |u.ports| && FreeToSend(u, i) ==>
           NewlySent(u, After(s, es, k + 1), Sent(i, HelloOn(u, i)))
  {
    k := FindDue(s, es);
    var u := After(s, es, k);
    AfterStep(s, es, k);
    forall i | 0 <= i < |u.ports| && FreeToSend(u, i)
      ensures NewlySent(u, After(s, es, k + 1), Sent(i, HelloOn(u, i)))
    {
      HelloIsSent(u, es[k].elapsed, i);
    }
  }

  lemma FindDue(s: Bridge, es: seq<Event>) returns (k: nat)
    requires Inv(s) && IsRoot(s) && s.helloTimer.active && AllLegal(es) && Ticks(es) && es != []
    requires s.helloTimer.value + Passed(es, 0, |es|) >= s.helloTime
    ensures k < |es| && HelloDue(s, es, k)
  {
    var n := |es|;
    DueOrNot(s, es, n - 1);
    PassedWhole(es, n);
    if NotDueYet(s, es, n - 1) {
      k := n - 1;
    } else {
      k :| 0 <= k < n - 1 && HelloDue(s, es, k);
    }
  }
}

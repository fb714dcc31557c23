/** Two results over whole runs: hearing another bridge never worsens the view of the root,
    and a port reaches forwarding only after two full forward delays. */
module StpForwarding {
  import opened Wrappers
  import opened StpModel
  import opened StpSelection
  import opened StpInvariant
  import opened StpSteps

  // ---------------------------------------------------------------- never worse

  /** (root, cost) is no worse than (root', cost'). */
  predicate NoWorse(root: nat, cost: nat, root': nat, cost': nat) {
    root < root' || (root == root' && cost <= cost')
  }

  /** The selected root port is no worse than any candidate. */
  lemma SelectionNoWorse(s: Bridge, q: nat)
    requires Ready(s) && q < |s.ports| && Candidate(s.bridgeId, s.ports[q])
    ensures
      var t := RootSelection(s);
      NoWorse(t.designatedRoot, t.rootPathCost,
              s.ports[q].designatedRoot, s.ports[q].designatedCost + s.ports[q].pathCost)
  {
    ReadyNumbered(s);
    BestRootSelects(s.bridgeId, s.ports, |s.ports|);
    assert q in Below(|s.ports|);
    var r := RootSelection(s).rootPort;
    if r != Some(q) {
      assert SupersedesRoot(s.ports[q], s.ports[r.value]);
    }
  }

  /** Recording a BPDU of another bridge keeps a candidate at least as good as the old root. */
  lemma RecordNoWorse(s: Bridge, i: nat, c: Bpdu)
    requires Inv(s) && i < |s.ports| && Enabled(s.ports[i])
    requires c.Config? && c.messageAge < c.maxAge <= 0xffff && c.rootPathCost < COST_LIMIT
    requires SupersedesPortInfo(s, s.ports[i], c) && c.bridgeId != s.bridgeId
    ensures
      var t := RootSelection(Record(s, i, c));
      NoWorse(t.designatedRoot, t.rootPathCost, s.designatedRoot, s.rootPathCost)
  {
    InvMeans(s);
    RecordReady(s, i, c);
    match s.rootPort
    case None =>
      ReadyNumbered(Record(s, i, c));
      BestRootSelects(s.bridgeId, Record(s, i, c).ports, |s.ports|);
    case Some(o) =>
      SelectionNoWorse(Record(s, i, c), o);
  }

  /** The view of the root after a BPDU is accepted is the one root selection forms. */
  lemma AcceptView(s: Bridge, i: nat, c: Bpdu)
    requires i < |s.ports| && c.Config? && c.maxAge <= 0xffff && s.bridgeMaxAge <= 0xffff
    ensures
      var t, r := Accept(s, i, c), RootSelection(Record(s, i, c));
      t.designatedRoot == r.designatedRoot && t.rootPathCost == r.rootPathCost
  {
    var a := Reselect(Record(s, i, c));
    ReselectView(Record(s, i, c));
    RelayQuiet(if !IsRoot(a) && IsRoot(s) then StepDown(a) else a, c);
  }

  lemma ReselectView(s: Bridge)
    ensures
      var t, r := Reselect(s), RootSelection(s);
      && t.designatedRoot == r.designatedRoot && t.rootPathCost == r.rootPathCost
      && t.bridgeId == s.bridgeId && t.bridgeMaxAge == s.bridgeMaxAge
  {
  }

  /** Receiving a config BPDU sent by another bridge never makes this bridge's view of the
      root worse. */
  lemma HearingNeverWorsens(s: Bridge, i: nat, c: Bpdu)
    requires Inv(s) && i < |s.ports|
    requires c.Config? && c.maxAge <= 0xffff && c.rootPathCost < COST_LIMIT
    requires c.bridgeId != s.bridgeId
    ensures
      var t := ReceivedConfig(s, i, c);
      NoWorse(t.designatedRoot, t.rootPathCost, s.designatedRoot, s.rootPathCost)
  {
    if c.messageAge < c.maxAge && Enabled(s.ports[i]) && SupersedesPortInfo(s, s.ports[i], c) {
      RecordNoWorse(s, i, c);
      AcceptView(s, i, c);
    }
  }

  // ---------------------------------------------------------------- states within one step

  /** The port keeps its state and forward delay timer, or is thrown back: disabled,
      blocked, or listening with a new timer. */
  predicate HeldBack(p: Port, q: Port) {
    || (q.state == p.state && q.forwardDelayTimer == p.forwardDelayTimer)
    || q.state == Blocking || q.state == Disabled
    || (q.state == Listening && q.forwardDelayTimer.value == 0)
  }

  predicate AllHeldBack(s: Bridge, t: Bridge) {
    |t.ports| == |s.ports| && forall i :: 0 <= i < |s.ports| ==> PortHeldBack(s, t, i)
  }

  predicate PortHeldBack(s: Bridge, t: Bridge, i: nat)
    requires i < |s.ports| && i < |t.ports|
  {
    HeldBack(s.ports[i], t.ports[i])
  }

  lemma HeldBackTransitive(s: Bridge, t: Bridge, u: Bridge)
    requires AllHeldBack(s, t) && AllHeldBack(t, u)
    ensures AllHeldBack(s, u)
  {
    forall i | 0 <= i < |s.ports| ensures PortHeldBack(s, u, i) {
      assert PortHeldBack(s, t, i) && PortHeldBack(t, u, i);
    }
  }

  lemma QuietHeldBack(s: Bridge, t: Bridge)
    requires Quiet(s, t)
    ensures AllHeldBack(s, t)
  {
    forall i | 0 <= i < |s.ports| ensures PortHeldBack(s, t, i) {
      assert QuietPort(s.bridgeId, s.ports[i], t.ports[i]);
    }
  }

  lemma StateSelectionHeldBack(s: Bridge)
    ensures AllHeldBack(s, StateSelection(s))
  {
    var t := StateSelection(s);
    forall i | 0 <= i < |s.ports| ensures PortHeldBack(s, t, i) {
      assert t.ports[i] == SelectState(s, i);
    }
  }

  lemma ReselectHeldBack(s: Bridge)
    ensures AllHeldBack(s, Reselect(s))
  {
    var a := ConfigurationUpdate(s);
    assert AllHeldBack(s, a);
    StateSelectionHeldBack(a);
    HeldBackTransitive(s, a, Reselect(s));
  }

  lemma ReselectAsRootHeldBack(s: Bridge, wasRoot: bool)
    requires Ready(s)
    ensures AllHeldBack(s, ReselectAsRoot(s, wasRoot))
  {
    ReselectHeldBack(s);
    ReselectSettles(s);
    var u := Reselect(s);
    if IsRoot(u) && !wasRoot {
      BecomeRootQuiet(u);
      QuietHeldBack(u, BecomeRootBridge(u));
      HeldBackTransitive(s, u, BecomeRootBridge(u));
    }
  }

  lemma SamePortsHeldBack(s: Bridge, t: Bridge)
    requires t.ports == s.ports
    ensures AllHeldBack(s, t)
  {
  }

  lemma RelayHeldBack(s: Bridge, c: Bpdu)
    requires c.Config? && c.maxAge <= 0xffff && s.bridgeMaxAge <= 0xffff && RootPortInRange(s)
    ensures AllHeldBack(s, Relay(s, c))
  {
    var d := ConfigGeneration(RecordTimeouts(s, c));
    RelayQuiet(s, c);
    QuietHeldBack(s, d);
    SamePortsHeldBack(d, Relay(s, c));
    HeldBackTransitive(s, d, Relay(s, c));
  }

  lemma AcceptHeldBack(s: Bridge, i: nat, c: Bpdu)
    requires Inv(s) && i < |s.ports| && Enabled(s.ports[i])
    requires c.Config? && c.messageAge < c.maxAge <= 0xffff && c.rootPathCost < COST_LIMIT
    ensures AllHeldBack(s, Accept(s, i, c))
  {
    var r := Record(s, i, c);
    var a := Reselect(r);
    RewrittenHeldBack(s, i, r.ports[i]);
    ReselectHeldBack(r);
    HeldBackTransitive(s, r, a);
    var b := if !IsRoot(a) && IsRoot(s) then StepDown(a) else a;
    SamePortsHeldBack(a, b);
    HeldBackTransitive(s, a, b);
    if b.rootPort == Some(i) {
      ReselectView(r);
      RelayHeldBack(b, c);
      HeldBackTransitive(s, b, Relay(b, c));
    }
  }

  lemma TransmitHeldBack(s: Bridge, i: nat)
    requires i < |s.ports| && RootPortInRange(s)
    ensures AllHeldBack(s, TransmitConfig(s, i)) && AllHeldBack(s, s)
  {
  }

  lemma ReceivedConfigHeldBack(s: Bridge, i: nat, c: Bpdu)
    requires Inv(s) && i < |s.ports|
    requires c.Config? && c.maxAge <= 0xffff && c.rootPathCost < COST_LIMIT
    ensures AllHeldBack(s, ReceivedConfig(s, i, c))
  {
    if c.messageAge < c.maxAge && Enabled(s.ports[i]) {
      if SupersedesPortInfo(s, s.ports[i], c) {
        AcceptHeldBack(s, i, c);
      } else {
        TransmitHeldBack(s, i);
      }
    }
  }

  lemma AgePortHeldBack(s: Bridge, elapsed: nat, i: nat)
    requires Inv(s) && i < |s.ports|
    ensures AllHeldBack(s, AgePort(s, elapsed, i))
  {
    var p := s.ports[i];
    var u := s.(ports := s.ports[i := p.(messageAgeTimer := Charge(p.messageAgeTimer, elapsed, s.maxAge))]);
    if Enabled(p) && Expires(p.messageAgeTimer, elapsed, s.maxAge) {
      var v := BecomeDesignated(u, i);
      assert AllHeldBack(s, v);
      AgedOutReady(s, elapsed, i);
      ReselectAsRootHeldBack(v, IsRoot(u));
      HeldBackTransitive(s, v, MessageAgeExpiry(u, i));
    }
  }

  /** Aging has brought `s` to `u`. */
  ghost predicate AgedTo(s: Bridge, u: Bridge) { AllHeldBack(s, u) && Inv(u) }

  lemma AgeOneMore(s: Bridge, u: Bridge, elapsed: nat, n: nat)
    requires AgedTo(s, u) && n < |u.ports|
    ensures AgedTo(s, AgePort(u, elapsed, n))
  {
    AgePortHeldBack(u, elapsed, n);
    AgePortInv(u, elapsed, n);
    HeldBackTransitive(s, u, AgePort(u, elapsed, n));
  }

  lemma {:induction false} AgePortsHeldBack(s: Bridge, elapsed: nat, n: nat)
    requires Inv(s) && n <= |s.ports|
    ensures AgedTo(s, AgePorts(s, elapsed, n))
  {
    if n > 0 {
      AgePortsHeldBack(s, elapsed, n - 1);
      AgeOneMore(s, AgePorts(s, elapsed, n - 1), elapsed, n - 1);
    }
  }

  /** Ports other than those a management operation rewrites are untouched by it. */
  lemma RewrittenHeldBack(s: Bridge, i: nat, q: Port)
    requires i < |s.ports| && HeldBack(s.ports[i], q)
    ensures AllHeldBack(s, s.(ports := s.ports[i := q]))
  {
  }

  lemma RenameHeldBack(s: Bridge, id: nat)
    ensures AllHeldBack(s, Rename(s, id))
  {
  }

  lemma SetBridgeIdHeldBack(s: Bridge, id: nat)
    requires Inv(s)
    ensures AllHeldBack(s, SetBridgeId(s, id))
  {
    if id == s.bridgeId {
      SamePortsHeldBack(s, s);
    } else {
      var r := Rename(s, id);
      RenameHeldBack(s, id);
      RenameReady(s, id);
      ReselectAsRootHeldBack(r, IsRoot(s));
      HeldBackTransitive(s, r, ReselectAsRoot(r, IsRoot(s)));
    }
  }

  lemma EnableHeldBack(s: Bridge, i: nat)
    requires i < |s.ports| && RootPortInRange(s)
    ensures AllHeldBack(s, PortEnable(s, i))
  {
    if !Enabled(s.ports[i]) {
      var u := InitializePort(s, i, Blocking);
      RewrittenHeldBack(s, i, u.ports[i]);
      StateSelectionHeldBack(u);
      HeldBackTransitive(s, u, StateSelection(u));
    }
  }

  lemma DisableHeldBack(s: Bridge, i: nat)
    requires Inv(s) && i < |s.ports|
    ensures AllHeldBack(s, PortDisable(s, i))
  {
    if Enabled(s.ports[i]) {
      var u := SwitchOff(s, i);
      SwitchOffReady(s, i);
      RewrittenHeldBack(s, i, u.ports[i]);
      ReselectAsRootHeldBack(u, IsRoot(s));
      HeldBackTransitive(s, u, ReselectAsRoot(u, IsRoot(s)));
    }
  }

  lemma PathCostHeldBack(s: Bridge, i: nat, cost: nat)
    requires i < |s.ports| && RootPortInRange(s)
    ensures AllHeldBack(s, PortSetPathCost(s, i, cost))
  {
    var u := s.(ports := s.ports[i := s.ports[i].(pathCost := cost)]);
    RewrittenHeldBack(s, i, u.ports[i]);
    ReselectHeldBack(u);
    HeldBackTransitive(s, u, Reselect(u));
  }

  lemma ReceivedTcnHeldBack(s: Bridge, i: nat)
    requires i < |s.ports| && RootPortInRange(s)
    ensures AllHeldBack(s, ReceivedTcn(s, i))
  {
  }

  /** Every operation but the passing of time only holds ports back. */
  lemma OtherStepsHoldBack(s: Bridge, e: Event)
    requires Inv(s) && Legal(e) && !e.ETick?
    ensures AllHeldBack(s, Step(s, e))
  {
    match e
    case ESetBridgeId(id) => SetBridgeIdHeldBack(s, id);
    case EReceiveConfig(i, c) => ReceivedConfigHeldBack(s, i, c);
    case EReceiveTcn(i) => ReceivedTcnHeldBack(s, i);
    case EEnable(i) => EnableHeldBack(s, i);
    case EDisable(i) => DisableHeldBack(s, i);
    case ESetPathCost(i, cost) => PathCostHeldBack(s, i, cost);
    case ESetChangeDetection(i, on) => RewrittenHeldBack(s, i, s.ports[i].(changeDetection := on));
    case _ =>
  }

  // ---------------------------------------------------------------- the forward delay timers

  /** The part of a port the forward delay moves. */
  predicate DelayedAs(p: Port, q: Port) { q.state == p.state && q.forwardDelayTimer == p.forwardDelayTimer }

  function DelayIfEnabled(p: Port, elapsed: nat, forwardDelay: nat): Port {
    if Enabled(p) then DelayedPort(p, elapsed, forwardDelay) else p
  }

  lemma ForwardDelayEffect(s: Bridge, elapsed: nat, i: nat)
    requires i < |s.ports|
    ensures
      var t := ChargeForwardDelay(s, elapsed, i);
      && t.forwardDelay == s.forwardDelay
      && t.ports == s.ports[i := DelayedPort(s.ports[i], elapsed, s.forwardDelay)]
  {
    var t := ChargeForwardDelay(s, elapsed, i);
    assert t.ports[i] == DelayedPort(s.ports[i], elapsed, s.forwardDelay);
  }

  lemma ChargeHoldEffect(s: Bridge, elapsed: nat, i: nat)
    requires i < |s.ports| && RootPortInRange(s)
    ensures
      var t := ChargeHold(s, elapsed, i);
      && t.forwardDelay == s.forwardDelay
      && forall j :: 0 <= j < |s.ports| ==> DelayedAs(s.ports[j], t.ports[j])
  {
  }

  lemma DelayPortEffect(s: Bridge, elapsed: nat, i: nat, j: nat)
    requires i < |s.ports| && j < |s.ports| && RootPortInRange(s)
    ensures
      var t := DelayPort(s, elapsed, i);
      && t.forwardDelay == s.forwardDelay
      && DelayedAs(if j == i then DelayIfEnabled(s.ports[j], elapsed, s.forwardDelay) else s.ports[j], t.ports[j])
  {
    if Enabled(s.ports[i]) {
      ForwardDelayEffect(s, elapsed, i);
      ChargeHoldEffect(ChargeForwardDelay(s, elapsed, i), elapsed, i);
    }
  }

  /** What charging the forward delay timers of ports up to `n` does to port `j`. */
  predicate DelayedUpTo(s: Bridge, elapsed: nat, n: nat, j: nat)
    requires n <= |s.ports| && j < |s.ports| && RootPortInRange(s)
  {
    var t := DelayPorts(s, elapsed, n);
    && t.forwardDelay == s.forwardDelay
    && DelayedAs(if j < n then DelayIfEnabled(s.ports[j], elapsed, s.forwardDelay) else s.ports[j], t.ports[j])
  }

  lemma DelayOneMore(s: Bridge, elapsed: nat, n: nat, j: nat)
    requires n < |s.ports| && j < |s.ports| && RootPortInRange(s) && DelayedUpTo(s, elapsed, n, j)
    ensures DelayedUpTo(s, elapsed, n + 1, j)
  {
    DelayPortEffect(DelayPorts(s, elapsed, n), elapsed, n, j);
  }

  lemma {:induction false} DelayPortsEffect(s: Bridge, elapsed: nat, n: nat, j: nat)
    requires n <= |s.ports| && j < |s.ports| && RootPortInRange(s)
    ensures DelayedUpTo(s, elapsed, n, j)
  {
    if n > 0 {
      DelayPortsEffect(s, elapsed, n - 1, j);
      DelayOneMore(s, elapsed, n - 1, j);
    }
  }

  function Elapsed(e: Event): nat { if e.ETick? then e.elapsed else 0 }

  /** How long the port has been in its state at most, counted from the state before. */
  function Charged(p: Port, state: PortState): nat {
    if p.state == state then p.forwardDelayTimer.value else 0
  }

  /** How one operation may move a port: into forwarding only from learning, into learning
      only when its timer has been charged a full forward delay. */
  predicate MovesOn(p: Port, e: Event, q: Port, forwardDelay: nat) {
    && (q.state == Forwarding && p.state != Forwarding ==>
          e.ETick? && p.state == Learning && p.forwardDelayTimer.value + Elapsed(e) >= forwardDelay)
    && (q.state == Learning ==>
          || (p.state == Learning && q.forwardDelayTimer.value <= p.forwardDelayTimer.value + Elapsed(e))
          || (e.ETick? && q.forwardDelayTimer.value == 0 && Charged(p, Listening) + Elapsed(e) >= forwardDelay))
    && (q.state == Listening ==> q.forwardDelayTimer.value <= Charged(p, Listening) + Elapsed(e))
  }

  /** The part of a tick before the forward delay timers. */
  lemma AgedBeforeDelay(s: Bridge, elapsed: nat)
    requires Inv(s)
    ensures
      var b := AgePorts(TickBridgeTimers(s, elapsed), elapsed, |s.ports|);
      AllHeldBack(s, b) && Inv(b)
  {
    var a := TickBridgeTimers(s, elapsed);
    TickBridgeTimersQuiet(s, elapsed);
    QuietInv(s, a);
    QuietHeldBack(s, a);
    AgePortsHeldBack(a, elapsed, |a.ports|);
    HeldBackTransitive(s, a, AgePorts(a, elapsed, |a.ports|));
  }

  lemma TickMovesOn(s: Bridge, elapsed: nat, i: nat)
    requires Inv(s) && i < |s.ports| && elapsed > 0
    ensures MovesOn(s.ports[i], ETick(elapsed), Tick(s, elapsed).ports[i], Tick(s, elapsed).forwardDelay)
  {
    var b := AgePorts(TickBridgeTimers(s, elapsed), elapsed, |s.ports|);
    AgedBeforeDelay(s, elapsed);
    assert PortHeldBack(s, b, i);
    DelayPortsEffect(b, elapsed, |b.ports|, i);
    DelayMovesOn(s.ports[i], b, elapsed, i, DelayPorts(b, elapsed, |b.ports|));
  }

  lemma DelayMovesOn(p: Port, b: Bridge, elapsed: nat, i: nat, t: Bridge)
    requires Inv(b) && i < |b.ports| && i < |t.ports| && HeldBack(p, b.ports[i])
    requires t.forwardDelay == b.forwardDelay
    requires DelayedAs(DelayIfEnabled(b.ports[i], elapsed, b.forwardDelay), t.ports[i])
    ensures MovesOn(p, ETick(elapsed), t.ports[i], t.forwardDelay)
  {
    assert PortReady(b, i);
  }

  lemma StepMovesOn(s: Bridge, e: Event, i: nat)
    requires Inv(s) && Legal(e) && i < |s.ports|
    ensures MovesOn(s.ports[i], e, Step(s, e).ports[i], Step(s, e).forwardDelay)
  {
    var t := Step(s, e);
    if e.ETick? {
      if e.elapsed > 0 {
        TickMovesOn(s, e.elapsed, i);
      }
    } else {
      OtherStepsHoldBack(s, e);
      assert PortHeldBack(s, t, i);
    }
  }

  // ---------------------------------------------------------------- from blocking to forwarding

  /** Ticks that pass in events `from` up to `to`. */
  function Passed(es: seq<Event>, from: nat, to: nat): nat
    requires from <= to <= |es|
  {
    if from == to then 0 else Passed(es, from, to - 1) + Elapsed(es[to - 1])
  }

  predicate AllLegal(es: seq<Event>) { forall k :: 0 <= k < |es| ==> Legal(es[k]) }

  /** The bridge after the first `k` events. */
  function After(s: Bridge, es: seq<Event>, k: nat): (t: Bridge)
    requires Shaped(s) && AllLegal(es) && k <= |es|
    ensures Shaped(t)
  {
    Run(s, es[..k])
  }

  lemma AfterStep(s: Bridge, es: seq<Event>, k: nat)
    requires Shaped(s) && AllLegal(es) && k < |es|
    ensures After(s, es, k + 1) == Step(After(s, es, k), es[k])
  {
    assert es[..k + 1][..k] == es[..k];
  }

  /** Root port or designated, and enabled. */
  predicate HasRole(t: Bridge, port: nat)
    requires port < |t.ports|
  {
    Enabled(t.ports[port]) && (t.rootPort == Some(port) || IsDesignated(t.bridgeId, t.ports[port]))
  }

  /** After each of `from` up to `to` events the port is in the state and has its role. */
  predicate Stays(s: Bridge, es: seq<Event>, port: nat, state: PortState, from: nat, to: nat)
    requires Shaped(s) && AllLegal(es) && port < MAX_PORTS && to <= |es|
  {
    forall k :: from <= k <= to ==> After(s, es, k).ports[port].state == state && HasRole(After(s, es, k), port)
  }

  /** Listening since event `l`, the port has done so for a full forward delay in the tick of
      event `a`. When `l` is `a`, it starts to listen in that very tick. */
  predicate ListensOut(s: Bridge, es: seq<Event>, port: nat, l: nat, a: nat)
    requires Shaped(s) && AllLegal(es) && port < MAX_PORTS && l <= a < |es|
  {
    && Stays(s, es, port, Listening, l + 1, a)
    && es[a].ETick? && Passed(es, l, a + 1) >= After(s, es, a + 1).forwardDelay
  }

  /** Learning since event `a`, the port has done so for a full forward delay in the tick of
      event `b`. */
  predicate LearnsOut(s: Bridge, es: seq<Event>, port: nat, a: nat, b: nat)
    requires Shaped(s) && AllLegal(es) && port < MAX_PORTS && a < b < |es|
  {
    && Stays(s, es, port, Learning, a + 1, b)
    && es[b].ETick? && Passed(es, a + 1, b + 1) >= After(s, es, b + 1).forwardDelay
  }

  /** The port listens since event `l`, for at least as long as its timer says. */
  predicate Listens(s: Bridge, es: seq<Event>, port: nat, k: nat, l: nat)
    requires Shaped(s) && AllLegal(es) && port < MAX_PORTS && k <= |es|
  {
    && l < k && Stays(s, es, port, Listening, l + 1, k)
    && After(s, es, k).ports[port].forwardDelayTimer.value <= Passed(es, l, k)
  }

  /** Having listened, the port learns since event `a`, for at least as long as its timer says. */
  predicate Learns(s: Bridge, es: seq<Event>, port: nat, k: nat, l: nat, a: nat)
    requires Shaped(s) && AllLegal(es) && port < MAX_PORTS && k <= |es|
  {
    && l <= a < k && ListensOut(s, es, port, l, a) && Stays(s, es, port, Learning, a + 1, k)
    && After(s, es, k).ports[port].forwardDelayTimer.value <= Passed(es, a + 1, k)
  }

  /** Having listened and learned, the port forwards since event `b`. */
  predicate Forwards(s: Bridge, es: seq<Event>, port: nat, k: nat, l: nat, a: nat, b: nat)
    requires Shaped(s) && AllLegal(es) && port < MAX_PORTS && k <= |es|
  {
    && l <= a < b < k && ListensOut(s, es, port, l, a) && LearnsOut(s, es, port, a, b)
    && Stays(s, es, port, Forwarding, b + 1, k)
  }

  /** What the state of the port after `k` events says about the events so far. */
  ghost predicate Accounted(s: Bridge, es: seq<Event>, port: nat, k: nat)
    requires Shaped(s) && AllLegal(es) && port < MAX_PORTS && k <= |es|
  {
    match After(s, es, k).ports[port].state
    case Listening => exists l: nat :: Listens(s, es, port, k, l)
    case Learning => exists l: nat, a: nat :: Learns(s, es, port, k, l, a)
    case Forwarding => exists l: nat, a: nat, b: nat :: Forwards(s, es, port, k, l, a, b)
    case _ => true
  }

  lemma ActiveHasRole(t: Bridge, port: nat)
    requires Inv(t) && port < |t.ports| && t.ports[port].state != Blocking && Enabled(t.ports[port])
    ensures HasRole(t, port)
  {
    InvMeans(t);
  }

  lemma AfterInv(s: Bridge, es: seq<Event>, k: nat)
    requires Inv(s) && AllLegal(es) && k <= |es|
    ensures Inv(After(s, es, k))
  {
    RunInv(s, es[..k]);
  }

  lemma StaysOneMore(s: Bridge, es: seq<Event>, port: nat, state: PortState, from: nat, k: nat)
    requires Shaped(s) && AllLegal(es) && port < MAX_PORTS && k < |es|
    requires Stays(s, es, port, state, from, k)
    requires After(s, es, k + 1).ports[port].state == state && HasRole(After(s, es, k + 1), port)
    ensures Stays(s, es, port, state, from, k + 1)
  {
  }

  /** The step after event `k`, seen from one port. */
  lemma PortStep(s: Bridge, es: seq<Event>, port: nat, k: nat)
    requires Inv(s) && AllLegal(es) && port < MAX_PORTS && k < |es|
    ensures
      var u, t := After(s, es, k), After(s, es, k + 1);
      && MovesOn(u.ports[port], es[k], t.ports[port], t.forwardDelay)
      && (Enabled(t.ports[port]) && t.ports[port].state != Blocking ==> HasRole(t, port))
  {
    AfterInv(s, es, k);
    AfterInv(s, es, k + 1);
    AfterStep(s, es, k);
    StepMovesOn(After(s, es, k), es[k], port);
    var t := After(s, es, k + 1);
    if Enabled(t.ports[port]) && t.ports[port].state != Blocking {
      ActiveHasRole(t, port);
    }
  }

  /** The step of event `k` as `PortStep` gives it, into a state that is neither blocking nor
      disabled. */
  predicate Moved(s: Bridge, es: seq<Event>, port: nat, k: nat)
    requires Shaped(s) && AllLegal(es) && port < MAX_PORTS && k < |es|
  {
    var u, t := After(s, es, k), After(s, es, k + 1);
    MovesOn(u.ports[port], es[k], t.ports[port], t.forwardDelay) && HasRole(t, port)
  }

  lemma NowListens(s: Bridge, es: seq<Event>, port: nat, k: nat)
    requires Shaped(s) && AllLegal(es) && port < MAX_PORTS && k < |es| && Moved(s, es, port, k)
    requires Accounted(s, es, port, k) && After(s, es, k + 1).ports[port].state == Listening
    ensures Accounted(s, es, port, k + 1)
  {
    if After(s, es, k).ports[port].state == Listening {
      var l: nat :| Listens(s, es, port, k, l);
      StaysOneMore(s, es, port, Listening, l + 1, k);
      assert Listens(s, es, port, k + 1, l);
    } else {
      assert Listens(s, es, port, k + 1, k);
    }
  }

  /** A port that comes to learn has listened since some event. */
  lemma StartsLearning(s: Bridge, es: seq<Event>, port: nat, k: nat) returns (l: nat)
    requires Shaped(s) && AllLegal(es) && port < MAX_PORTS && k < |es| && Accounted(s, es, port, k)
    requires es[k].ETick?
    requires Charged(After(s, es, k).ports[port], Listening) + Elapsed(es[k]) >= After(s, es, k + 1).forwardDelay
    ensures l <= k && ListensOut(s, es, port, l, k)
  {
    if After(s, es, k).ports[port].state == Listening {
      l :| Listens(s, es, port, k, l);
    } else {
      l := k;
    }
  }

  lemma LearnsOn(s: Bridge, es: seq<Event>, port: nat, k: nat, l: nat, a: nat)
    requires Shaped(s) && AllLegal(es) && port < MAX_PORTS && k < |es| && Learns(s, es, port, k, l, a)
    requires After(s, es, k + 1).ports[port].state == Learning && HasRole(After(s, es, k + 1), port)
    requires After(s, es, k + 1).ports[port].forwardDelayTimer.value
          <= After(s, es, k).ports[port].forwardDelayTimer.value + Elapsed(es[k])
    ensures Learns(s, es, port, k + 1, l, a)
  {
    StaysOneMore(s, es, port, Learning, a + 1, k);
  }

  lemma NowLearns(s: Bridge, es: seq<Event>, port: nat, k: nat)
    requires Shaped(s) && AllLegal(es) && port < MAX_PORTS && k < |es| && Moved(s, es, port, k)
    requires Accounted(s, es, port, k) && After(s, es, k + 1).ports[port].state == Learning
    ensures Accounted(s, es, port, k + 1)
  {
    var p, q := After(s, es, k).ports[port], After(s, es, k + 1).ports[port];
    if p.state == Learning && q.forwardDelayTimer.value <= p.forwardDelayTimer.value + Elapsed(es[k]) {
      var l: nat, a: nat :| Learns(s, es, port, k, l, a);
      LearnsOn(s, es, port, k, l, a);
    } else {
      var l := StartsLearning(s, es, port, k);
      assert Learns(s, es, port, k + 1, l, k);
    }
  }

  lemma NowForwards(s: Bridge, es: seq<Event>, port: nat, k: nat)
    requires Shaped(s) && AllLegal(es) && port < MAX_PORTS && k < |es| && Moved(s, es, port, k)
    requires Accounted(s, es, port, k) && After(s, es, k + 1).ports[port].state == Forwarding
    ensures Accounted(s, es, port, k + 1)
  {
    if After(s, es, k).ports[port].state == Forwarding {
      var l: nat, a: nat, b: nat :| Forwards(s, es, port, k, l, a, b);
      StaysOneMore(s, es, port, Forwarding, b + 1, k);
      assert Forwards(s, es, port, k + 1, l, a, b);
    } else {
      var l: nat, a: nat :| Learns(s, es, port, k, l, a);
      assert LearnsOut(s, es, port, a, k);
      assert Forwards(s, es, port, k + 1, l, a, k);
    }
  }

  lemma AccountStep(s: Bridge, es: seq<Event>, port: nat, k: nat)
    requires Inv(s) && AllLegal(es) && port < MAX_PORTS && k < |es|
    requires Accounted(s, es, port, k)
    ensures Accounted(s, es, port, k + 1)
  {
    PortStep(s, es, port, k);
    match After(s, es, k + 1).ports[port].state
    case Listening => NowListens(s, es, port, k);
    case Learning => NowLearns(s, es, port, k);
    case Forwarding => NowForwards(s, es, port, k);
    case _ =>
  }

  lemma {:induction false} AccountRun(s: Bridge, es: seq<Event>, port: nat, k: nat)
    requires Inv(s) && AllLegal(es) && port < MAX_PORTS && k <= |es|
    requires s.ports[port].state == Blocking || s.ports[port].state == Disabled
    ensures Accounted(s, es, port, k)
  {
    if k > 0 {
      AccountRun(s, es, port, k - 1);
      AccountStep(s, es, port, k - 1);
    }
  }

  /** A port that is blocking or disabled and, after some events, forwarding has been in its
      role without a break since it last came to listen: it listened for a full forward delay,
      then learned for a full forward delay, and has forwarded ever since. */
  lemma TwoForwardDelays(s: Bridge, es: seq<Event>, port: nat) returns (l: nat, a: nat, b: nat)
    requires Inv(s) && AllLegal(es) && port < MAX_PORTS
    requires s.ports[port].state == Blocking || s.ports[port].state == Disabled
    requires Run(s, es).ports[port].state == Forwarding
    ensures l <= a < b < |es|
    ensures Stays(s, es, port, Listening, l + 1, a) && Passed(es, l, a + 1) >= After(s, es, a + 1).forwardDelay
    ensures Stays(s, es, port, Learning, a + 1, b) && Passed(es, a + 1, b + 1) >= After(s, es, b + 1).forwardDelay
    ensures Stays(s, es, port, Forwarding, b + 1, |es|)
    ensures es[a].ETick? && es[b].ETick?
  {
    assert es[..|es|] == es;
    AccountRun(s, es, port, |es|);
    l, a, b :| Forwards(s, es, port, |es|, l, a, b);
  }
}

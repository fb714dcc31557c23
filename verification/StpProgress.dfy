/** What time does: information ages tick by tick and goes when it is too old, and a port
    that keeps its role moves on to forwarding. */
module StpProgress {
  import opened Wrappers
  import opened StpModel
  import opened StpSelection
  import opened StpInvariant
  import opened StpSteps
  import opened StpMessageAge
  import opened StpForwarding
  import opened StpSending
  import opened StpSettings
  import opened StpHello

  // ---------------------------------------------------------------- information ages

  /** What port `i` still holds it held before, `d` ticks younger. */
  predicate OlderBy(s: Bridge, t: Bridge, i: nat, d: nat)
    requires i < |s.ports| && i < |t.ports|
  {
    Informed(t, i) ==>
      && Informed(s, i) && SameInfo(s.ports[i], t.ports[i])
      && t.ports[i].messageAgeTimer.value == s.ports[i].messageAgeTimer.value + d
  }

  lemma OlderByBoth(s: Bridge, t: Bridge, u: Bridge, i: nat, d: nat, e: nat)
    requires i < |s.ports| && i < |t.ports| && i < |u.ports| && OlderBy(s, t, i, d) && OlderBy(t, u, i, e)
    ensures OlderBy(s, u, i, d + e)
  {
  }

  lemma QuietOlder(s: Bridge, t: Bridge, i: nat)
    requires Quiet(s, t) && i < |s.ports|
    ensures OlderBy(s, t, i, 0)
  {
    assert QuietPort(s.bridgeId, s.ports[i], t.ports[i]);
  }

  lemma ReselectOlder(s: Bridge, i: nat)
    requires Ready(s) && i < |s.ports|
    ensures OlderBy(s, Reselect(s), i, 0)
  {
    var u := ConfigurationUpdate(s);
    assert PortReady(s, i);
    UpdatedPort(s, i);
    assert OlderBy(s, u, i, 0);
    SelectOlder(u, i);
    OlderByBoth(s, u, Reselect(s), i, 0, 0);
  }

  lemma SelectOlder(s: Bridge, i: nat)
    requires i < |s.ports|
    ensures OlderBy(s, StateSelection(s), i, 0)
  {
    assert StateSelection(s).ports[i] == SelectState(s, i);
  }

  lemma ReselectAsRootOlder(s: Bridge, wasRoot: bool, i: nat)
    requires Ready(s) && i < |s.ports|
    ensures OlderBy(s, ReselectAsRoot(s, wasRoot), i, 0)
  {
    var u := Reselect(s);
    ReselectOlder(s, i);
    ReselectSettles(s);
    if IsRoot(u) && !wasRoot {
      BecomeRootQuiet(u);
      QuietOlder(u, BecomeRootBridge(u), i);
      OlderByBoth(s, u, BecomeRootBridge(u), i, 0, 0);
    }
  }

  lemma AgedOutOlder(s: Bridge, v: Bridge, wasRoot: bool, j: nat, i: nat)
    requires Ready(v) && |v.ports| == |s.ports| && j < |s.ports| && i < |s.ports| && v.bridgeId == s.bridgeId
    requires IsDesignated(v.bridgeId, v.ports[j]) && (j != i ==> v.ports[i] == s.ports[i])
    ensures var t := ReselectAsRoot(v, wasRoot);
      if j == i then !Informed(t, i) else OlderBy(s, t, i, 0)
  {
    ReselectAsRootOlder(v, wasRoot, i);
  }

  lemma AgePortOlder(s: Bridge, elapsed: nat, j: nat, i: nat)
    requires Inv(s) && j < |s.ports| && i < |s.ports|
    ensures OlderBy(s, AgePort(s, elapsed, j), i, if j == i then elapsed else 0)
    ensures j == i && s.ports[i].messageAgeTimer.value + elapsed >= s.maxAge ==> !Informed(AgePort(s, elapsed, j), i)
  {
    var p := s.ports[j];
    assert PortReady(s, j) && PortSettled(s, j);
    var u := s.(ports := s.ports[j := p.(messageAgeTimer := Charge(p.messageAgeTimer, elapsed, s.maxAge))]);
    if Enabled(p) {
      if Expires(p.messageAgeTimer, elapsed, s.maxAge) {
        AgedOutReady(s, elapsed, j);
        AgedOutOlder(s, BecomeDesignated(u, j), IsRoot(u), j, i);
      } else {
        ChargedOlder(s, elapsed, j, i, u);
      }
    }
  }

  lemma ChargedOlder(s: Bridge, elapsed: nat, j: nat, i: nat, u: Bridge)
    requires j < |s.ports| && i < |s.ports| && PortReady(s, j)
    requires
      var p := s.ports[j];
      && !Expires(p.messageAgeTimer, elapsed, s.maxAge)
      && u == s.(ports := s.ports[j := p.(messageAgeTimer := Charge(p.messageAgeTimer, elapsed, s.maxAge))])
    ensures OlderBy(s, u, i, if j == i then elapsed else 0)
    ensures j == i && s.ports[i].messageAgeTimer.value + elapsed >= s.maxAge ==> !Informed(u, i)
  {
  }

  /** Max age changes only to the bridge's own. */
  lemma AgePortMaxAge(s: Bridge, elapsed: nat, j: nat)
    requires j < |s.ports| && RootPortInRange(s)
    ensures var t := AgePort(s, elapsed, j);
      (t.maxAge == s.maxAge || t.maxAge == s.bridgeMaxAge) && t.bridgeMaxAge == s.bridgeMaxAge
  {
    var p := s.ports[j];
    var u := s.(ports := s.ports[j := p.(messageAgeTimer := Charge(p.messageAgeTimer, elapsed, s.maxAge))]);
    if Enabled(p) && Expires(p.messageAgeTimer, elapsed, s.maxAge) {
      var v := BecomeDesignated(u, j);
      ReselectKeeps(v);
      BecomeRootSame(Reselect(v));
      BecomeRootHello(Reselect(v));
    }
  }

  /** Whatever its limit in this tick, information of that age is too old. */
  predicate TooOld(s: Bridge, i: nat, elapsed: nat)
    requires i < |s.ports|
  {
    var age := s.ports[i].messageAgeTimer.value + elapsed; age >= s.maxAge && age >= s.bridgeMaxAge
  }

  ghost predicate AgedUpTo(s: Bridge, elapsed: nat, n: nat, i: nat)
    requires n <= |s.ports| && i < |s.ports| && RootPortInRange(s)
  {
    var u := AgePorts(s, elapsed, n);
    && Inv(u) && OlderBy(s, u, i, if i < n then elapsed else 0)
    && (u.maxAge == s.maxAge || u.maxAge == s.bridgeMaxAge) && u.bridgeMaxAge == s.bridgeMaxAge
    && (i < n && TooOld(s, i, elapsed) ==> !Informed(u, i))
  }

  lemma AgedOneMore(s: Bridge, elapsed: nat, n: nat, i: nat)
    requires n < |s.ports| && i < |s.ports| && RootPortInRange(s) && AgedUpTo(s, elapsed, n, i)
    ensures AgedUpTo(s, elapsed, n + 1, i)
  {
    var u := AgePorts(s, elapsed, n);
    var t := AgePort(u, elapsed, n);
    AgePortInv(u, elapsed, n);
    AgePortMaxAge(u, elapsed, n);
    AgePortOlder(u, elapsed, n, i);
    OlderByBoth(s, u, t, i, if i < n then elapsed else 0, if n == i then elapsed else 0);
  }

  lemma {:induction false} AgedPorts(s: Bridge, elapsed: nat, n: nat, i: nat)
    requires Inv(s) && n <= |s.ports| && i < |s.ports|
    ensures AgedUpTo(s, elapsed, n, i)
  {
    if n > 0 {
      AgedPorts(s, elapsed, n - 1, i);
      AgedOneMore(s, elapsed, n - 1, i);
    }
  }

  lemma DelayPortOlder(s: Bridge, elapsed: nat, j: nat, i: nat)
    requires j < |s.ports| && i < |s.ports| && RootPortInRange(s)
    ensures OlderBy(s, DelayPort(s, elapsed, j), i, 0)
  {
    if Enabled(s.ports[j]) {
      var v := ChargeForwardDelay(s, elapsed, j);
      ForwardDelayPorts(s, elapsed, j);
      assert OlderBy(s, v, i, 0);
      HoldOlder(v, elapsed, j, i);
      OlderByBoth(s, v, ChargeHold(v, elapsed, j), i, 0, 0);
    }
  }

  lemma HoldOlder(s: Bridge, elapsed: nat, j: nat, i: nat)
    requires j < |s.ports| && i < |s.ports| && RootPortInRange(s)
    ensures OlderBy(s, ChargeHold(s, elapsed, j), i, 0)
  {
    var p := s.ports[j];
    var u := s.(ports := s.ports[j := p.(holdTimer := Charge(p.holdTimer, elapsed, TICKS_PER_SECOND))]);
    TransmitOnlySent(u, j);
    assert PortSentFrom(u, TransmitConfig(u, j), i);
  }

  predicate DelayedOlder(s: Bridge, elapsed: nat, n: nat, i: nat)
    requires n <= |s.ports| && i < |s.ports| && RootPortInRange(s)
  {
    OlderBy(s, DelayPorts(s, elapsed, n), i, 0)
  }

  lemma DelayedOneMore(s: Bridge, elapsed: nat, n: nat, i: nat)
    requires n < |s.ports| && i < |s.ports| && RootPortInRange(s) && DelayedOlder(s, elapsed, n, i)
    ensures DelayedOlder(s, elapsed, n + 1, i)
  {
    var u := DelayPorts(s, elapsed, n);
    DelayPortOlder(u, elapsed, n, i);
    OlderByBoth(s, u, DelayPort(u, elapsed, n), i, 0, 0);
  }

  lemma {:induction false} DelayPortsOlder(s: Bridge, elapsed: nat, n: nat, i: nat)
    requires n <= |s.ports| && i < |s.ports| && RootPortInRange(s)
    ensures DelayedOlder(s, elapsed, n, i)
  {
    if n == 0 {
      DelayedNone(s, elapsed, n, i);
    } else {
      DelayPortsOlder(s, elapsed, n - 1, i);
      DelayedOneMore(s, elapsed, n - 1, i);
    }
  }

  lemma DelayedNone(s: Bridge, elapsed: nat, n: nat, i: nat)
    requires n == 0 && i < |s.ports| && RootPortInRange(s)
    ensures DelayedOlder(s, elapsed, n, i)
  {
  }

  /** In a tick, what a port goes on holding grows older by exactly the time that passes, and
      what is then as old as the bridge's max age, in force and its own, is gone. */
  lemma InformationAges(s: Bridge, elapsed: nat, i: nat)
    requires Inv(s) && elapsed > 0 && i < |s.ports|
    ensures OlderBy(s, Tick(s, elapsed), i, elapsed)
    ensures TooOld(s, i, elapsed) ==> !Informed(Tick(s, elapsed), i)
  {
    var a := TickBridgeTimers(s, elapsed);
    TickBridgeTimersQuiet(s, elapsed);
    QuietInv(s, a);
    QuietOlder(s, a, i);
    HelloTimerKeeps(s, elapsed);
    assert QuietPort(s.bridgeId, s.ports[i], a.ports[i]);
    AgedPorts(a, elapsed, |a.ports|, i);
    var b := AgePorts(a, elapsed, |a.ports|);
    OlderByBoth(s, a, b, i, 0, elapsed);
    DelayPortsOlder(b, elapsed, |b.ports|, i);
    OlderByBoth(s, b, Tick(s, elapsed), i, elapsed, 0);
  }

  // ---------------------------------------------------------------- ports move on

  /** The port is enabled, has its role, and is in this state with this forward delay timer. */
  predicate Serves(s: Bridge, i: nat, state: PortState, f: Timer)
    requires i < |s.ports|
  {
    && state != Blocking && HasRole(s, i) && s.ports[i].state == state && s.ports[i].forwardDelayTimer == f
  }

  /** A designated port stays one, and the root port does as long as it stays the least. */
  predicate KeepsRole(s: Bridge, r: Bridge, i: nat)
    requires i < |s.ports|
  {
    IsDesignated(s.bridgeId, s.ports[i]) || (s.rootPort == Some(i) && r.rootPort == Some(i))
  }

  lemma UpdateServes(s: Bridge, i: nat, state: PortState, f: Timer)
    requires i < |s.ports| && Serves(s, i, state, f) && KeepsRole(s, RootSelection(s), i)
    ensures Serves(ConfigurationUpdate(s), i, state, f)
  {
  }

  lemma SelectServes(s: Bridge, i: nat, state: PortState, f: Timer)
    requires i < |s.ports| && Serves(s, i, state, f)
    ensures Serves(StateSelection(s), i, state, f)
  {
    assert StateSelection(s).ports[i] == SelectState(s, i);
  }

  lemma QuietServes(s: Bridge, t: Bridge, i: nat, state: PortState, f: Timer)
    requires i < |s.ports| && Serves(s, i, state, f) && Quiet(s, t)
    ensures Serves(t, i, state, f)
  {
    assert QuietPort(s.bridgeId, s.ports[i], t.ports[i]);
  }

  lemma ReselectAsRootServes(s: Bridge, wasRoot: bool, i: nat, state: PortState, f: Timer)
    requires Ready(s) && i < |s.ports| && Serves(s, i, state, f) && KeepsRole(s, RootSelection(s), i)
    ensures Serves(ReselectAsRoot(s, wasRoot), i, state, f)
  {
    var u := Reselect(s);
    UpdateServes(s, i, state, f);
    SelectServes(ConfigurationUpdate(s), i, state, f);
    ReselectSettles(s);
    if IsRoot(u) && !wasRoot {
      BecomeRootQuiet(u);
      QuietServes(u, BecomeRootBridge(u), i, state, f);
    }
  }

  /** With one candidate fewer, the least candidate is still the least. */
  lemma RootPortStays(s: Bridge, v: Bridge, i: nat, j: nat)
    requires Inv(s) && s.rootPort == Some(i) && j < |s.ports| && j != i
    requires Ready(v) && |v.ports| == |s.ports| && v.bridgeId == s.bridgeId && v.ports == s.ports[j := v.ports[j]]
    requires IsDesignated(v.bridgeId, v.ports[j])
    ensures RootSelection(v).rootPort == Some(i)
  {
    ReadyNumbered(v);
    BestRootSelects(v.bridgeId, v.ports, |v.ports|);
    assert Least(v.bridgeId, v.ports, Below(|v.ports|), i);
    SelectsUnique(v.bridgeId, v.ports, Below(|v.ports|), Some(i), RootSelection(v).rootPort);
  }

  /** The port's information, if it goes by any, outlives the tick. */
  predicate Outlives(s: Bridge, i: nat, elapsed: nat)
    requires i < |s.ports|
  {
    !IsDesignated(s.bridgeId, s.ports[i]) ==> s.ports[i].messageAgeTimer.value + elapsed < s.maxAge
  }

  lemma AgedOutServes(s: Bridge, elapsed: nat, j: nat, i: nat, state: PortState, f: Timer)
    requires Inv(s) && j < |s.ports| && i < |s.ports| && i != j && Serves(s, i, state, f)
    requires Enabled(s.ports[j]) && Expires(s.ports[j].messageAgeTimer, elapsed, s.maxAge)
    ensures Serves(AgePort(s, elapsed, j), i, state, f)
  {
    var p := s.ports[j];
    var u := s.(ports := s.ports[j := p.(messageAgeTimer := Charge(p.messageAgeTimer, elapsed, s.maxAge))]);
    var v := BecomeDesignated(u, j);
    AgedOutReady(s, elapsed, j);
    if !IsDesignated(s.bridgeId, s.ports[i]) { RootPortStays(s, v, i, j); }
    ReselectAsRootServes(v, IsRoot(u), i, state, f);
  }

  lemma AgePortServes(s: Bridge, elapsed: nat, j: nat, i: nat, state: PortState, f: Timer)
    requires Inv(s) && j < |s.ports| && i < |s.ports| && Serves(s, i, state, f) && (j == i ==> Outlives(s, i, elapsed))
    ensures Serves(AgePort(s, elapsed, j), i, state, f)
  {
    assert PortReady(s, j) && PortSettled(s, j);
    if Enabled(s.ports[j]) && Expires(s.ports[j].messageAgeTimer, elapsed, s.maxAge) {
      AgedOutServes(s, elapsed, j, i, state, f);
    }
  }

  /** While the port is the root port, the times in force stay the root's. */
  lemma AgePortOutlives(s: Bridge, elapsed: nat, j: nat, i: nat, state: PortState, f: Timer)
    requires Inv(s) && j < i < |s.ports| && Serves(s, i, state, f) && Outlives(s, i, elapsed)
    ensures Outlives(AgePort(s, elapsed, j), i, elapsed)
  {
    var t := AgePort(s, elapsed, j);
    AgePortInv(s, elapsed, j);
    AgePortServes(s, elapsed, j, i, state, f);
    AgePortOlder(s, elapsed, j, i);
    if !IsDesignated(t.bridgeId, t.ports[i]) {
      InvMeans(t);
      AgePortKeepsMaxAge(s, elapsed, j);
    }
  }

  lemma AgePortKeepsMaxAge(s: Bridge, elapsed: nat, j: nat)
    requires j < |s.ports| && RootPortInRange(s) && !IsRoot(AgePort(s, elapsed, j))
    ensures AgePort(s, elapsed, j).maxAge == s.maxAge
  {
    var p := s.ports[j];
    var u := s.(ports := s.ports[j := p.(messageAgeTimer := Charge(p.messageAgeTimer, elapsed, s.maxAge))]);
    if Enabled(p) && Expires(p.messageAgeTimer, elapsed, s.maxAge) {
      ReselectKeeps(BecomeDesignated(u, j));
      BecomeRootIsRoot(Reselect(BecomeDesignated(u, j)));
    }
  }

  lemma BecomeRootIsRoot(s: Bridge)
    requires RootPortInRange(s)
    ensures IsRoot(BecomeRootBridge(s)) <==> IsRoot(s)
  {
    var b := TopologyChangeDetection(OwnTimes(s));
    GenerationKeeps(b.(tcnTimer := Stop(b.tcnTimer)));
  }

  ghost predicate ServesUpTo(s: Bridge, elapsed: nat, n: nat, i: nat, state: PortState, f: Timer)
    requires n <= |s.ports| && i < |s.ports| && RootPortInRange(s)
  {
    var u := AgePorts(s, elapsed, n);
    Inv(u) && Serves(u, i, state, f) && (n <= i ==> Outlives(u, i, elapsed))
  }

  lemma ServesOneMore(s: Bridge, elapsed: nat, n: nat, i: nat, state: PortState, f: Timer)
    requires n < |s.ports| && i < |s.ports| && RootPortInRange(s) && ServesUpTo(s, elapsed, n, i, state, f)
    ensures ServesUpTo(s, elapsed, n + 1, i, state, f)
  {
    var u := AgePorts(s, elapsed, n);
    AgePortInv(u, elapsed, n);
    AgePortServes(u, elapsed, n, i, state, f);
    if n < i { AgePortOutlives(u, elapsed, n, i, state, f); }
  }

  lemma {:induction false} AgePortsServe(s: Bridge, elapsed: nat, n: nat, i: nat, state: PortState, f: Timer)
    requires Inv(s) && n <= |s.ports| && i < |s.ports| && Serves(s, i, state, f) && Outlives(s, i, elapsed)
    ensures ServesUpTo(s, elapsed, n, i, state, f)
  {
    if n > 0 {
      AgePortsServe(s, elapsed, n - 1, i, state, f);
      ServesOneMore(s, elapsed, n - 1, i, state, f);
    }
  }

  /** Where a port with this state and timer is after `elapsed` more ticks. */
  function MovedOn(state: PortState, f: Timer, elapsed: nat, forwardDelay: nat): (PortState, nat) {
    if !f.active || f.value + elapsed < forwardDelay then (state, if f.active then f.value + elapsed else f.value)
    else if state == Listening then (Learning, 0)
    else if state == Learning then (Forwarding, f.value + elapsed)
    else (state, f.value + elapsed)
  }

  /** A port that keeps its role moves on as soon as its forward delay is over, from listening
      to learning and from learning to forwarding, and not before. The root port keeps its
      role as long as its information outlives the tick; a designated port always does. */
  lemma RoleMovesOn(s: Bridge, elapsed: nat, i: nat)
    requires Inv(s) && elapsed > 0 && i < |s.ports| && HasRole(s, i) && Outlives(s, i, elapsed)
    ensures
      var t := Tick(s, elapsed);
      && HasRole(t, i)
      && (t.ports[i].state, t.ports[i].forwardDelayTimer.value)
         == MovedOn(s.ports[i].state, s.ports[i].forwardDelayTimer, elapsed, t.forwardDelay)
  {
    var p := s.ports[i];
    InvMeans(s);
    AgedServes(s, elapsed, i, p.state, p.forwardDelayTimer);
    var b := AgePorts(TickBridgeTimers(s, elapsed), elapsed, |s.ports|);
    DelayPortsEffect(b, elapsed, |b.ports|, i);
    ServedMovesOn(b, elapsed, i, p.state, p.forwardDelayTimer, DelayPorts(b, elapsed, |b.ports|));
    TickInv(s, elapsed);
    ActiveHasRole(Tick(s, elapsed), i);
  }

  lemma AgedServes(s: Bridge, elapsed: nat, i: nat, state: PortState, f: Timer)
    requires Inv(s) && i < |s.ports| && Serves(s, i, state, f) && Outlives(s, i, elapsed)
    ensures var b := AgePorts(TickBridgeTimers(s, elapsed), elapsed, |s.ports|); Inv(b) && Serves(b, i, state, f)
  {
    var a := TickBridgeTimers(s, elapsed);
    TickBridgeTimersQuiet(s, elapsed);
    HelloTimerKeeps(s, elapsed);
    QuietInv(s, a);
    QuietServes(s, a, i, state, f);
    QuietOutlives(s, a, i, elapsed);
    AgePortsServe(a, elapsed, |a.ports|, i, state, f);
  }

  lemma ServedMovesOn(b: Bridge, elapsed: nat, i: nat, state: PortState, f: Timer, t: Bridge)
    requires i < |b.ports| && i < |t.ports| && PortReady(b, i) && Serves(b, i, state, f)
    requires t.forwardDelay == b.forwardDelay
    requires DelayedAs(DelayIfEnabled(b.ports[i], elapsed, b.forwardDelay), t.ports[i])
    ensures (t.ports[i].state, t.ports[i].forwardDelayTimer.value) == MovedOn(state, f, elapsed, t.forwardDelay)
    ensures Enabled(t.ports[i]) && t.ports[i].state != Blocking
  {
  }

  lemma QuietOutlives(s: Bridge, a: Bridge, i: nat, elapsed: nat)
    requires i < |s.ports| && Quiet(s, a) && a.maxAge == s.maxAge && Outlives(s, i, elapsed)
    ensures Outlives(a, i, elapsed)
  {
    assert QuietPort(s.bridgeId, s.ports[i], a.ports[i]);
  }

  // ---------------------------------------------------------------- a designated port left alone

  function Rank(state: PortState): nat {
    match state
    case Listening => 1
    case Learning => 2
    case Forwarding => 3
    case _ => 0
  }

  /** After `k` events the bridge is settled, and port `i` is enabled and designated. */
  ghost predicate Designated(s: Bridge, es: seq<Event>, i: nat, k: nat)
    requires Shaped(s) && AllLegal(es) && i < MAX_PORTS && k <= |es|
  {
    var u := After(s, es, k);
    Inv(u) && Enabled(u.ports[i]) && IsDesignated(u.bridgeId, u.ports[i])
  }

  /** The forward delay in force is never more than `d`. */
  predicate DelaysAtMost(s: Bridge, es: seq<Event>, d: nat)
    requires Shaped(s) && AllLegal(es)
  {
    forall k :: 0 <= k <= |es| ==> After(s, es, k).forwardDelay <= d
  }

  lemma DesignatedStep(s: Bridge, es: seq<Event>, i: nat, k: nat)
    requires Shaped(s) && AllLegal(es) && Ticks(es) && i < MAX_PORTS && k < |es| && Designated(s, es, i, k)
    ensures Designated(s, es, i, k + 1)
    ensures
      var p, t := After(s, es, k).ports[i], After(s, es, k + 1);
      (t.ports[i].state, t.ports[i].forwardDelayTimer.value)
      == MovedOn(p.state, p.forwardDelayTimer, Elapsed(es[k]), t.forwardDelay)
  {
    var u := After(s, es, k);
    AfterStep(s, es, k);
    TickInv(u, es[k].elapsed);
    RoleMovesOn(u, es[k].elapsed, i);
    InformationAges(u, es[k].elapsed, i);
  }

  /** Since event `from` port `i` has moved on, or its timer shows all the time since. */
  ghost predicate MovedOnSince(s: Bridge, es: seq<Event>, i: nat, from: nat, k: nat)
    requires Shaped(s) && AllLegal(es) && i < MAX_PORTS && from <= k <= |es|
  {
    var p, q := After(s, es, from).ports[i], After(s, es, k).ports[i];
    && Designated(s, es, i, k)
    && (|| Rank(q.state) > Rank(p.state)
        || (q.state == p.state && (p.state != Forwarding ==> q.forwardDelayTimer.value >= Passed(es, from, k))))
  }

  /** And it has moved on if that is a forward delay of at most `d`. */
  ghost predicate MovedBy(s: Bridge, es: seq<Event>, i: nat, from: nat, k: nat, d: nat)
    requires Shaped(s) && AllLegal(es) && i < MAX_PORTS && from <= k <= |es|
  {
    var p, q := After(s, es, from).ports[i], After(s, es, k).ports[i];
    && MovedOnSince(s, es, i, from, k)
    && (from < k && Passed(es, from, k) >= d && p.state != Forwarding ==> Rank(q.state) > Rank(p.state))
  }

  lemma MovedOneMore(s: Bridge, es: seq<Event>, i: nat, from: nat, k: nat, d: nat)
    requires Shaped(s) && AllLegal(es) && Ticks(es) && i < MAX_PORTS && from <= k < |es| && DelaysAtMost(s, es, d)
    requires MovedBy(s, es, i, from, k, d)
    ensures MovedBy(s, es, i, from, k + 1, d)
  {
    DesignatedStep(s, es, i, k);
    DesignatedTimer(After(s, es, k), i);
    assert After(s, es, k + 1).forwardDelay <= d;
  }

  lemma DesignatedTimer(u: Bridge, i: nat)
    requires Inv(u) && i < |u.ports| && Enabled(u.ports[i]) && IsDesignated(u.bridgeId, u.ports[i])
    ensures u.ports[i].state == Listening || u.ports[i].state == Learning || u.ports[i].state == Forwarding
    ensures u.ports[i].forwardDelayTimer.active <==> u.ports[i].state != Forwarding
  {
    InvMeans(u);
  }

  lemma MovedNone(s: Bridge, es: seq<Event>, i: nat, from: nat, k: nat, d: nat)
    requires Shaped(s) && AllLegal(es) && i < MAX_PORTS && from == k <= |es| && Designated(s, es, i, from)
    ensures MovedBy(s, es, i, from, k, d)
  {
  }

  lemma {:induction false} MovedOnRun(s: Bridge, es: seq<Event>, i: nat, from: nat, k: nat, d: nat)
    requires Shaped(s) && AllLegal(es) && Ticks(es) && i < MAX_PORTS && from <= k <= |es| && DelaysAtMost(s, es, d)
    requires Designated(s, es, i, from)
    ensures MovedBy(s, es, i, from, k, d)
  {
    if from == k {
      MovedNone(s, es, i, from, k, d);
    } else {
      MovedOnRun(s, es, i, from, k - 1, d);
      MovedOneMore(s, es, i, from, k - 1, d);
    }
  }

  /** A designated port that is left alone for one forward delay and then another forwards,
      whatever the ticks in which the time passes. */
  lemma DesignatedForwards(s: Bridge, es: seq<Event>, i: nat, a: nat, d: nat)
    requires Inv(s) && AllLegal(es) && Ticks(es) && i < MAX_PORTS && 0 < a < |es| && DelaysAtMost(s, es, d)
    requires Enabled(s.ports[i]) && IsDesignated(s.bridgeId, s.ports[i])
    requires Passed(es, 0, a) >= d && Passed(es, a, |es|) >= d
    ensures Run(s, es).ports[i].state == Forwarding
  {
    assert es[..|es|] == es;
    assert Designated(s, es, i, 0);
    DesignatedTimer(s, i);
    MovedOnRun(s, es, i, 0, a, d);
    MovedOnRun(s, es, i, a, |es|, d);
    DesignatedTimer(After(s, es, |es|), i);
  }
}

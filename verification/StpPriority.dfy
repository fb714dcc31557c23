/**
 * Changing a port's priority: the one operation that can leave a bridge unsettled, because
 * it changes what selection compares without selecting again.
 */
module StpPriority {
  import opened Wrappers
  import opened StpModel
  import opened StpSelection
  import opened StpInvariant
  import opened StpSteps

  /** The port with another identifier, which a designated port also announces. */
  function Renumbered(bridgeId: nat, p: Port, id: nat): Port {
    (if IsDesignated(bridgeId, p) then p.(designatedPort := id) else p).(portId := id)
  }

  function NewId(p: Port, priority: nat): nat { p.portId % 256 + priority * 256 }

  function WithPort(s: Bridge, i: nat, q: Port): Bridge
    requires i < |s.ports|
  {
    s.(ports := s.ports[i := q])
  }

  /** The port's own bridge holds its LAN with an identifier greater than the new one. */
  predicate Outranks(s: Bridge, p: Port, id: nat) { s.bridgeId == p.designatedBridge && id < p.designatedPort }

  /** `stp_port_set_priority`. */
  function PortSetPriority(s: Bridge, i: nat, priority: nat): (t: Bridge)
    requires i < |s.ports| && RootPortInRange(s)
    ensures |t.ports| == |s.ports| && RootPortInRange(t)
  {
    var p := s.ports[i];
    var id := NewId(p, priority);
    var q := Renumbered(s.bridgeId, p, id);
    if id == p.portId then s
    else if Outranks(s, q, id) then StateSelection(BecomeDesignated(WithPort(s, i, q), i))
    else WithPort(s, i, q)
  }

  /** Two ways to the root that only the port's own identifier tells apart. */
  predicate Tied(p: Port, q: Port) {
    && p.designatedRoot == q.designatedRoot && p.designatedCost + p.pathCost == q.designatedCost + q.pathCost
    && p.designatedBridge == q.designatedBridge && p.designatedPort == q.designatedPort
  }

  /** The new identifier puts no tied candidate on the other side of the root port. */
  predicate KeepsRank(s: Bridge, i: nat, id: nat)
    requires i < |s.ports| && RootPortInRange(s)
  {
    match s.rootPort
    case None => true
    case Some(r) =>
      if r == i
      then forall q :: 0 <= q < |s.ports| && q != i && Candidate(s.bridgeId, s.ports[q]) && Tied(s.ports[i], s.ports[q])
             ==> id < s.ports[q].portId
      else Candidate(s.bridgeId, s.ports[i]) && Tied(s.ports[i], s.ports[r]) ==> s.ports[r].portId < id
  }

  /** When the change leaves the bridge settled. */
  predicate Harmless(s: Bridge, i: nat, id: nat)
    requires i < |s.ports| && RootPortInRange(s)
  {
    var p := s.ports[i];
    || id == p.portId || !Enabled(p) || IsDesignated(s.bridgeId, p)
    || (if s.bridgeId == p.designatedBridge && id <= p.designatedPort then id < p.designatedPort && s.rootPort != Some(i)
        else KeepsRank(s, i, id))
  }

  // ---------------------------------------------------------------- replacing one port

  lemma OtherPorts(s: Bridge, i: nat, q: Port, j: nat)
    requires Inv(s) && i < |s.ports| && j < |s.ports| && j != i
    ensures PortReady(WithPort(s, i, q), j) && PortSettled(WithPort(s, i, q), j)
  {
    assert PortReady(s, j) && PortSettled(s, j);
  }

  lemma WithPortInv(s: Bridge, i: nat, q: Port)
    requires Inv(s) && i < |s.ports| && PortReady(WithPort(s, i, q), i) && PortSettled(WithPort(s, i, q), i)
    requires RootSettled(WithPort(s, i, q))
    ensures Inv(WithPort(s, i, q))
  {
    var u := WithPort(s, i, q);
    forall j | 0 <= j < |u.ports| ensures PortReady(u, j) && PortSettled(u, j) {
      if j != i { OtherPorts(s, i, q, j); }
    }
  }

  /** A port that is no candidate, other than the root port, has no say in the selection. */
  lemma NoSay(s: Bridge, i: nat, q: Port)
    requires RootSettled(s) && i < |s.ports| && s.rootPort != Some(i) && !Candidate(s.bridgeId, q)
    ensures RootSettled(WithPort(s, i, q))
  {
    var u := WithPort(s, i, q);
    if s.rootPort.Some? { assert s.rootPort.value in Below(|s.ports|); }
  }

  // ---------------------------------------------------------------- ports without a say

  lemma DesignatedHarmless(s: Bridge, i: nat, id: nat)
    requires Inv(s) && i < |s.ports| && IsDesignated(s.bridgeId, s.ports[i]) && id % 256 == i + 1
    ensures Inv(WithPort(s, i, Renumbered(s.bridgeId, s.ports[i], id)))
  {
    assert PortReady(s, i) && PortSettled(s, i);
    InvMeans(s);
    var q := Renumbered(s.bridgeId, s.ports[i], id);
    NoSay(s, i, q);
    WithPortInv(s, i, q);
  }

  lemma OffHarmless(s: Bridge, i: nat, q: Port)
    requires Inv(s) && i < |s.ports| && !Enabled(s.ports[i]) && !Enabled(q) && q.portId % 256 == i + 1
    requires q.pathCost == s.ports[i].pathCost && q.forwardDelayTimer == s.ports[i].forwardDelayTimer
    requires !q.configPending && !q.topologyChangeAck
    ensures Inv(WithPort(s, i, q))
  {
    assert PortReady(s, i);
    InvMeans(s);
    NoSay(s, i, q);
    WithPortInv(s, i, q);
  }

  lemma InvSelects(v: Bridge)
    requires Inv(v)
    ensures Inv(StateSelection(v))
  {
    forall j | 0 <= j < |v.ports| ensures RoleSettled(v, v.ports[j]) { assert PortSettled(v, j); }
    StateSelectionSettles(v);
  }

  // ---------------------------------------------------------------- taking over the LAN

  /** The port becomes designated, and settled if it is not the root port. */
  lemma TakeOver(s: Bridge, i: nat, id: nat)
    requires Inv(s) && i < |s.ports| && Enabled(s.ports[i]) && !IsDesignated(s.bridgeId, s.ports[i]) && id % 256 == i + 1
    ensures var v := BecomeDesignated(WithPort(s, i, s.ports[i].(portId := id)), i);
      Inv(StateSelection(v)) <==> s.rootPort != Some(i)
  {
    var q := Designate(s, s.ports[i].(portId := id));
    var v := WithPort(s, i, q);
    assert v == BecomeDesignated(WithPort(s, i, s.ports[i].(portId := id)), i);
    if s.rootPort == Some(i) {
      RootDesignated(v, i);
    } else {
      TakeOverReady(s, i, q);
      NoSay(s, i, q);
      forall j | 0 <= j < |v.ports| ensures RoleSettled(v, v.ports[j]) {
        if j != i { assert PortSettled(s, j); }
      }
      StateSelectionSettles(v);
    }
  }

  lemma TakeOverReady(s: Bridge, i: nat, q: Port)
    requires Inv(s) && i < |s.ports| && IsDesignated(s.bridgeId, q) && q.portId % 256 == i + 1
    requires q.pathCost == s.ports[i].pathCost && q.state == s.ports[i].state
    requires q.forwardDelayTimer == s.ports[i].forwardDelayTimer && q.configPending == s.ports[i].configPending
    requires q.topologyChangeAck == s.ports[i].topologyChangeAck
    ensures Ready(WithPort(s, i, q))
  {
    forall j | 0 <= j < |s.ports| ensures PortReady(WithPort(s, i, q), j) { assert PortReady(s, j); }
  }

  /** A root port that is designated is not settled. */
  lemma RootDesignated(v: Bridge, i: nat)
    requires i < |v.ports| && v.rootPort == Some(i) && IsDesignated(v.bridgeId, v.ports[i])
    ensures !Inv(StateSelection(v))
  {
    var t := StateSelection(v);
    assert t.ports[i] == SelectState(v, i);
    if Inv(t) { InvMeans(t); }
  }

  // ---------------------------------------------------------------- the remaining cases

  /** Given the identifier its LAN's designated port has, the port counts as designated but has not been selected. */
  lemma Clash(s: Bridge, i: nat, id: nat)
    requires Inv(s) && i < |s.ports| && Enabled(s.ports[i]) && !IsDesignated(s.bridgeId, s.ports[i])
    requires s.bridgeId == s.ports[i].designatedBridge && id == s.ports[i].designatedPort
    ensures !Inv(WithPort(s, i, s.ports[i].(portId := id)))
  {
    var u := WithPort(s, i, s.ports[i].(portId := id));
    assert PortReady(s, i);
    assert !PortSettled(u, i);
  }

  lemma RankKept(s: Bridge, i: nat, id: nat)
    requires Inv(s) && i < |s.ports| && KeepsRank(s, i, id) && id % 256 == i + 1
    requires var q := s.ports[i].(portId := id); Candidate(s.bridgeId, q) <==> Candidate(s.bridgeId, s.ports[i])
    ensures RootSettled(WithPort(s, i, s.ports[i].(portId := id)))
  {
    var u := WithPort(s, i, s.ports[i].(portId := id));
    match s.rootPort
    case None =>
    case Some(r) =>
      forall k | k in Below(|u.ports|) && k < |u.ports| && k != r && Candidate(u.bridgeId, u.ports[k])
        ensures SupersedesRoot(u.ports[k], u.ports[r])
      {
        assert SupersedesRoot(s.ports[k], s.ports[r]);
        if r == i && Tied(s.ports[i], s.ports[k]) { assert id < s.ports[k].portId; }
      }
  }

  /** A candidate that the selected root port does not beat. */
  lemma Unbeaten(u: Bridge, r: nat, k: nat)
    requires r < |u.ports| && k < |u.ports| && k != r && u.rootPort == Some(r)
    requires Candidate(u.bridgeId, u.ports[k]) && !SupersedesRoot(u.ports[k], u.ports[r])
    ensures !RootSettled(u)
  {
    assert k in Below(|u.ports|);
  }

  lemma RankLost(s: Bridge, i: nat, id: nat)
    requires Ready(s) && RootPortInRange(s) && i < |s.ports| && !KeepsRank(s, i, id) && id % 256 == i + 1
    requires var q := s.ports[i].(portId := id); Candidate(s.bridgeId, q) <==> Candidate(s.bridgeId, s.ports[i])
    ensures !RootSettled(WithPort(s, i, s.ports[i].(portId := id)))
  {
    var u, r := WithPort(s, i, s.ports[i].(portId := id)), s.rootPort.value;
    if r == i {
      var k :| 0 <= k < |s.ports| && k != i && Candidate(s.bridgeId, s.ports[k]) && Tied(s.ports[i], s.ports[k])
        && !(id < s.ports[k].portId);
      assert PortReady(s, k);
      Unbeaten(u, i, k);
    } else {
      assert PortReady(s, r);
      Unbeaten(u, r, i);
    }
  }

  lemma OtherwiseExact(s: Bridge, i: nat, id: nat)
    requires Inv(s) && i < |s.ports| && Enabled(s.ports[i]) && !IsDesignated(s.bridgeId, s.ports[i]) && id % 256 == i + 1
    requires s.bridgeId != s.ports[i].designatedBridge || id > s.ports[i].designatedPort
    ensures Inv(WithPort(s, i, s.ports[i].(portId := id))) <==> KeepsRank(s, i, id)
  {
    var q := s.ports[i].(portId := id);
    assert PortReady(s, i) && PortSettled(s, i);
    if KeepsRank(s, i, id) {
      RankKept(s, i, id);
      WithPortInv(s, i, q);
    } else {
      RankLost(s, i, id);
    }
  }

  lemma NewIdNumber(p: Port, priority: nat)
    ensures NewId(p, priority) % 256 == p.portId % 256
  {
  }

  lemma OffTakesOver(s: Bridge, i: nat, q: Port)
    requires Inv(s) && i < |s.ports| && !Enabled(s.ports[i]) && !Enabled(q) && q.portId % 256 == i + 1
    requires q.pathCost == s.ports[i].pathCost && q.forwardDelayTimer == s.ports[i].forwardDelayTimer
    requires !q.configPending && !q.topologyChangeAck
    ensures Inv(StateSelection(BecomeDesignated(WithPort(s, i, q), i)))
  {
    assert BecomeDesignated(WithPort(s, i, q), i) == WithPort(s, i, Designate(s, q));
    OffHarmless(s, i, Designate(s, q));
    InvSelects(WithPort(s, i, Designate(s, q)));
  }

  lemma OffExact(s: Bridge, i: nat, priority: nat)
    requires Inv(s) && i < |s.ports| && !Enabled(s.ports[i]) && !IsDesignated(s.bridgeId, s.ports[i])
    ensures Inv(PortSetPriority(s, i, priority))
  {
    var p := s.ports[i];
    assert PortReady(s, i);
    NewIdNumber(p, priority);
    var q := Renumbered(s.bridgeId, p, NewId(p, priority));
    if Outranks(s, q, NewId(p, priority)) { OffTakesOver(s, i, q); } else { OffHarmless(s, i, q); }
  }

  /** A port with a say: enabled, and not designated. */
  lemma OnExact(s: Bridge, i: nat, id: nat)
    requires Inv(s) && i < |s.ports| && Enabled(s.ports[i]) && !IsDesignated(s.bridgeId, s.ports[i]) && id % 256 == i + 1
    requires id != s.ports[i].portId
    ensures var u := WithPort(s, i, s.ports[i].(portId := id));
      Inv(if Outranks(s, s.ports[i], id) then StateSelection(BecomeDesignated(u, i)) else u) <==> Harmless(s, i, id)
  {
    var p := s.ports[i];
    if Outranks(s, p, id) {
      TakeOver(s, i, id);
    } else if s.bridgeId == p.designatedBridge && id == p.designatedPort {
      Clash(s, i, id);
    } else {
      OtherwiseExact(s, i, id);
    }
  }

  /** A change of priority leaves the bridge settled if and only if it is harmless. */
  lemma PriorityExact(s: Bridge, i: nat, priority: nat)
    requires Inv(s) && i < |s.ports|
    ensures Inv(PortSetPriority(s, i, priority)) <==> Harmless(s, i, NewId(s.ports[i], priority))
  {
    var p, id := s.ports[i], NewId(s.ports[i], priority);
    assert PortReady(s, i);
    NewIdNumber(p, priority);
    if id == p.portId {
    } else if IsDesignated(s.bridgeId, p) {
      DesignatedHarmless(s, i, id);
    } else if !Enabled(p) {
      OffExact(s, i, priority);
    } else {
      OnExact(s, i, id);
    }
  }

  // ---------------------------------------------------------------- a change that does harm

  /** Two ports hear the same hello; the one with the lesser identifier is the root port. */
  predicate Twins(r: Bridge) {
    && |r.ports| == MAX_PORTS && Candidate(r.bridgeId, r.ports[0]) && Candidate(r.bridgeId, r.ports[1])
    && Tied(r.ports[0], r.ports[1]) && r.ports[0].portId < r.ports[1].portId && r.ports[1].portId % 256 == 2
    && r.ports[0].designatedBridge != r.bridgeId
    && forall i :: 1 < i < |r.ports| ==> !Enabled(r.ports[i])
  }

  lemma TwinsRoot(r: Bridge)
    requires Twins(r) && Numbered(r.ports)
    ensures RootSelection(r).rootPort == Some(0)
  {
    BestRootSelects(r.bridgeId, r.ports, |r.ports|);
    assert 0 in Below(|r.ports|) && 1 in Below(|r.ports|);
  }

  lemma TwinsUpdate(r: Bridge)
    requires Twins(r) && Ready(r)
    ensures var u := ConfigurationUpdate(r);
      u.rootPort == Some(0) && u.bridgeId == r.bridgeId && u.ports[0] == r.ports[0] && u.ports[1] == r.ports[1]
  {
    ReadyNumbered(r);
    TwinsRoot(r);
    assert PortReady(r, 0) && PortReady(r, 1);
  }

  /** What becomes of the twins once states are selected. */
  predicate TwinsSettled(t: Bridge) {
    && |t.ports| == MAX_PORTS && t.rootPort == Some(0) && Candidate(t.bridgeId, t.ports[1])
    && Tied(t.ports[1], t.ports[0]) && t.ports[0].portId >= 256 && t.ports[1].portId % 256 == 2
    && t.ports[1].portId >= 256 && t.ports[1].designatedBridge != t.bridgeId
  }

  lemma TwinsSelect(u: Bridge)
    requires TwinsSettled(u)
    ensures TwinsSettled(StateSelection(u))
  {
    var t := StateSelection(u);
    assert t.ports[0] == SelectState(u, 0) && t.ports[1] == SelectState(u, 1);
  }

  lemma TwinsNotHarmless(t: Bridge)
    requires TwinsSettled(t)
    ensures NewId(t.ports[1], 0) == 2 && !Harmless(t, 1, 2)
  {
  }

  /** Giving the other of the twins the highest priority leaves the wrong root port selected. */
  lemma TwinsHarmed(r: Bridge)
    requires Twins(r) && Ready(r) && r.ports[0].portId >= 256
    ensures Inv(Reselect(r)) && !Inv(PortSetPriority(Reselect(r), 1, 0))
  {
    ReselectSettles(r);
    TwinsUpdate(r);
    TwinsSelect(ConfigurationUpdate(r));
    TwinsNotHarmless(Reselect(r));
    PriorityExact(Reselect(r), 1, 0);
  }
}

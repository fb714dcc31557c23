/** What the selection functions of a bridge compute: the root port is the least candidate
    whatever the scan order, and one round of selection settles every port's role. */
module StpSelection {
  import opened Wrappers
  import opened StpModel

  /** The number of a port is the low byte of its identifier, so identifiers are distinct. */
  predicate Numbered(ports: seq<Port>) {
    forall i :: 0 <= i < |ports| ==> ports[i].portId % 256 == i + 1
  }

  // ---------------------------------------------------------------- the order on ports

  lemma SupersedesTotal(p: Port, q: Port)
    requires p.portId != q.portId
    ensures SupersedesRoot(p, q) <==> !SupersedesRoot(q, p)
  {
  }

  lemma SupersedesTransitive(p: Port, q: Port, r: Port)
    requires SupersedesRoot(p, q) && SupersedesRoot(q, r)
    ensures SupersedesRoot(p, r)
  {
  }

  /** Port `r` is a candidate among those selected by `among` and beats all the others. */
  ghost predicate Least(bridgeId: nat, ports: seq<Port>, among: set<nat>, r: nat) {
    && r < |ports| && r in among && Candidate(bridgeId, ports[r])
    && forall q | q in among && q < |ports| && q != r && Candidate(bridgeId, ports[q]) ::
         SupersedesRoot(ports[q], ports[r])
  }

  ghost predicate NoCandidate(bridgeId: nat, ports: seq<Port>, among: set<nat>) {
    forall q | q in among && q < |ports| :: !Candidate(bridgeId, ports[q])
  }

  /** The result of a root selection over the ports in `among`. */
  ghost predicate Selects(bridgeId: nat, ports: seq<Port>, among: set<nat>, r: Option<nat>) {
    match r
    case None => NoCandidate(bridgeId, ports, among)
    case Some(i) => Least(bridgeId, ports, among, i)
  }

  function Below(n: nat): (r: set<nat>)
    ensures forall i: nat :: i in r <==> i < n
  {
    if n == 0 then {} else Below(n - 1) + {n - 1}
  }

  lemma {:induction false} BestRootSelects(bridgeId: nat, ports: seq<Port>, n: nat)
    requires n <= |ports| && Numbered(ports)
    ensures Selects(bridgeId, ports, Below(n), BestRoot(bridgeId, ports, n))
  {
    if n > 0 {
      BestRootSelects(bridgeId, ports, n - 1);
      ScanStep(bridgeId, ports, Below(n - 1), BestRoot(bridgeId, ports, n - 1), n - 1);
      assert Below(n) == Below(n - 1) + {n - 1};
    }
  }

  /** One step of the scan: the pick so far against port `i`. */
  function Visit(bridgeId: nat, ports: seq<Port>, r: Option<nat>, i: nat): Option<nat>
    requires i < |ports| && (r.Some? ==> r.value < |ports|)
  {
    if !Candidate(bridgeId, ports[i]) || (r.Some? && !SupersedesRoot(ports[r.value], ports[i])) then r
    else Some(i)
  }

  lemma ScanStep(bridgeId: nat, ports: seq<Port>, seen: set<nat>, r: Option<nat>, i: nat)
    requires Numbered(ports) && i < |ports|
    requires Selects(bridgeId, ports, seen, r)
    ensures Selects(bridgeId, ports, seen + {i}, Visit(bridgeId, ports, r, i))
  {
    if r.Some? && Candidate(bridgeId, ports[i]) && r.value != i {
      SupersedesTotal(ports[r.value], ports[i]);
      forall q | q in seen && q < |ports| && q != r.value && Candidate(bridgeId, ports[q])
        && SupersedesRoot(ports[r.value], ports[i])
        ensures SupersedesRoot(ports[q], ports[i])
      {
        SupersedesTransitive(ports[q], ports[r.value], ports[i]);
      }
    }
  }

  // ---------------------------------------------------------------- scan order

  /** The same scan over the ports in an arbitrary order. */
  function Scan(bridgeId: nat, ports: seq<Port>, order: seq<nat>): (r: Option<nat>)
    requires forall k :: 0 <= k < |order| ==> order[k] < |ports|
    ensures r.Some? ==> r.value < |ports|
  {
    if order == [] then None
    else Visit(bridgeId, ports, Scan(bridgeId, ports, order[..|order| - 1]), order[|order| - 1])
  }

  lemma {:induction false} ScanSelects(bridgeId: nat, ports: seq<Port>, order: seq<nat>)
    requires forall k :: 0 <= k < |order| ==> order[k] < |ports|
    requires Numbered(ports)
    ensures Selects(bridgeId, ports, (set i | i in order), Scan(bridgeId, ports, order))
  {
    if order != [] {
      var front, last := order[..|order| - 1], order[|order| - 1];
      ScanSelects(bridgeId, ports, front);
      ScanStep(bridgeId, ports, (set i | i in front), Scan(bridgeId, ports, front), last);
      assert order == front + [last];
      assert (set i | i in order) == (set i | i in front) + {last};
    }
  }

  lemma SelectsUnique(bridgeId: nat, ports: seq<Port>, among: set<nat>, r: Option<nat>, q: Option<nat>)
    requires Numbered(ports)
    requires Selects(bridgeId, ports, among, r) && Selects(bridgeId, ports, among, q)
    ensures r == q
  {
    if r.Some? && q.Some? && r != q {
      assert ports[r.value].portId % 256 == r.value + 1 && ports[q.value].portId % 256 == q.value + 1;
      SupersedesTotal(ports[r.value], ports[q.value]);
      assert false;
    }
  }

  /** The chosen root port does not depend on the order in which the ports are scanned. */
  lemma ScanOrderIrrelevant(s: Bridge, order: seq<nat>)
    requires Numbered(s.ports)
    requires forall k :: 0 <= k < |order| ==> order[k] < |s.ports|
    requires forall i :: 0 <= i < |s.ports| ==> i in order
    ensures Scan(s.bridgeId, s.ports, order) == RootSelection(s).rootPort
  {
    ScanSelects(s.bridgeId, s.ports, order);
    BestRootSelects(s.bridgeId, s.ports, |s.ports|);
    assert (set i | i in order) == Below(|s.ports|);
    SelectsUnique(s.bridgeId, s.ports, Below(|s.ports|), Scan(s.bridgeId, s.ports, order),
                  BestRoot(s.bridgeId, s.ports, |s.ports|));
  }

  // ---------------------------------------------------------------- path cost zero

  /** Exactly when selection leaves the root port also designated: a free port on which
      this bridge would win the tie for the LAN. */
  lemma RootPortDesignatedExactly(s: Bridge)
    requires Numbered(s.ports) && RootSelection(s).rootPort.Some?
    ensures
      var r := RootSelection(s).rootPort.value;
      var p := s.ports[r];
      IsDesignated(s.bridgeId, ConfigurationUpdate(s).ports[r]) <==>
      p.pathCost == 0
      && (s.bridgeId < p.designatedBridge
          || (s.bridgeId == p.designatedBridge && p.portId <= p.designatedPort))
  {
    BestRootSelects(s.bridgeId, s.ports, |s.ports|);
  }
}

/** What a bridge makes of the config BPDUs it hears: whose times it goes by, what it passes
    on and where, and what it answers. */
module StpRelaying {
  import opened Wrappers
  import opened StpModel
  import opened StpSelection
  import opened StpInvariant
  import opened StpSteps
  import opened StpMessageAge
  import opened StpSending

  /** The port takes part and the BPDU beats what it holds. */
  predicate Accepts(s: Bridge, i: nat, c: Bpdu)
    requires i < |s.ports| && c.Config?
  {
    c.messageAge < c.maxAge <= 0xffff && Enabled(s.ports[i]) && SupersedesPortInfo(s, s.ports[i], c)
  }

  /** What port `j` needs to be told apart by: nothing selection does to a designated port. */
  lemma ReselectDesignated(s: Bridge, j: nat)
    requires j < |s.ports|
    ensures
      var t := Reselect(s);
      && t.bridgeId == s.bridgeId && t.bigEndian == s.bigEndian
      && t.ports[j].portId == s.ports[j].portId && t.ports[j].holdTimer == s.ports[j].holdTimer
      && (Enabled(t.ports[j]) <==> Enabled(s.ports[j]))
      && (Enabled(s.ports[j]) && t.rootPort != Some(j) && IsDesignated(t.bridgeId, t.ports[j]) ==>
            t.ports[j].topologyChangeAck == s.ports[j].topologyChangeAck)
  {
    var u := ConfigurationUpdate(s);
    assert Reselect(s).ports[j] == SelectState(u, j);
  }

  /** The root port as selection leaves it. */
  lemma ReselectRootPort(s: Bridge, i: nat)
    requires Ready(s) && i < |s.ports| && Reselect(s).rootPort == Some(i)
    ensures
      var t := Reselect(s);
      && t.ports[i].messageAgeTimer == s.ports[i].messageAgeTimer
      && t.designatedRoot == s.ports[i].designatedRoot
      && t.rootPathCost == s.ports[i].designatedCost + s.ports[i].pathCost
      && !IsRoot(t) && !IsDesignated(t.bridgeId, t.ports[i])
  {
    ReadyNumbered(s);
    BestRootSelects(s.bridgeId, s.ports, |s.ports|);
    ReselectSettles(s);
    InvMeans(Reselect(s));
    var u := ConfigurationUpdate(s);
    assert PortReady(s, i);
    UpdatedPort(s, i);
    assert Reselect(s).ports[i] == SelectState(u, i);
  }

  lemma ReselectTimes(s: Bridge)
    ensures
      var t := Reselect(s);
      && t.maxAge == s.maxAge && t.helloTime == s.helloTime && t.forwardDelay == s.forwardDelay
      && t.bigEndian == s.bigEndian
      && (t.sent == s.sent || exists r :: t.sent == s.sent + [Sent(r, Tcn)])
  {
    SelectTimes(ConfigurationUpdate(s));
  }

  lemma SelectTimes(s: Bridge)
    ensures
      var t := StateSelection(s);
      && t.maxAge == s.maxAge && t.helloTime == s.helloTime && t.forwardDelay == s.forwardDelay
      && t.bigEndian == s.bigEndian
      && (t.sent == s.sent || exists r :: t.sent == s.sent + [Sent(r, Tcn)])
  {
  }

  /** The bridge that hears `c`, as it is before it passes anything on. */
  function Heard(s: Bridge, i: nat, c: Bpdu): (b: Bridge)
    requires i < |s.ports| && c.Config?
    ensures |b.ports| == |s.ports| && RootPortInRange(b)
  {
    var a := Reselect(Record(s, i, c));
    if !IsRoot(a) && IsRoot(s) then StepDown(a) else a
  }

  /** Only topology change notifications were sent. */
  predicate OnlyTcns(s: Bridge, t: Bridge) {
    s.sent <= t.sent && forall k :: |s.sent| <= k < |t.sent| ==> t.sent[k].bpdu.Tcn?
  }

  lemma HeardTimes(s: Bridge, i: nat, c: Bpdu)
    requires i < |s.ports| && c.Config?
    ensures
      var b, a := Heard(s, i, c), Reselect(Record(s, i, c));
      && b.maxAge == s.maxAge && b.helloTime == s.helloTime && b.forwardDelay == s.forwardDelay
      && b.bigEndian == s.bigEndian && b.ports == a.ports && b.rootPort == a.rootPort && b.bridgeId == a.bridgeId
      && b.designatedRoot == a.designatedRoot && b.rootPathCost == a.rootPathCost && OnlyTcns(s, b)
  {
    ReselectTimes(Record(s, i, c));
    StepDownTimes(Reselect(Record(s, i, c)));
  }

  lemma StepDownTimes(a: Bridge)
    ensures
      var b := StepDown(a);
      && b.maxAge == a.maxAge && b.helloTime == a.helloTime && b.forwardDelay == a.forwardDelay
      && b.bigEndian == a.bigEndian && b.ports == a.ports && b.rootPort == a.rootPort && b.bridgeId == a.bridgeId
      && b.designatedRoot == a.designatedRoot && b.rootPathCost == a.rootPathCost && OnlyTcns(a, b)
  {
  }

  /** The times a bridge goes by: those of the BPDU it follows. One it does not follow is not passed on. */
  lemma FollowsTimes(s: Bridge, i: nat, c: Bpdu)
    requires i < |s.ports| && c.Config? && RootPortInRange(s) && Accepts(s, i, c)
    ensures
      var t := ReceivedConfig(s, i, c);
      if t.rootPort == Some(i)
      then t.maxAge == c.maxAge && t.helloTime == c.helloTime && t.forwardDelay == c.forwardDelay
      else t.maxAge == s.maxAge && t.helloTime == s.helloTime && t.forwardDelay == s.forwardDelay && OnlyTcns(s, t)
  {
    var b := Heard(s, i, c);
    HeardTimes(s, i, c);
    if b.rootPort == Some(i) { GenerateExact(RecordTimeouts(b, c), |b.ports|); }
  }

  /** What the bridge has to say once it follows `c` on port `i`: the same root, one hop and
      one tick further, with the root's times. */
  function PassedOn(s: Bridge, i: nat, c: Bpdu, j: nat): Bpdu
    requires i < |s.ports| && j < |s.ports| && c.Config?
  {
    Config(c.rootId, c.rootPathCost + s.ports[i].pathCost, s.bridgeId, s.ports[j].portId, c.messageAge + 1,
           c.maxAge, c.helloTime, c.forwardDelay,
           s.bigEndian && s.ports[j].topologyChangeAck, s.bigEndian && c.topologyChange)
  }

  lemma HeardRoot(s: Bridge, i: nat, c: Bpdu)
    requires Inv(s) && i < |s.ports| && c.Config? && Accepts(s, i, c) && c.rootPathCost < COST_LIMIT
    requires Heard(s, i, c).rootPort == Some(i)
    ensures
      var b := Heard(s, i, c);
      && !IsRoot(b) && SentAge(b) == c.messageAge + 1 && b.designatedRoot == c.rootId
      && b.rootPathCost == c.rootPathCost + s.ports[i].pathCost && b.bridgeId == s.bridgeId
      && !IsDesignated(b.bridgeId, b.ports[i])
  {
    RecordReady(s, i, c);
    HeardTimes(s, i, c);
    ReselectRootPort(Record(s, i, c), i);
    ReselectDesignated(Record(s, i, c), i);
  }

  lemma HeardSays(s: Bridge, i: nat, c: Bpdu, j: nat)
    requires Inv(s) && i < |s.ports| && c.Config? && Accepts(s, i, c) && c.rootPathCost < COST_LIMIT
    requires j < |s.ports| && Heard(s, i, c).rootPort == Some(i) && FreeToSend(Heard(s, i, c), j)
    ensures
      var d := RecordTimeouts(Heard(s, i, c), c);
      && (MaySpeak(d) <==> c.messageAge + 1 < c.maxAge) && !IsRoot(d) && ConfigOn(d, j) == PassedOn(s, i, c, j)
  {
    HeardRoot(s, i, c);
    HeardPort(s, i, c, j);
    TimedSays(s, i, c, j, Heard(s, i, c));
  }

  lemma HeardPort(s: Bridge, i: nat, c: Bpdu, j: nat)
    requires i < |s.ports| && c.Config? && j < |s.ports| && j != i
    requires Heard(s, i, c).rootPort == Some(i) && FreeToSend(Heard(s, i, c), j)
    ensures
      var b := Heard(s, i, c);
      && b.bigEndian == s.bigEndian && b.ports[j].portId == s.ports[j].portId
      && b.ports[j].topologyChangeAck == s.ports[j].topologyChangeAck
  {
    HeardTimes(s, i, c);
    ReselectDesignated(Record(s, i, c), j);
  }

  lemma TimedSays(s: Bridge, i: nat, c: Bpdu, j: nat, b: Bridge)
    requires i < |s.ports| && j < |s.ports| == |b.ports| && c.Config? && b.rootPort == Some(i) && !IsRoot(b)
    requires b.designatedRoot == c.rootId && b.rootPathCost == c.rootPathCost + s.ports[i].pathCost
    requires b.bridgeId == s.bridgeId && b.bigEndian == s.bigEndian && SentAge(b) == c.messageAge + 1
    requires b.ports[j].portId == s.ports[j].portId && b.ports[j].topologyChangeAck == s.ports[j].topologyChangeAck
    ensures
      var d := RecordTimeouts(b, c);
      && (MaySpeak(d) <==> c.messageAge + 1 < c.maxAge) && !IsRoot(d) && ConfigOn(d, j) == PassedOn(s, i, c, j)
  {
  }

  /** The ports free to pass it on are those designated afterwards and not under hold before. */
  lemma FreeWhenHeard(s: Bridge, i: nat, c: Bpdu, j: nat)
    requires Inv(s) && i < |s.ports| && c.Config? && Accepts(s, i, c) && c.rootPathCost < COST_LIMIT
    requires j < |s.ports| && ReceivedConfig(s, i, c).rootPort == Some(i)
    ensures
      var t := ReceivedConfig(s, i, c);
      FreeToSend(Heard(s, i, c), j) <==>
        Enabled(s.ports[j]) && IsDesignated(s.bridgeId, t.ports[j]) && !s.ports[j].holdTimer.active
  {
    var b := Heard(s, i, c);
    var d := RecordTimeouts(b, c);
    HeardTimes(s, i, c);
    ReselectDesignated(Record(s, i, c), j);
    GenerateExact(d, |d.ports|);
    assert PortSentFrom(d, ConfigGeneration(d), j);
  }

  /** A bridge that follows `c` passes it on, unless that is too old by then, on exactly the
      enabled designated ports that are not under hold; and what it sends is nothing else. */
  lemma PassesOnExactly(s: Bridge, i: nat, c: Bpdu, x: Sent)
    requires Inv(s) && i < |s.ports| && c.Config? && Accepts(s, i, c) && c.rootPathCost < COST_LIMIT
    requires ReceivedConfig(s, i, c).rootPort == Some(i) && x.bpdu.Config?
    ensures
      NewlySent(s, ReceivedConfig(s, i, c), x) <==>
        (&& x.port < |s.ports| && c.messageAge + 1 < c.maxAge
         && Enabled(s.ports[x.port]) && IsDesignated(s.bridgeId, ReceivedConfig(s, i, c).ports[x.port])
         && !s.ports[x.port].holdTimer.active && x.bpdu == PassedOn(s, i, c, x.port))
  {
    var b := Heard(s, i, c);
    var d := RecordTimeouts(b, c);
    var all := Announcements(d, |d.ports|);
    HeardTimes(s, i, c);
    GenerateExact(d, |d.ports|);
    AnnouncementsAre(d, |d.ports|, x);
    assert ReceivedConfig(s, i, c).sent == b.sent + all;
    SentInSecond(s.sent, b.sent, all, x);
    if x.port < |s.ports| {
      FreeWhenHeard(s, i, c, x.port);
      if FreeToSend(b, x.port) { HeardSays(s, i, c, x.port); }
    }
  }

  lemma SentInSecond(a: seq<Sent>, b: seq<Sent>, c: seq<Sent>, x: Sent)
    requires a <= b && x.bpdu.Config? && forall k :: |a| <= k < |b| ==> b[k].bpdu.Tcn?
    ensures a <= b + c
    ensures (exists k :: |a| <= k < |b + c| && (b + c)[k] == x) <==> x in c
  {
    if x in c {
      var k :| 0 <= k < |c| && c[k] == x;
      assert (b + c)[|b| + k] == x;
    }
  }

  /** Worse information on a designated port is answered with the bridge's own, at once or,
      under hold, when the hold time is over. */
  lemma WorseIsAnswered(s: Bridge, i: nat, c: Bpdu)
    requires Inv(s) && i < |s.ports| && c.Config? && c.messageAge < c.maxAge
    requires Enabled(s.ports[i]) && IsDesignated(s.bridgeId, s.ports[i]) && !SupersedesPortInfo(s, s.ports[i], c)
    ensures
      var t := ReceivedConfig(s, i, c);
      if s.ports[i].holdTimer.active then t.sent == s.sent && Waits(t, i, s.ports[i].holdTimer)
      else MaySpeak(s) ==> NewlySent(s, t, Sent(i, ConfigOn(s, i)))
  {
    InvMeans(s);
    if !s.ports[i].holdTimer.active && MaySpeak(s) { TransmitSends(s, i); }
  }

  /** Information as old as its max age, or for a disabled port, is ignored. */
  lemma StaleIsIgnored(s: Bridge, i: nat, c: Bpdu)
    requires i < |s.ports| && c.Config? && RootPortInRange(s)
    requires c.messageAge >= c.maxAge || !Enabled(s.ports[i])
    ensures ReceivedConfig(s, i, c) == s
  {
  }
}

/** Which connections come back by themselves: a reliable one is never given up. */
module RconnReliable {
  import opened Wrappers
  import opened RconnModel
  import opened RconnRuns
  import opened RconnProgress

  /** A void connection is as it was created: nothing is kept of an earlier one. */
  predicate Fresh(r: Rconn) {
    r.state == Void ==> !r.reliable && r.backoff == 0 && r.backoffDeadline == TIME_MIN
  }

  /** `t` is fresh, keeps the settings, and is as reliable as `r` unless a reopening took that away. */
  predicate Keeps(r: Rconn, open: Open, t: Rconn) {
    && Fresh(t) && t.probeInterval == r.probeInterval && t.maxBackoff == r.maxBackoff
    && r.attempts <= t.attempts
    && (t.reliable <==> r.reliable && !(open == Opened(false) && r.attempts < t.attempts))
  }

  lemma DropKeeps(r: Rconn, now: nat, open: Open)
    requires Fresh(r) && r.state != Void
    ensures Keeps(r, open, Drop(r, now)) && Drop(r, now).attempts == r.attempts
  {
  }

  lemma TrySendKeeps(r: Rconn, now: nat, open: Open)
    requires Inv(r) && Connected(r.state) && r.txq != []
    ensures Keeps(r, open, TrySend(r, now)) && TrySend(r, now).attempts == r.attempts
  {
    var a := r.(sends := if r.sends == [] then [] else r.sends[1..], idleEchoXid := 0);
    if NextSend(r) == Failed { DropKeeps(a, now, open); }
  }

  lemma {:induction false} TxWorkKeeps(r: Rconn, now: nat, open: Open)
    requires Inv(r) && Connected(r.state)
    ensures Keeps(r, open, DoTxWork(r, now)) && DoTxWork(r, now).attempts == r.attempts
    decreases |r.txq|
  {
    if r.txq != [] {
      TrySendKeeps(r, now, open);
      TrySendInv(r, now);
      if NextSend(r) == Done { TxWorkKeeps(TrySend(r, now), now, open); }
    }
  }

  lemma SendKeeps(r: Rconn, now: nat, p: Packet, open: Open)
    requires Inv(r) && Fresh(r) && (p.counter.Some? ==> p.counter.value in r.counters)
    ensures Keeps(r, open, Send(r, now, p)) && Send(r, now, p).attempts == r.attempts
  {
    if Connected(r.state) && r.txq == [] {
      var a := Enqueue(r, p);
      assert Inv(a);
      TrySendKeeps(a, now, open);
    }
  }

  lemma ReconnectKeeps(r: Rconn, now: nat, open: Open)
    requires Fresh(r) && r.reliable
    ensures Keeps(r, open, Reconnect(r, now, open)) && Reconnect(r, now, open).attempts == r.attempts + 1
  {
  }

  lemma ConnectingKeeps(r: Rconn, now: nat, connect: Io, open: Open)
    requires Fresh(r) && r.state == Connecting
    ensures Keeps(r, open, RunConnecting(r, now, connect)) && RunConnecting(r, now, connect).attempts == r.attempts
  {
  }

  lemma RunStateKeeps(r: Rconn, now: nat, open: Open, connect: Io, echoXid: nat)
    requires Inv(r) && Fresh(r) && now < UINT_MAX
    ensures Keeps(r, open, RunState(r, now, open, connect, echoXid))
  {
    match r.state
    case Void =>
    case Backoff => if TimedOut(r, now) { ReconnectKeeps(r, now, open); }
    case Connecting => ConnectingKeeps(r, now, connect, open);
    case Active =>
      if TimedOut(r, now) {
        TransitionParity(r, Idle, now);
        SendKeeps(Transition(r, Idle, now), now, Packet(echoXid, None), open);
      } else {
        TxWorkKeeps(r, now, open);
      }
    case Idle => if !TimedOut(r, now) { TxWorkKeeps(r, now, open); }
  }

  lemma {:induction false} RunKeeps(r: Rconn, now: nat, open: Open, connect: Io, echoXid: nat)
    requires Inv(r) && Fresh(r) && now < UINT_MAX
    ensures Keeps(r, open, Run(r, now, open, connect, echoXid))
    decreases Passes(r, now)
  {
    RunStateKeeps(r, now, open, connect, echoXid);
    RunStateInv(r, now, open, connect, echoXid);
    var t := RunState(r, now, open, connect, echoXid);
    if t.state != r.state { RunKeeps(t, now, open, connect, echoXid); }
  }

  // ---------------------------------------------------------------- one call

  /** Whether a connection is reliable after a call, told from before. */
  predicate ReliableNext(r: Rconn, e: Event, t: Rconn) {
    match e
    case EConnect(open) => open != Opened(false)
    case EConnectUnreliably => false
    case EDisconnect => false
    case ERun(open, _, _) => r.reliable && !(open == Opened(false) && r.attempts < t.attempts)
    case _ => r.reliable
  }

  lemma ConnectReliable(r: Rconn, now: nat, open: Open)
    requires Inv(r) && Fresh(r)
    ensures
      var t := Connect(r, now, open);
      && Fresh(t) && (t.reliable <==> open != Opened(false))
      && t.probeInterval == r.probeInterval && t.maxBackoff == r.maxBackoff
  {
  }

  /** A connection is made reliable by `rconn_connect` only, and stays so until it is connected
      otherwise, disconnected, or reopened to something that cannot be reopened. */
  lemma StepReliable(r: Rconn, e: Timed)
    requires Inv(r) && Fresh(r) && Legal(e, r.counters.Keys)
    ensures
      var t := Step(r, e);
      && Fresh(t) && (t.reliable <==> ReliableNext(r, e.event, t))
      && t.probeInterval == r.probeInterval && t.maxBackoff == r.maxBackoff
  {
    match e.event
    case EConnect(open) => ConnectReliable(r, e.now, open);
    case EConnectUnreliably =>
    case EDisconnect =>
    case ERun(open, connect, echoXid) => RunKeeps(r, e.now, open, connect, echoXid);
    case ERecv(d) => if Connected(r.state) { DropKeeps(r, e.now, Refused); }
    case ESend(p) => SendKeeps(r, e.now, p, Refused);
    case ESendLimited(p, limit) => SendKeeps(r, e.now, p, Refused);
  }

  // ---------------------------------------------------------------- whole runs

  predicate Reopens(e: Event) {
    match e
    case EConnect(open) => open != Opened(false)
    case ERun(open, _, _) => open != Opened(false)
    case _ => true
  }

  /** Whether the last call that says how to connect asks for a reliable connection. */
  predicate Wanted(es: seq<Timed>) {
    if es == [] then false
    else
      match es[|es| - 1].event
      case EConnect(_) => true
      case EConnectUnreliably => false
      case EDisconnect => false
      case _ => Wanted(es[..|es| - 1])
  }

  lemma {:induction false} RunReliable(r: Rconn, es: seq<Timed>)
    requires Inv(r) && Fresh(r) && !r.reliable && AllLegal(es, r.counters.Keys)
    ensures
      var t := After(r, es);
      && Fresh(t) && (t.reliable ==> Wanted(es))
      && ((forall i :: 0 <= i < |es| ==> Reopens(es[i].event)) ==> (t.reliable <==> Wanted(es)))
      && t.probeInterval == r.probeInterval && t.maxBackoff == r.maxBackoff
  {
    if es != [] {
      var front, e := es[..|es| - 1], es[|es| - 1];
      RunReliable(r, front);
      StepReliable(After(r, front), e);
      if forall i :: 0 <= i < |es| ==> Reopens(es[i].event) {
        assert forall i :: 0 <= i < |front| ==> Reopens(front[i].event);
        assert Reopens(es[|es| - 1].event);
      }
    }
  }

  /** Over every run from a new connection: one that is wanted, to a peer that can be reopened,
      is never given up, whatever fails and however often; one that is not is never reopened. Its
      waits stay within the bound asked for, a minute where none was. */
  lemma NeverGivesUp(probeInterval: nat, maxBackoff: nat, now: nat, counters: map<nat, int>, sends: seq<Io>, es: seq<Timed>)
    requires AllLegal(es, counters.Keys)
    ensures
      var r := Create(probeInterval, maxBackoff, now, counters, sends);
      && Inv(r)
      && var t := After(r, es);
      && t.maxBackoff == (if maxBackoff == 0 then 60 else maxBackoff) && t.backoff <= t.maxBackoff
      && t.probeInterval == probeInterval
      && (!Wanted(es) ==> t.state != Backoff)
      && (Wanted(es) && (forall i :: 0 <= i < |es| ==> Reopens(es[i].event)) ==> t.state != Void)
  {
    var r := Create(probeInterval, maxBackoff, now, counters, sends);
    assert InOrder(r);
    RunReliable(r, es);
  }

  // ---------------------------------------------------------------- losing a connection

  /** A connection whose receiving fails is lost, and nothing else about receiving loses one. */
  lemma ErrorIsLoss(r: Rconn, now: nat, d: Delivery)
    requires Inv(r)
    ensures
      var t := Recv(r, now, d);
      if Connected(r.state) && d.Error? then t.state == (if r.reliable then Backoff else Void) && !t.vconn
      else t.vconn == r.vconn && t.attempts == r.attempts
           && (Connected(t.state) <==> Connected(r.state)) && (!Connected(r.state) ==> t == r)
  {
  }

  /** A connection handed over is up at once, and lost for good when it fails. */
  lemma HandedOver(r: Rconn, now: nat, later: nat)
    requires Inv(r)
    ensures
      var t := ConnectUnreliably(r, now);
      && Inv(t) && t.state == Active && t.stateEntered == now && t.lastConnected == now
      && Recv(t, later, Error).state == Void
  {
    ConnectUnreliablyInv(r, now);
  }

  /** One reopened to something that cannot be is lost for good too. */
  lemma NotReopened(r: Rconn, now: nat, echoXid: nat)
    requires Inv(r) && now < UINT_MAX && r.state == Backoff && TimedOut(r, now)
    ensures Run(r, now, Opened(false), Failed, echoXid).state == Void
  {
    ReconnectInv(r, now, Opened(false));
    var t := Reconnect(r, now, Opened(false));
    assert Run(r, now, Opened(false), Failed, echoXid) == Run(t, now, Opened(false), Failed, echoXid);
    ConnectedAtOnce(t, now, Opened(false), Failed, echoXid);
  }

  /** A probe the underlying connection does not take waits, and until it goes out any message
      at all, an old echo reply too, revives the connection. */
  lemma ProbeWaits(r: Rconn, now: nat, open: Open, connect: Io, echoXid: nat, later: nat, echoReply: bool, xid: nat)
    requires Inv(r) && now < UINT_MAX && r.state == Active && TimedOut(r, now) && r.probeInterval > 0
    requires r.txq == [] && NextSend(r) == Again && AnswerAfter(r.sends, 1) == Again
    ensures
      var t := Run(r, now, open, connect, echoXid);
      && t.state == Idle && t.txq == [Packet(echoXid, None)] && t.gone == r.gone
      && Recv(t, later, Message(echoReply, xid)).state == Active
  {
    var i, p := Transition(r, Idle, now), Packet(echoXid, None);
    TransitionParity(r, Idle, now);
    RunActiveInv(r, now, echoXid);
    var t := RunState(r, now, open, connect, echoXid);
    assert t.txq == [p] && t.state == Idle && NextSend(t) == Again;
    FreshNotTimedOut(t, now);
    RunIsTxWork(t, now, open, connect, echoXid);
  }
}

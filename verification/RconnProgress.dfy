/** A connection gets on: what waits is sent, silence is probed, an answer is heard, and a
    connection that is lost is opened again. */
module RconnProgress {
  import opened Wrappers
  import opened RconnModel
  import opened RconnRuns
  import RconnLimits

  // ---------------------------------------------------------------- sending

  /** How many of the next `k` sends the underlying connection takes, one after another. */
  function DoneRun(sends: seq<Io>, k: nat): (n: nat)
    ensures n <= k && n <= |sends|
  {
    if k == 0 || sends == [] || sends[0] != Done then 0 else 1 + DoneRun(sends[1..], k - 1)
  }

  function AllSent(q: seq<Packet>): (g: seq<Gone>)
    ensures |g| == |q| && forall i :: 0 <= i < |q| ==> g[i] == Sent(q[i])
  {
    seq(|q|, i requires 0 <= i < |q| => Sent(q[i]))
  }

  /** How the sends answer once the first `n` were taken. */
  function AnswerAfter(sends: seq<Io>, n: nat): Io {
    if n < |sends| then sends[n] else Again
  }

  /** The first `n` packets of `q` are gone, sent, and the rest wait or went with the connection. */
  predicate SentFirst(r: Rconn, n: nat, t: Rconn) {
    && n <= |r.txq|
    && if n == |r.txq| then
         t.txq == [] && t.gone == r.gone + AllSent(r.txq) && t.state == r.state
       else if AnswerAfter(r.sends, n) == Failed then
         && t.state == (if r.reliable then Backoff else Void)
         && (if r.reliable then t.txq == [] && t.gone == r.gone + AllSent(r.txq[..n]) + AllDropped(r.txq[n..])
             else t.txq == r.txq[n..] && t.gone == r.gone + AllSent(r.txq[..n]))
       else
         t.txq == r.txq[n..] && t.gone == r.gone + AllSent(r.txq[..n]) && t.state == r.state
  }

  lemma SentOneMore(q: seq<Packet>, n: nat, g: seq<Gone>)
    requires q != [] && 0 < n <= |q|
    ensures g + [Sent(q[0])] + AllSent(q[1..][..n - 1]) == g + AllSent(q[..n]) && q[1..][n - 1..] == q[n..]
  {
    assert AllSent(q[..n]) == [Sent(q[0])] + AllSent(q[1..][..n - 1]);
  }

  lemma SentRest(r: Rconn, s: Rconn, n: nat, t: Rconn)
    requires r.txq != [] && 0 < n <= |r.txq| && r.sends != []
    requires s.txq == r.txq[1..] && s.sends == r.sends[1..] && s.gone == r.gone + [Sent(r.txq[0])]
    requires s.state == r.state && s.reliable == r.reliable && SentFirst(s, n - 1, t)
    ensures SentFirst(r, n, t)
  {
    SentOneMore(r.txq, n, r.gone);
    assert AnswerAfter(s.sends, n - 1) == AnswerAfter(r.sends, n);
    assert n == |r.txq| ==> r.txq[..n] == r.txq && r.txq[1..][..n - 1] == r.txq[1..];
  }

  lemma TrySendFirst(r: Rconn, now: nat)
    requires Inv(r) && Connected(r.state) && r.txq != [] && NextSend(r) != Done
    ensures SentFirst(r, 0, TrySend(r, now))
  {
    assert AllSent(r.txq[..0]) == [] && r.txq[0..] == r.txq;
    assert r.gone + [] == r.gone;
  }

  /** Working on the queue sends its packets in order, as many as the underlying connection
      takes: all of them, or all before the first answer that is not success. */
  lemma {:induction false} TxWorkSends(r: Rconn, now: nat)
    requires Inv(r) && Connected(r.state)
    ensures SentFirst(r, DoneRun(r.sends, |r.txq|), DoTxWork(r, now))
    decreases |r.txq|
  {
    if r.txq == [] {
      assert r.gone + AllSent(r.txq) == r.gone;
    } else if NextSend(r) == Done {
      TrySendInv(r, now);
      TxWorkSends(TrySend(r, now), now);
      SentRest(r, TrySend(r, now), DoneRun(r.sends, |r.txq|), DoTxWork(r, now));
    } else {
      TrySendFirst(r, now);
    }
  }

  /** On a connection that has not timed out, `rconn_run` works on the queue and no more. */
  lemma RunIsTxWork(r: Rconn, now: nat, open: Open, connect: Io, echoXid: nat)
    requires Inv(r) && now < UINT_MAX && Connected(r.state) && !TimedOut(r, now)
    ensures Run(r, now, open, connect, echoXid) == DoTxWork(r, now)
  {
    DoTxWorkInv(r, now);
    var t := DoTxWork(r, now);
    if t.state != r.state { RconnLimits.BrokenStays(t, now, open, connect, echoXid); }
  }

  /** So a packet that waits is sent as soon as the connection is run and takes it. */
  lemma WaitingIsSent(r: Rconn, now: nat, open: Open, connect: Io, echoXid: nat)
    requires Inv(r) && now < UINT_MAX && Connected(r.state) && !TimedOut(r, now)
    requires |r.txq| <= |r.sends| && forall i :: 0 <= i < |r.txq| ==> r.sends[i] == Done
    ensures
      var t := Run(r, now, open, connect, echoXid);
      t.txq == [] && t.gone == r.gone + AllSent(r.txq) && t.state == r.state
  {
    RunIsTxWork(r, now, open, connect, echoXid);
    TxWorkSends(r, now);
    AllDone(r.sends, |r.txq|);
  }

  lemma {:induction false} AllDone(sends: seq<Io>, k: nat)
    requires k <= |sends| && forall i :: 0 <= i < k ==> sends[i] == Done
    ensures DoneRun(sends, k) == k
  {
    if k > 0 { AllDone(sends[1..], k - 1); }
  }

  /** A packet is accepted if and only if the connection is up, and a limited one only while
      its counter is below the limit. */
  lemma AcceptedExactly(r: Rconn, now: nat, p: Packet, limit: int)
    requires Inv(r) && p.counter.Some? && p.counter.value in r.counters
    ensures Send(r, now, p).accepted == if Connected(r.state) then r.accepted + [p] else r.accepted
    ensures SendWithLimit(r, now, p, limit).accepted
            == if Connected(r.state) && r.counters[p.counter.value] < limit then r.accepted + [p] else r.accepted
  {
  }

  /** One sent to an idle queue goes out at once if the underlying connection takes it. */
  lemma SentAtOnce(r: Rconn, now: nat, p: Packet)
    requires Inv(r) && Connected(r.state) && r.txq == [] && NextSend(r) == Done
    ensures Send(r, now, p).txq == [] && Send(r, now, p).gone == r.gone + [Sent(p)]
  {
    assert [p][1..] == [];
  }

  // ---------------------------------------------------------------- silence

  /** The last sign of life of an active connection. */
  function LastHeard(r: Rconn): nat { Max(r.lastReceived, r.stateEntered) }

  /** An active connection is not probed, let alone dropped for silence, before a probe interval
      has passed since it last heard anything; and is then. */
  lemma ProbedExactly(r: Rconn, now: nat)
    requires Inv(r) && r.state == Active && r.probeInterval > 0
    requires LastHeard(r) + r.probeInterval <= UINT_MAX && now < UINT_MAX
    ensures TimedOut(r, now) <==> now >= LastHeard(r) + r.probeInterval
  {
  }

  /** Silence has a probe queued behind all else, whatever becomes of the connection then. */
  lemma SilenceIsProbed(r: Rconn, now: nat, open: Open, connect: Io, echoXid: nat)
    requires Inv(r) && now < UINT_MAX && r.state == Active && TimedOut(r, now) && r.probeInterval > 0
    ensures Run(r, now, open, connect, echoXid).accepted == r.accepted + [Packet(echoXid, None)]
    ensures Run(r, now, open, connect, echoXid).state != Active
  {
    var i, p := Transition(r, Idle, now), Packet(echoXid, None);
    TransitionParity(r, Idle, now);
    SendInv(i, now, p);
    RunActiveInv(r, now, echoXid);
    var t := Send(i, now, p);
    assert t.accepted == r.accepted + [p];
    if t.state == Idle {
      FreshNotTimedOut(t, now);
      RunIsTxWork(t, now, open, connect, echoXid);
      RconnLimits.TxWorkAccepts(t, now);
      DoTxWorkInv(t, now);
    } else {
      RconnLimits.BrokenStays(t, now, open, connect, echoXid);
    }
  }

  /** With nothing else to send it goes out at once. */
  lemma ProbeIsSent(r: Rconn, now: nat, open: Open, connect: Io, echoXid: nat)
    requires Inv(r) && now < UINT_MAX && r.state == Active && TimedOut(r, now)
    requires r.txq == [] && NextSend(r) == Done && r.probeInterval > 0
    ensures
      var t := Run(r, now, open, connect, echoXid);
      && t.state == Idle && t.txq == [] && t.gone == r.gone + [Sent(Packet(echoXid, None))]
      && t.idleEchoXid == echoXid && t.stateEntered == now
  {
    var i, p := Transition(r, Idle, now), Packet(echoXid, None);
    TransitionParity(r, Idle, now);
    SentAtOnce(i, now, p);
    RunActiveInv(r, now, echoXid);
    var t := RunState(r, now, open, connect, echoXid);
    FreshNotTimedOut(t, now);
    RunIsTxWork(t, now, open, connect, echoXid);
  }

  /** No answer for another probe interval, and the connection is given up. */
  lemma UnansweredIsDropped(r: Rconn, now: nat, open: Open, connect: Io, echoXid: nat)
    requires Inv(r) && now < UINT_MAX && r.state == Idle && TimedOut(r, now)
    ensures Run(r, now, open, connect, echoXid) == Drop(r, now) && !HasVconn(Drop(r, now).state)
  {
    DropInv(r, now);
    RconnLimits.BrokenStays(Drop(r, now), now, open, connect, echoXid);
  }

  /** Which is a probe interval after it was entered, and not before. */
  lemma DroppedExactly(r: Rconn, now: nat)
    requires Inv(r) && r.state == Idle && r.stateEntered + r.probeInterval <= UINT_MAX
    ensures TimedOut(r, now) <==> now >= r.stateEntered + r.probeInterval
  {
  }

  /** An idle connection is active again on any message but the reply to an older probe. */
  lemma HeardExactly(r: Rconn, now: nat, echoReply: bool, xid: nat)
    requires Inv(r) && Connected(r.state)
    ensures
      var t := Recv(r, now, Message(echoReply, xid));
      && t.lastReceived == now && t.txq == r.txq
      && (t.state == Active <==> r.state == Active || !(echoReply && r.idleEchoXid != 0 && r.idleEchoXid != xid))
      && (t.state == Active || (t.state == Idle && t.stateEntered == r.stateEntered && t.idleEchoXid == 0))
  {
  }

  /** The reply to the probe itself always does. */
  lemma ReplyRevives(r: Rconn, now: nat, open: Open, connect: Io, echoXid: nat, later: nat)
    requires Inv(r) && now < UINT_MAX && r.state == Active && TimedOut(r, now)
    requires r.txq == [] && NextSend(r) == Done && r.probeInterval > 0
    ensures Recv(Run(r, now, open, connect, echoXid), later, Message(true, echoXid)).state == Active
  {
    ProbeIsSent(r, now, open, connect, echoXid);
    HeardExactly(Run(r, now, open, connect, echoXid), later, true, echoXid);
  }

  /** A message within the probe interval, and an active connection that is run within the
      next one stays active as long as its sends do not fail. */
  lemma MessagesKeepAlive(r: Rconn, heard: nat, echoReply: bool, xid: nat, now: nat, open: Open, connect: Io, echoXid: nat)
    requires Inv(r) && r.state == Active && r.probeInterval > 0 && now < UINT_MAX
    requires r.stateEntered <= heard && now < heard + r.probeInterval <= UINT_MAX
    requires forall i :: 0 <= i < |r.sends| ==> r.sends[i] != Failed
    ensures Run(Recv(r, heard, Message(echoReply, xid)), now, open, connect, echoXid).state == Active
  {
    var s := Recv(r, heard, Message(echoReply, xid));
    RecvInv(r, heard, Message(echoReply, xid));
    ProbedExactly(s, now);
    RunIsTxWork(s, now, open, connect, echoXid);
    TxWorkSends(s, now);
  }

  // ---------------------------------------------------------------- coming back

  /** A connection that backs off is opened again when its wait is over, and not before. */
  lemma ReopenedExactly(r: Rconn, now: nat, open: Open, echoXid: nat)
    requires Inv(r) && now < UINT_MAX && r.state == Backoff && r.stateEntered + r.backoff <= UINT_MAX
    ensures
      var t := Run(r, now, open, Again, echoXid);
      if now < r.stateEntered + r.backoff then t == r
      else t.attempts == r.attempts + 1 && (if open.Opened? then t.state == Connecting else t.state == Backoff)
  {
    if TimedOut(r, now) {
      ReconnectInv(r, now, open);
      var t := Reconnect(r, now, open);
      FreshNotTimedOut(t, now);
    }
  }

  /** A connection that is being opened becomes active, and works on what its queue holds, or
      backs off, as soon as that is decided. */
  lemma ConnectedAtOnce(r: Rconn, now: nat, open: Open, connect: Io, echoXid: nat)
    requires Inv(r) && now < UINT_MAX && r.state == Connecting && connect != Again
    ensures
      var t := Run(r, now, open, connect, echoXid);
      if connect == Done then
        var a := r.(state := Active, stateEntered := now, lastConnected := now);
        t.lastConnected == now && SentFirst(a, DoneRun(r.sends, |r.txq|), t)
      else t.state == (if r.reliable then Backoff else Void)
  {
    RunConnectingInv(r, now, connect);
    var t := RunConnecting(r, now, connect);
    if connect == Done {
      FreshNotTimedOut(t, now);
      RunIsTxWork(t, now, open, connect, echoXid);
      TxWorkSends(t, now);
      LastConnectedStays(t, now);
    } else {
      DropInv(r, now);
      RconnLimits.BrokenStays(t, now, open, connect, echoXid);
    }
  }

  lemma {:induction false} LastConnectedStays(r: Rconn, now: nat)
    requires Inv(r) && Connected(r.state)
    ensures DoTxWork(r, now).lastConnected == r.lastConnected
    decreases |r.txq|
  {
    if r.txq != [] && NextSend(r) == Done {
      TrySendInv(r, now);
      LastConnectedStays(TrySend(r, now), now);
    }
  }
}

/** What holds over every run of a reliable connection. */
module RconnRuns {
  import opened Wrappers
  import opened RconnModel

  // ---------------------------------------------------------------- the state invariant

  lemma TransitionParity(r: Rconn, to: State, now: nat)
    requires r.seqno % 2 == 1 <==> r.state == Active
    ensures Transition(r, to, now).seqno % 2 == 1 <==> to == Active
  {
  }

  lemma CloseInv(r: Rconn, now: nat)
    requires Inv(r)
    ensures Inv(Close(r, now)) && Close(r, now).state == Void
  {
    TransitionParity(r, Void, now);
  }

  lemma {:induction false} UncountKeys(counters: map<nat, int>, q: seq<Packet>)
    ensures Uncount(counters, q).Keys == counters.Keys
    decreases |q|
  {
    if q != [] { UncountKeys(Add(counters, q[0], -1), q[1..]); }
  }

  lemma DropInv(r: Rconn, now: nat)
    requires Inv(r)
    ensures Inv(Drop(r, now)) && Drop(r, now).stateEntered == (if r.state == Void && !r.reliable then r.stateEntered else now)
    ensures Drop(r, now).state == (if r.reliable then Backoff else Void)
  {
    UncountKeys(r.counters, r.txq);
    TransitionParity(r, if r.reliable then Backoff else Void, now);
  }

  lemma ReconnectInv(r: Rconn, now: nat, open: Open)
    requires Inv(r) && !r.vconn && r.reliable
    ensures Inv(Reconnect(r, now, open)) && Reconnect(r, now, open).stateEntered == now
    ensures Reconnect(r, now, open).state == (if open.Opened? then Connecting else Backoff)
  {
    TransitionParity(r, Connecting, now);
    DropInv(r.(attempts := r.attempts + 1, vconn := false, backoffDeadline := TIME_MAX), now);
  }

  lemma TrySendInv(r: Rconn, now: nat)
    requires Inv(r) && Connected(r.state) && r.txq != []
    ensures Inv(TrySend(r, now))
    ensures var t := TrySend(r, now);
      if NextSend(r) == Failed then t.stateEntered == now && t.state == (if r.reliable then Backoff else Void)
      else t.state == r.state && t.stateEntered == r.stateEntered
  {
    var a := r.(sends := if r.sends == [] then [] else r.sends[1..], idleEchoXid := 0);
    DropInv(a, now);
  }

  lemma {:induction false} DoTxWorkInv(r: Rconn, now: nat)
    requires Inv(r) && Connected(r.state)
    ensures Inv(DoTxWork(r, now))
    ensures var t := DoTxWork(r, now);
      || (t.state == r.state && t.stateEntered == r.stateEntered)
      || (t.stateEntered == now && t.state == (if r.reliable then Backoff else Void))
    decreases |r.txq|
  {
    if r.txq != [] {
      TrySendInv(r, now);
      if NextSend(r) == Done { DoTxWorkInv(TrySend(r, now), now); }
    }
  }

  lemma SendInv(r: Rconn, now: nat, p: Packet)
    requires Inv(r) && (p.counter.Some? ==> p.counter.value in r.counters)
    ensures Inv(Send(r, now, p))
    ensures var t := Send(r, now, p);
      || (t.state == r.state && t.stateEntered == r.stateEntered)
      || (Connected(r.state) && t.stateEntered == now && t.state == (if r.reliable then Backoff else Void))
  {
    if Connected(r.state) {
      var a := Enqueue(r, p);
      assert Inv(a);
      if r.txq == [] { TrySendInv(a, now); }
    }
  }

  lemma ConnectInv(r: Rconn, now: nat, open: Open)
    requires Inv(r)
    ensures Inv(Connect(r, now, open)) && Connect(r, now, open).stateEntered == now
  {
    CloseInv(r, now);
    ReconnectInv(Close(r, now).(reliable := true), now, open);
  }

  lemma ConnectUnreliablyInv(r: Rconn, now: nat)
    requires Inv(r)
    ensures Inv(ConnectUnreliably(r, now)) && ConnectUnreliably(r, now).stateEntered == now
  {
    CloseInv(r, now);
    TransitionParity(Close(r, now), Active, now);
  }

  lemma RecvInv(r: Rconn, now: nat, d: Delivery)
    requires Inv(r)
    ensures Inv(Recv(r, now, d))
    ensures Recv(r, now, d).stateEntered == r.stateEntered || Recv(r, now, d).stateEntered == now
  {
    DropInv(r, now);
    TransitionParity(r, Active, now);
  }

  // ---------------------------------------------------------------- rconn_run

  /** A state entered at this clock reading has not timed out yet. */
  lemma FreshNotTimedOut(r: Rconn, now: nat)
    requires Inv(r) && now < UINT_MAX && r.stateEntered == now
    ensures !TimedOut(r, now)
  {
  }

  lemma RunConnectingInv(r: Rconn, now: nat, connect: Io)
    requires Inv(r) && r.state == Connecting
    ensures var t := RunConnecting(r, now, connect);
      Inv(t) && (t.state == Connecting || (t.stateEntered == now && t.state != Idle))
  {
    TransitionParity(r, Active, now);
    DropInv(r, now);
    DropInv(r.(backoffDeadline := TIME_MAX), now);
  }

  lemma RunActiveInv(r: Rconn, now: nat, echoXid: nat)
    requires Inv(r) && r.state == Active && now < UINT_MAX
    ensures var t := RunState(r, now, Refused, Again, echoXid);
      && Inv(t) && t.state != Connecting
      && (t.state == Active ==> t.stateEntered == r.stateEntered) && (t.state != Active ==> t.stateEntered == now)
  {
    if TimedOut(r, now) {
      TransitionParity(r, Idle, now);
      SendInv(Transition(r, Idle, now), now, Packet(echoXid, None));
    } else {
      DoTxWorkInv(r, now);
    }
  }

  lemma RunIdleInv(r: Rconn, now: nat)
    requires Inv(r) && r.state == Idle
    ensures var t := RunState(r, now, Refused, Again, 0);
      Inv(t) && (t.state == Idle || (t.stateEntered == now && (t.state == Backoff || t.state == Void)))
  {
    if TimedOut(r, now) {
      DropInv(r, now);
    } else {
      DoTxWorkInv(r, now);
    }
  }

  /** A pass keeps the invariant, and moves to another state only towards the end of the loop. */
  lemma RunStateInv(r: Rconn, now: nat, open: Open, connect: Io, echoXid: nat)
    requires Inv(r) && now < UINT_MAX
    ensures var t := RunState(r, now, open, connect, echoXid);
      Inv(t) && (t.state != r.state ==> Passes(t, now) < Passes(r, now) && t.stateEntered == now)
  {
    var t := RunState(r, now, open, connect, echoXid);
    match r.state
    case Void =>
    case Backoff => if TimedOut(r, now) { ReconnectInv(r, now, open); }
    case Connecting => RunConnectingInv(r, now, connect);
    case Active => RunActiveInv(r, now, echoXid);
    case Idle => RunIdleInv(r, now);
    if t.state != r.state { FreshNotTimedOut(t, now); }
  }

  /** `rconn_run`: it ends at any fixed clock reading. */
  function Run(r: Rconn, now: nat, open: Open, connect: Io, echoXid: nat): (t: Rconn)
    requires Inv(r) && now < UINT_MAX
    ensures Inv(t)
    decreases Passes(r, now)
  {
    RunStateInv(r, now, open, connect, echoXid);
    var t := RunState(r, now, open, connect, echoXid);
    if t.state == r.state then t else Run(t, now, open, connect, echoXid)
  }

  // ---------------------------------------------------------------- events

  datatype Event =
    | EConnect(open: Open)
    | EConnectUnreliably
    | EDisconnect
    | ERun(open: Open, connect: Io, echoXid: nat)
    | ERecv(delivery: Delivery)
    | ESend(packet: Packet)
    | ESendLimited(packet: Packet, limit: int)

  datatype Timed = Timed(now: nat, event: Event)

  predicate Legal(e: Timed, counters: set<nat>) {
    && e.now < UINT_MAX
    && (e.event.ESend? && e.event.packet.counter.Some? ==> e.event.packet.counter.value in counters)
    && (e.event.ESendLimited? ==> e.event.packet.counter.Some? && e.event.packet.counter.value in counters)
  }

  function Step(r: Rconn, e: Timed): (t: Rconn)
    requires Inv(r) && Legal(e, r.counters.Keys)
  {
    match e.event
    case EConnect(open) => Connect(r, e.now, open)
    case EConnectUnreliably => ConnectUnreliably(r, e.now)
    case EDisconnect => Close(r, e.now)
    case ERun(open, connect, echoXid) => Run(r, e.now, open, connect, echoXid)
    case ERecv(d) => Recv(r, e.now, d)
    case ESend(p) => Send(r, e.now, p)
    case ESendLimited(p, limit) => SendWithLimit(r, e.now, p, limit)
  }

  lemma StepInv(r: Rconn, e: Timed)
    requires Inv(r) && Legal(e, r.counters.Keys)
    ensures Inv(Step(r, e))
  {
    match e.event
    case EConnect(open) => ConnectInv(r, e.now, open);
    case EConnectUnreliably => ConnectUnreliablyInv(r, e.now);
    case EDisconnect => CloseInv(r, e.now);
    case ERun(open, connect, echoXid) =>
    case ERecv(d) => RecvInv(r, e.now, d);
    case ESend(p) => SendInv(r, e.now, p);
    case ESendLimited(p, limit) => SendInv(r, e.now, p);
  }

  // ---------------------------------------------------------------- accounts

  /** Packets of `q` charged to counter `c`. */
  function Count(q: seq<Packet>, c: nat): nat {
    if q == [] then 0 else (if q[0].counter == Some(c) then 1 else 0) + Count(q[1..], c)
  }

  function Packets(g: seq<Gone>): (q: seq<Packet>)
    ensures |q| == |g|
  {
    if g == [] then [] else Packets(g[..|g| - 1]) + [g[|g| - 1].packet]
  }

  function SentIn(g: seq<Gone>): nat {
    if g == [] then 0 else SentIn(g[..|g| - 1]) + (if g[|g| - 1].Sent? then 1 else 0)
  }

  /** What a counter shows beyond the packets queued against it. */
  function Excess(r: Rconn, c: nat): int
    requires c in r.counters
  {
    r.counters[c] - Count(r.txq, c)
  }

  /** What was accepted has left or waits, in the order it was accepted. */
  predicate InOrder(r: Rconn) {
    r.accepted == Packets(r.gone) + r.txq && r.packetsSent == SentIn(r.gone) % 0x1_0000_0000
  }

  /** From `r` to `t` no packet was lost, invented or overtaken, and every counter follows its packets. */
  predicate Accounted(r: Rconn, t: Rconn) {
    && t.counters.Keys == r.counters.Keys
    && (forall c :: c in r.counters ==> Excess(t, c) == Excess(r, c))
    && (InOrder(r) ==> InOrder(t)) && r.accepted <= t.accepted && r.gone <= t.gone
  }

  /** What accounts look at is the same in both. */
  predicate SameBooks(r: Rconn, t: Rconn) {
    && t.counters == r.counters && t.txq == r.txq && t.accepted == r.accepted && t.gone == r.gone
    && t.packetsSent == r.packetsSent
  }

  lemma {:induction false} CountAppend(q: seq<Packet>, p: Packet, c: nat)
    ensures Count(q + [p], c) == Count(q, c) + if p.counter == Some(c) then 1 else 0
  {
    if q != [] {
      CountAppend(q[1..], p, c);
      assert (q + [p])[1..] == q[1..] + [p];
    }
  }

  lemma PacketsAppend(g: seq<Gone>, x: Gone)
    ensures Packets(g + [x]) == Packets(g) + [x.packet] && SentIn(g + [x]) == SentIn(g) + if x.Sent? then 1 else 0
  {
    assert (g + [x])[..|g|] == g;
  }

  lemma {:induction false} DroppedPackets(g: seq<Gone>, q: seq<Packet>)
    ensures Packets(g + AllDropped(q)) == Packets(g) + q && SentIn(g + AllDropped(q)) == SentIn(g)
    decreases |q|
  {
    if q == [] {
      assert g + AllDropped(q) == g;
    } else {
      var h := g + [Dropped(q[0])];
      PacketsAppend(g, Dropped(q[0]));
      DroppedPackets(h, q[1..]);
      Shift(g, Dropped(q[0]), AllDropped(q[1..]));
      Shift(Packets(g), q[0], q[1..]);
      assert [q[0]] + q[1..] == q;
    }
  }

  lemma Shift<T>(a: seq<T>, x: T, b: seq<T>)
    ensures a + ([x] + b) == (a + [x]) + b
  {
  }

  lemma {:induction false} UncountAt(counters: map<nat, int>, q: seq<Packet>, c: nat)
    requires c in counters
    ensures c in Uncount(counters, q) && Uncount(counters, q)[c] == counters[c] - Count(q, c)
    decreases |q|
  {
    if q != [] { UncountAt(Add(counters, q[0], -1), q[1..], c); }
  }

  lemma FlushAccounted(r: Rconn)
    ensures Accounted(r, FlushQueue(r))
  {
    UncountKeys(r.counters, r.txq);
    forall c | c in r.counters ensures Excess(FlushQueue(r), c) == Excess(r, c) { UncountAt(r.counters, r.txq, c); }
    DroppedPackets(r.gone, r.txq);
  }

  lemma SameAccounted(r: Rconn, a: Rconn, b: Rconn, t: Rconn)
    requires SameBooks(r, a) && Accounted(a, b) && SameBooks(b, t)
    ensures Accounted(r, t)
  {
    forall c | c in r.counters ensures Excess(t, c) == Excess(r, c) {
      assert Excess(b, c) == Excess(a, c);
    }
  }

  lemma AccountedTransitive(r: Rconn, s: Rconn, t: Rconn)
    requires Accounted(r, s) && Accounted(s, t)
    ensures Accounted(r, t)
  {
    forall c | c in r.counters ensures Excess(t, c) == Excess(r, c) {
      assert c in s.counters && Excess(s, c) == Excess(r, c);
    }
  }

  lemma DropAccounted(r: Rconn, now: nat)
    ensures Accounted(r, Drop(r, now))
  {
    var a := r.(vconn := false);
    FlushAccounted(a);
    if r.reliable && HasVconn(r.state) { SameAccounted(r, a, FlushQueue(a), Drop(r, now)); }
  }

  lemma EnqueueAccounted(r: Rconn, p: Packet)
    requires p.counter.Some? ==> p.counter.value in r.counters
    ensures Accounted(r, Enqueue(r, p))
  {
    forall c | c in r.counters ensures Excess(Enqueue(r, p), c) == Excess(r, c) { CountAppend(r.txq, p, c); }
    assert Packets(r.gone) + r.txq + [p] == Packets(r.gone) + (r.txq + [p]);
  }

  lemma SentInOrder(r: Rconn)
    requires InOrder(r) && r.txq != []
    ensures r.accepted == Packets(r.gone + [Sent(r.txq[0])]) + r.txq[1..]
    ensures (r.packetsSent + 1) % 0x1_0000_0000 == SentIn(r.gone + [Sent(r.txq[0])]) % 0x1_0000_0000
  {
    PacketsAppend(r.gone, Sent(r.txq[0]));
    Shift(Packets(r.gone), r.txq[0], r.txq[1..]);
    assert [r.txq[0]] + r.txq[1..] == r.txq;
  }

  lemma SentAccounted(r: Rconn, now: nat)
    requires r.vconn && r.txq != [] && Charged(r.txq, r.counters) && NextSend(r) == Done
    ensures Accounted(r, TrySend(r, now))
  {
    assert r.txq[0].counter.Some? ==> r.txq[0].counter.value in r.counters;
    if InOrder(r) { SentInOrder(r); }
  }

  lemma TrySendAccounted(r: Rconn, now: nat)
    requires r.vconn && r.txq != [] && Charged(r.txq, r.counters)
    ensures Accounted(r, TrySend(r, now))
  {
    if NextSend(r) == Done {
      SentAccounted(r, now);
    } else if NextSend(r) == Failed {
      var a := r.(sends := if r.sends == [] then [] else r.sends[1..], idleEchoXid := 0);
      DropAccounted(a, now);
      SameAccounted(r, a, Drop(a, now), Drop(a, now));
    }
  }

  lemma {:induction false} DoTxWorkAccounted(r: Rconn, now: nat)
    requires Inv(r) && Connected(r.state)
    ensures Accounted(r, DoTxWork(r, now))
    decreases |r.txq|
  {
    if r.txq != [] {
      TrySendAccounted(r, now);
      TrySendInv(r, now);
      if NextSend(r) == Done {
        DoTxWorkAccounted(TrySend(r, now), now);
        AccountedTransitive(r, TrySend(r, now), DoTxWork(TrySend(r, now), now));
      }
    }
  }

  lemma SendAccounted(r: Rconn, now: nat, p: Packet)
    requires Inv(r) && (p.counter.Some? ==> p.counter.value in r.counters)
    ensures Accounted(r, Send(r, now, p))
  {
    if Connected(r.state) {
      var a := Enqueue(r, p);
      EnqueueAccounted(r, p);
      if r.txq == [] {
        TrySendAccounted(a, now);
        AccountedTransitive(r, a, TrySend(a, now));
      }
    }
  }

  lemma ReconnectAccounted(r: Rconn, now: nat, open: Open)
    ensures Accounted(r, Reconnect(r, now, open))
  {
    var a := r.(attempts := r.attempts + 1, vconn := false, backoffDeadline := TIME_MAX);
    DropAccounted(a, now);
    if open.Refused? { SameAccounted(r, a, Drop(a, now), Drop(a, now)); }
  }

  lemma RunConnectingAccounted(r: Rconn, now: nat, connect: Io)
    ensures Accounted(r, RunConnecting(r, now, connect))
  {
    var a := r.(backoffDeadline := TIME_MAX);
    DropAccounted(r, now);
    DropAccounted(a, now);
    SameAccounted(r, a, Drop(a, now), Drop(a, now));
  }

  lemma ProbeAccounted(r: Rconn, now: nat, echoXid: nat)
    requires Inv(r) && r.state == Active && r.probeInterval >= 1
    ensures Accounted(r, Send(Transition(r, Idle, now), now, Packet(echoXid, None)))
  {
    var a, p := Transition(r, Idle, now), Packet(echoXid, None);
    TransitionParity(r, Idle, now);
    SendAccounted(a, now, p);
    SameAccounted(r, a, Send(a, now, p), Send(a, now, p));
  }

  lemma RunStateAccounted(r: Rconn, now: nat, open: Open, connect: Io, echoXid: nat)
    requires Inv(r) && now < UINT_MAX
    ensures Accounted(r, RunState(r, now, open, connect, echoXid))
  {
    match r.state
    case Void =>
    case Backoff => ReconnectAccounted(r, now, open);
    case Connecting => RunConnectingAccounted(r, now, connect);
    case Active => if TimedOut(r, now) { ProbeAccounted(r, now, echoXid); } else { DoTxWorkAccounted(r, now); }
    case Idle => if TimedOut(r, now) { DropAccounted(r, now); } else { DoTxWorkAccounted(r, now); }
  }

  lemma {:induction false} RunAccounted(r: Rconn, now: nat, open: Open, connect: Io, echoXid: nat)
    requires Inv(r) && now < UINT_MAX
    ensures Accounted(r, Run(r, now, open, connect, echoXid))
    decreases Passes(r, now)
  {
    RunStateInv(r, now, open, connect, echoXid);
    RunStateAccounted(r, now, open, connect, echoXid);
    var t := RunState(r, now, open, connect, echoXid);
    if t.state != r.state {
      RunAccounted(t, now, open, connect, echoXid);
      AccountedTransitive(r, t, Run(t, now, open, connect, echoXid));
    }
  }

  lemma QuietAccounted(r: Rconn, t: Rconn)
    requires SameBooks(r, t)
    ensures Accounted(r, t)
  {
  }

  lemma ConnectAccounted(r: Rconn, now: nat, open: Open)
    ensures Accounted(r, Connect(r, now, open))
  {
    var a := Close(r, now).(reliable := true);
    ReconnectAccounted(a, now, open);
    SameAccounted(r, a, Reconnect(a, now, open), Connect(r, now, open));
  }

  lemma RecvAccounted(r: Rconn, now: nat, d: Delivery)
    ensures Accounted(r, Recv(r, now, d))
  {
    if Connected(r.state) && d.Error? { DropAccounted(r, now); } else { QuietAccounted(r, Recv(r, now, d)); }
  }

  lemma StepAccounted(r: Rconn, e: Timed)
    requires Inv(r) && Legal(e, r.counters.Keys)
    ensures Accounted(r, Step(r, e))
  {
    match e.event
    case EConnect(open) => ConnectAccounted(r, e.now, open);
    case EConnectUnreliably => QuietAccounted(r, Step(r, e));
    case EDisconnect => QuietAccounted(r, Step(r, e));
    case ERun(open, connect, echoXid) => RunAccounted(r, e.now, open, connect, echoXid);
    case ERecv(d) => RecvAccounted(r, e.now, d);
    case ESend(p) => SendAccounted(r, e.now, p);
    case ESendLimited(p, limit) => SendAccounted(r, e.now, p);
  }

  // ---------------------------------------------------------------- whole runs

  predicate AllLegal(es: seq<Timed>, counters: set<nat>) {
    forall i :: 0 <= i < |es| ==> Legal(es[i], counters)
  }

  function After(r: Rconn, es: seq<Timed>): (t: Rconn)
    requires Inv(r) && AllLegal(es, r.counters.Keys)
    ensures Inv(t) && Accounted(r, t)
  {
    if es == [] then r
    else
      var s := After(r, es[..|es| - 1]);
      var e := es[|es| - 1];
      StepInv(s, e);
      StepAccounted(s, e);
      AccountedTransitive(r, s, Step(s, e));
      Step(s, e)
  }

  /** Over every run from a new connection, the state, the queue and the counters tell the same story. */
  lemma EveryRun(probeInterval: nat, maxBackoff: nat, now: nat, counters: map<nat, int>, sends: seq<Io>, es: seq<Timed>)
    requires AllLegal(es, counters.Keys)
    ensures var r := Create(probeInterval, maxBackoff, now, counters, sends);
      && Inv(r)
      && var t := After(r, es);
      && (t.vconn <==> t.state == Connecting || t.state == Active || t.state == Idle)
      && (t.seqno % 2 == 1 <==> t.state == Active)
      && t.accepted == Packets(t.gone) + t.txq
      && t.packetsSent == SentIn(t.gone) % 0x1_0000_0000
      && t.counters.Keys == counters.Keys
      && forall c :: c in counters ==> t.counters[c] == counters[c] + Count(t.txq, c)
  {
    var r := Create(probeInterval, maxBackoff, now, counters, sends);
    assert InOrder(r);
    var t := After(r, es);
    forall c | c in counters ensures t.counters[c] == counters[c] + Count(t.txq, c) {
      assert c in r.counters && Excess(t, c) == Excess(r, c);
    }
  }
}

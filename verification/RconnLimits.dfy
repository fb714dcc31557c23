/** What bounds a reliable connection: queue limits, back-off and the rate of attempts. */
module RconnLimits {
  import opened Wrappers
  import Bits
  import opened RconnModel
  import opened RconnRuns

  // ---------------------------------------------------------------- what is accepted

  lemma {:induction false} TxWorkAccepts(r: Rconn, now: nat)
    requires Inv(r) && Connected(r.state)
    ensures DoTxWork(r, now).accepted == r.accepted
    decreases |r.txq|
  {
    if r.txq != [] {
      TrySendInv(r, now);
      if NextSend(r) == Done { TxWorkAccepts(TrySend(r, now), now); }
    }
  }

  /** Packets `rconn_run` puts in the queue are its own probes, which no counter pays for. */
  predicate Unpaid(r: Rconn, t: Rconn) {
    && r.accepted <= t.accepted
    && forall i :: |r.accepted| <= i < |t.accepted| ==> t.accepted[i].counter == None
  }

  lemma RunStateAccepts(r: Rconn, now: nat, open: Open, connect: Io, echoXid: nat)
    requires Inv(r) && now < UINT_MAX
    ensures Unpaid(r, RunState(r, now, open, connect, echoXid))
  {
    match r.state
    case Active => if !TimedOut(r, now) { TxWorkAccepts(r, now); }
    case Idle => if !TimedOut(r, now) { TxWorkAccepts(r, now); }
    case _ =>
  }

  lemma {:induction false} RunAccepts(r: Rconn, now: nat, open: Open, connect: Io, echoXid: nat)
    requires Inv(r) && now < UINT_MAX
    ensures Unpaid(r, Run(r, now, open, connect, echoXid))
    decreases Passes(r, now)
  {
    RunStateInv(r, now, open, connect, echoXid);
    RunStateAccepts(r, now, open, connect, echoXid);
    var t := RunState(r, now, open, connect, echoXid);
    if t.state != r.state { RunAccepts(t, now, open, connect, echoXid); }
  }

  lemma {:induction false} CountConcat(q: seq<Packet>, p: seq<Packet>, c: nat)
    ensures Count(q + p, c) == Count(q, c) + Count(p, c)
  {
    if q == [] {
      assert q + p == p;
    } else {
      CountConcat(q[1..], p, c);
      assert (q + p)[1..] == q[1..] + p;
    }
  }

  lemma {:induction false} CountNone(q: seq<Packet>, c: nat)
    requires forall i :: 0 <= i < |q| ==> q[i].counter != Some(c)
    ensures Count(q, c) == 0
  {
    if q != [] { CountNone(q[1..], c); }
  }

  /** The queue now is the end of the queue before, followed by what was accepted since. */
  lemma QueueIsSuffix(r: Rconn, t: Rconn)
    requires Accounted(r, t) && InOrder(r)
    ensures |t.gone| - |r.gone| <= |r.txq| + |t.accepted| - |r.accepted|
    ensures t.txq == (r.txq + t.accepted[|r.accepted|..])[|t.gone| - |r.gone|..]
  {
    var fresh_ := t.accepted[|r.accepted|..];
    assert t.accepted == Packets(r.gone) + r.txq + fresh_;
    assert t.accepted[|t.gone|..] == t.txq;
    assert t.accepted[|t.gone|..] == (r.txq + fresh_)[|t.gone| - |r.gone|..];
  }

  /** A counter rises by no more than the packets accepted against it. */
  lemma RisesByAccepted(r: Rconn, t: Rconn, c: nat)
    requires Accounted(r, t) && InOrder(r) && c in r.counters
    ensures t.counters[c] <= r.counters[c] + Count(t.accepted[|r.accepted|..], c)
  {
    QueueIsSuffix(r, t);
    var all, k := r.txq + t.accepted[|r.accepted|..], |t.gone| - |r.gone|;
    CountConcat(r.txq, t.accepted[|r.accepted|..], c);
    CountConcat(all[..k], all[k..], c);
    assert all == all[..k] + all[k..];
    assert Excess(t, c) == Excess(r, c);
  }

  // ---------------------------------------------------------------- queue limits

  /** The event charges counter `c` only through `rconn_send_with_limit`, with a limit of at most `limit`. */
  predicate Respects(e: Timed, c: nat, limit: int) {
    && (e.event.ESend? ==> e.event.packet.counter != Some(c))
    && (e.event.ESendLimited? && e.event.packet.counter == Some(c) ==> e.event.limit <= limit)
  }

  lemma SendAccepts(r: Rconn, now: nat, p: Packet)
    requires Inv(r)
    ensures Send(r, now, p).accepted == r.accepted + if Connected(r.state) then [p] else []
  {
  }

  /** Against counter `c` a step accepts one packet at most, and only below the limit. */
  lemma StepAccepts(r: Rconn, e: Timed, c: nat, limit: int)
    requires Inv(r) && Legal(e, r.counters.Keys) && Respects(e, c, limit) && c in r.counters
    ensures var t := Step(r, e);
      && r.accepted <= t.accepted
      && Count(t.accepted[|r.accepted|..], c) <= if r.counters[c] < limit then 1 else 0
  {
    var t := Step(r, e);
    if e.event.ESend? || e.event.ESendLimited? {
      SendAccepts(r, e.now, e.event.packet);
      assert t.accepted[|r.accepted|..] == [] || t.accepted[|r.accepted|..] == [e.event.packet];
    } else {
      if e.event.ERun? { RunAccepts(r, e.now, e.event.open, e.event.connect, e.event.echoXid); }
      CountNone(t.accepted[|r.accepted|..], c);
    }
  }

  lemma StepLimit(r: Rconn, e: Timed, c: nat, limit: int)
    requires Inv(r) && InOrder(r) && Legal(e, r.counters.Keys) && Respects(e, c, limit)
    requires c in r.counters && r.counters[c] <= limit
    ensures c in Step(r, e).counters && Step(r, e).counters[c] <= limit
  {
    StepAccounted(r, e);
    StepAccepts(r, e, c, limit);
    RisesByAccepted(r, Step(r, e), c);
  }

  /** Over every run, a counter charged only through limited sends stays within the limit. */
  lemma {:induction false} NeverOverLimit(r: Rconn, es: seq<Timed>, c: nat, limit: int)
    requires Inv(r) && InOrder(r) && AllLegal(es, r.counters.Keys) && c in r.counters && r.counters[c] <= limit
    requires forall i :: 0 <= i < |es| ==> Respects(es[i], c, limit)
    ensures After(r, es).counters[c] <= limit
    decreases |es|
  {
    if es != [] {
      var front := es[..|es| - 1];
      NeverOverLimit(r, front, c, limit);
      StepLimit(After(r, front), es[|es| - 1], c, limit);
    }
  }

  // ---------------------------------------------------------------- what disconnection discards

  /** Some packet was discarded on the way from `r` to `t`. */
  ghost predicate Discards(r: Rconn, t: Rconn) {
    exists i :: |r.gone| <= i < |t.gone| && t.gone[i].Dropped?
  }

  /** Packets go only with a reliable connection that breaks, and then all of them; an
      unreliable connection that breaks leaves them where they are. */
  ghost predicate Breaks(r: Rconn, t: Rconn) {
    && r.gone <= t.gone && (t.reliable ==> r.reliable)
    && (Discards(r, t) ==> r.reliable && t.state == Backoff && t.txq == [])
    && (HasVconn(r.state) ==>
          match t.state
          case Backoff => r.reliable && t.txq == []
          case Void => !r.reliable
          case _ => t.reliable == r.reliable)
  }

  lemma DropBreaks(r: Rconn, now: nat)
    requires Inv(r) && HasVconn(r.state)
    ensures Breaks(r, Drop(r, now))
  {
  }

  /** Changes other than to the queue. */
  lemma QuietBreaks(r: Rconn, a: Rconn, t: Rconn)
    requires a.gone == r.gone && a.reliable == r.reliable && (HasVconn(r.state) ==> HasVconn(a.state)) && Breaks(a, t)
    ensures Breaks(r, t)
  {
  }

  /** A step that sends or queues, and another after it. */
  lemma SentBreaks(r: Rconn, s: Rconn, t: Rconn)
    requires r.gone <= s.gone && !Discards(r, s) && s.reliable == r.reliable
    requires (HasVconn(r.state) ==> HasVconn(s.state)) && Breaks(s, t)
    ensures Breaks(r, t)
  {
    forall i | |r.gone| <= i < |s.gone| && i < |t.gone| ensures t.gone[i] == s.gone[i] && t.gone[i].Sent? {
      assert t.gone[..|s.gone|][i] == s.gone[i];
    }
  }

  lemma TrySendBreaks(r: Rconn, now: nat)
    requires Inv(r) && Connected(r.state) && r.txq != []
    ensures Breaks(r, TrySend(r, now))
    ensures NextSend(r) == Done ==> !Discards(r, TrySend(r, now))
  {
    if NextSend(r) == Failed {
      var a := r.(sends := if r.sends == [] then [] else r.sends[1..], idleEchoXid := 0);
      DropBreaks(a, now);
      QuietBreaks(r, a, TrySend(r, now));
    }
  }

  lemma {:induction false} TxWorkBreaks(r: Rconn, now: nat)
    requires Inv(r) && Connected(r.state)
    ensures Breaks(r, DoTxWork(r, now))
    decreases |r.txq|
  {
    if r.txq != [] {
      TrySendBreaks(r, now);
      if NextSend(r) == Done {
        TrySendInv(r, now);
        TxWorkBreaks(TrySend(r, now), now);
        SentBreaks(r, TrySend(r, now), DoTxWork(TrySend(r, now), now));
      }
    }
  }

  lemma SendBreaks(r: Rconn, now: nat, p: Packet)
    requires Inv(r) && (p.counter.Some? ==> p.counter.value in r.counters) && Connected(r.state)
    ensures Breaks(r, Send(r, now, p))
  {
    var a := Enqueue(r, p);
    assert Inv(a) by { SendInv(r, now, p); }
    if r.txq == [] {
      TrySendBreaks(a, now);
      QuietBreaks(r, a, TrySend(a, now));
    }
  }

  lemma ConnectingBreaks(r: Rconn, now: nat, connect: Io)
    requires Inv(r) && r.state == Connecting
    ensures Breaks(r, RunConnecting(r, now, connect))
  {
    var a := r.(backoffDeadline := TIME_MAX);
    DropBreaks(r, now);
    DropBreaks(a, now);
    QuietBreaks(r, a, Drop(a, now));
  }

  lemma ProbeBreaks(r: Rconn, now: nat, echoXid: nat)
    requires Inv(r) && r.state == Active && r.probeInterval >= 1
    ensures Breaks(r, Send(Transition(r, Idle, now), now, Packet(echoXid, None)))
  {
    var a, p := Transition(r, Idle, now), Packet(echoXid, None);
    TransitionParity(r, Idle, now);
    SendBreaks(a, now, p);
    QuietBreaks(r, a, Send(a, now, p));
  }

  lemma RunStateBreaks(r: Rconn, now: nat, open: Open, connect: Io, echoXid: nat)
    requires Inv(r) && now < UINT_MAX
    ensures Breaks(r, RunState(r, now, open, connect, echoXid))
  {
    match r.state
    case Void =>
    case Backoff =>
    case Connecting => ConnectingBreaks(r, now, connect);
    case Active => if TimedOut(r, now) { ProbeBreaks(r, now, echoXid); } else { TxWorkBreaks(r, now); }
    case Idle => if TimedOut(r, now) { DropBreaks(r, now); } else { TxWorkBreaks(r, now); }
  }

  /** A connection that has just broken goes no further at this clock reading. */
  lemma BrokenStays(r: Rconn, now: nat, open: Open, connect: Io, echoXid: nat)
    requires Inv(r) && now < UINT_MAX && (r.state == Backoff ==> r.stateEntered == now) && !HasVconn(r.state)
    ensures Run(r, now, open, connect, echoXid) == r
  {
    if r.state == Backoff { FreshNotTimedOut(r, now); }
  }

  lemma {:induction false} RunBreaks(r: Rconn, now: nat, open: Open, connect: Io, echoXid: nat)
    requires Inv(r) && now < UINT_MAX
    ensures Breaks(r, Run(r, now, open, connect, echoXid))
    decreases Passes(r, now)
  {
    RunStateInv(r, now, open, connect, echoXid);
    RunStateBreaks(r, now, open, connect, echoXid);
    var s := RunState(r, now, open, connect, echoXid);
    if s.state != r.state {
      RunBreaks(s, now, open, connect, echoXid);
      var t := Run(s, now, open, connect, echoXid);
      if HasVconn(s.state) {
        PassBreaks(r, s, t);
      } else {
        BrokenStays(s, now, open, connect, echoXid);
      }
    }
  }

  lemma PassBreaks(r: Rconn, s: Rconn, t: Rconn)
    requires Breaks(r, s) && HasVconn(s.state) && Breaks(s, t)
    ensures Breaks(r, t)
  {
    forall i | |r.gone| <= i < |s.gone| && i < |t.gone| ensures t.gone[i] == s.gone[i] && t.gone[i].Sent? {
      assert t.gone[..|s.gone|][i] == s.gone[i];
    }
  }

  /** The caller asks for another connection, or for none. */
  predicate Reassigns(e: Event) { e.EConnect? || e.EConnectUnreliably? || e.EDisconnect? }

  /** Packets are discarded only when a reliable connection breaks while it is run, read or
      sent on, and then all that wait. A connection the caller gives up, and an unreliable one
      that breaks, leave theirs in the queue, and their counters charged. */
  lemma DiscardsWhenReliable(r: Rconn, e: Timed)
    requires Inv(r) && Legal(e, r.counters.Keys)
    ensures var t := Step(r, e);
      if Reassigns(e.event) then t.txq == r.txq && t.counters == r.counters && !Discards(r, t)
      else
        && (Discards(r, t) ==> r.reliable && t.state == Backoff && t.txq == [])
        && (HasVconn(r.state) && !HasVconn(t.state) ==>
              if r.reliable then t.state == Backoff && t.txq == [] else t.state == Void && !Discards(r, t))
  {
    match e.event
    case EConnect(_) =>
    case EConnectUnreliably =>
    case EDisconnect =>
    case ERun(open, connect, echoXid) => RunBreaks(r, e.now, open, connect, echoXid);
    case ERecv(_) => if Connected(r.state) { DropBreaks(r, e.now); }
    case ESend(p) => if Connected(r.state) { SendBreaks(r, e.now, p); }
    case ESendLimited(p, _) => if Connected(r.state) { SendBreaks(r, e.now, p); }
  }

  /** So a counter can stay charged after its packet's connection is gone. */
  lemma ChargedAfterDisconnect(p: Packet, now: nat)
    requires p.counter == Some(0) && now < UINT_MAX
    ensures var r := Create(0, 0, now, map[0 := 0], []);
      var es := [Timed(now, EConnectUnreliably), Timed(now, ESend(p)), Timed(now, EDisconnect)];
      Inv(r) && AllLegal(es, r.counters.Keys) && After(r, es).state == Void && After(r, es).counters[0] == 1
  {
    var r := Create(0, 0, now, map[0 := 0], []);
    var e, f, g := Timed(now, EConnectUnreliably), Timed(now, ESend(p)), Timed(now, EDisconnect);
    assert [e, f, g][..2] == [e, f] && [e, f][..1] == [e] && [e][..0] == [];
    assert After(r, []) == r && After(r, [e]) == Step(r, e);
    var a := After(r, [e]);
    assert a.state == Active && a.txq == [];
    assert After(r, [e, f]) == Step(a, f);
    assert Step(a, f).txq == [p] && Step(a, f).counters[0] == 1;
  }

  // ---------------------------------------------------------------- back-off

  /** The wait after `k` failures in a row. */
  function Law(maxBackoff: nat, k: nat): nat {
    if k == 0 then 0 else Min(maxBackoff, Bits.Pow2(k - 1))
  }

  lemma LawNext(maxBackoff: nat, k: nat)
    requires maxBackoff >= 1
    ensures Law(maxBackoff, k + 1) == Min(maxBackoff, Max(1, 2 * Law(maxBackoff, k)))
  {
  }

  /** This call of `rconn_run` sees a refused open, or gives up on a connection that does not answer. */
  predicate Fails(r: Rconn, now: nat, open: Open) {
    TimedOut(r, now) && (r.state == Connecting || (r.state == Backoff && open.Refused?))
  }

  /** Trying to connect, over and over. */
  predicate Trying(r: Rconn) { Inv(r) && r.reliable && (r.state == Backoff || r.state == Connecting) }

  lemma GivesUp(r: Rconn, now: nat)
    requires Trying(r) && now < UINT_MAX && r.backoffDeadline == TIME_MAX
    ensures Trying(Drop(r, now)) && Drop(r, now).state == Backoff && !TimedOut(Drop(r, now), now)
    ensures Drop(r, now).backoff == Min(r.maxBackoff, Max(1, 2 * r.backoff)) && Drop(r, now).maxBackoff == r.maxBackoff
  {
    DropInv(r, now);
    FreshNotTimedOut(Drop(r, now), now);
  }

  lemma UnansweredRun(r: Rconn, now: nat, open: Open, echoXid: nat)
    requires Trying(r) && now < UINT_MAX && open != Opened(false)
    ensures var t := Run(r, now, open, Again, echoXid);
      && Trying(t) && t.maxBackoff == r.maxBackoff
      && t.backoff == if Fails(r, now, open) then Min(r.maxBackoff, Max(1, 2 * r.backoff)) else r.backoff
  {
    var t := RunState(r, now, open, Again, echoXid);
    RunStateInv(r, now, open, Again, echoXid);
    if TimedOut(r, now) && r.state == Connecting {
      GivesUp(r.(backoffDeadline := TIME_MAX), now);
      assert Run(t, now, open, Again, echoXid) == t;
    } else if TimedOut(r, now) && r.state == Backoff {
      if open.Refused? {
        GivesUp(r.(attempts := r.attempts + 1, vconn := false, backoffDeadline := TIME_MAX), now);
      } else {
        FreshNotTimedOut(t, now);
        assert RunState(t, now, open, Again, echoXid) == t;
      }
    }
  }

  /** A call of `rconn_run`, and how an attempt to open would end. */
  datatype Attempt = Attempt(now: nat, open: Open, echoXid: nat)

  predicate Reconnectable(tries: seq<Attempt>) {
    forall i :: 0 <= i < |tries| ==> tries[i].now < UINT_MAX && tries[i].open != Opened(false)
  }

  function Retry(r: Rconn, tries: seq<Attempt>): (t: Rconn)
    requires Trying(r) && Reconnectable(tries)
    ensures Trying(t) && t.maxBackoff == r.maxBackoff
  {
    if tries == [] then r
    else
      var s, a := Retry(r, tries[..|tries| - 1]), tries[|tries| - 1];
      UnansweredRun(s, a.now, a.open, a.echoXid);
      Run(s, a.now, a.open, Again, a.echoXid)
  }

  function Failures(r: Rconn, tries: seq<Attempt>): nat
    requires Trying(r) && Reconnectable(tries)
  {
    if tries == [] then 0
    else
      var front, a := tries[..|tries| - 1], tries[|tries| - 1];
      Failures(r, front) + if Fails(Retry(r, front), a.now, a.open) then 1 else 0
  }

  lemma OneTry(s: Rconn, a: Attempt, k: nat)
    requires Trying(s) && a.now < UINT_MAX && a.open != Opened(false) && s.backoff == Law(s.maxBackoff, k)
    ensures Run(s, a.now, a.open, Again, a.echoXid).backoff
         == Law(s.maxBackoff, if Fails(s, a.now, a.open) then k + 1 else k)
  {
    LawNext(s.maxBackoff, k);
    UnansweredRun(s, a.now, a.open, a.echoXid);
  }

  /** The law holds after all of `tries`, `k` failures having gone before them. */
  predicate Lawful(r: Rconn, tries: seq<Attempt>, k: nat)
    requires Trying(r) && Reconnectable(tries)
  {
    Retry(r, tries).backoff == Law(r.maxBackoff, k + Failures(r, tries))
  }

  lemma OneMoreTry(r: Rconn, tries: seq<Attempt>, k: nat)
    requires Trying(r) && Reconnectable(tries) && tries != [] && Lawful(r, tries[..|tries| - 1], k)
    ensures Lawful(r, tries, k)
  {
    var front := tries[..|tries| - 1];
    OneTry(Retry(r, front), tries[|tries| - 1], k + Failures(r, front));
  }

  /**
   * While the peer never answers, the wait after `k` failures is the smaller
   * of 2^(k-1) seconds and the maximum.
   */
  lemma {:induction false} BackoffDoubles(r: Rconn, tries: seq<Attempt>, k: nat)
    requires Trying(r) && Reconnectable(tries)
    requires r.backoff == Law(r.maxBackoff, k)
    ensures Lawful(r, tries, k)
    decreases |tries|
  {
    if tries != [] {
      BackoffDoubles(r, tries[..|tries| - 1], k);
      OneMoreTry(r, tries, k);
    }
  }

  /** The count starts with the connection: `rconn_connect` leaves one failure or none behind it. */
  lemma BackoffStarts(r: Rconn, now: nat, open: Open)
    requires Inv(r) && now < UINT_MAX && open != Opened(false)
    ensures var t := Connect(r, now, open);
      Trying(t) && t.backoff == Law(t.maxBackoff, if open.Refused? then 1 else 0)
  {
    ConnectInv(r, now, open);
    CloseInv(r, now);
  }

  // ---------------------------------------------------------------- the rate of attempts

  lemma {:induction false} TxWorkTries(r: Rconn, now: nat)
    requires Inv(r) && Connected(r.state)
    ensures DoTxWork(r, now).attempts == r.attempts
    decreases |r.txq|
  {
    if r.txq != [] {
      TrySendInv(r, now);
      if NextSend(r) == Done { TxWorkTries(TrySend(r, now), now); }
    }
  }

  /** Attempts made since are no more than the seconds between the last changes of state. */
  predicate Paced(r: Rconn, t: Rconn, now: nat) {
    t.attempts - r.attempts <= t.stateEntered - r.stateEntered && r.stateEntered <= t.stateEntered <= now
  }

  lemma RunStatePaced(r: Rconn, now: nat, open: Open, connect: Io, echoXid: nat)
    requires Inv(r) && r.stateEntered <= now < UINT_MAX
    ensures Paced(r, RunState(r, now, open, connect, echoXid), now)
  {
    RunStateInv(r, now, open, connect, echoXid);
    match r.state
    case Void =>
    case Backoff => if TimedOut(r, now) { ReconnectInv(r, now, open); }
    case Connecting => RunConnectingInv(r, now, connect);
    case Active => RunActiveInv(r, now, echoXid); if !TimedOut(r, now) { TxWorkTries(r, now); }
    case Idle => RunIdleInv(r, now); if !TimedOut(r, now) { TxWorkTries(r, now); DoTxWorkInv(r, now); }
  }

  lemma {:induction false} RunPaced(r: Rconn, now: nat, open: Open, connect: Io, echoXid: nat)
    requires Inv(r) && r.stateEntered <= now < UINT_MAX
    ensures Paced(r, Run(r, now, open, connect, echoXid), now)
    decreases Passes(r, now)
  {
    RunStateInv(r, now, open, connect, echoXid);
    RunStatePaced(r, now, open, connect, echoXid);
    var t := RunState(r, now, open, connect, echoXid);
    if t.state != r.state { RunPaced(t, now, open, connect, echoXid); }
  }

  lemma StepPaced(r: Rconn, e: Timed)
    requires Inv(r) && Legal(e, r.counters.Keys) && r.stateEntered <= e.now && !e.event.EConnect?
    ensures Paced(r, Step(r, e), e.now)
  {
    match e.event
    case EConnectUnreliably =>
    case EDisconnect =>
    case ERun(open, connect, echoXid) => RunPaced(r, e.now, open, connect, echoXid);
    case ERecv(d) => RecvInv(r, e.now, d);
    case ESend(p) => SendInv(r, e.now, p);
    case ESendLimited(p, limit) => SendInv(r, e.now, p);
  }

  predicate Clocked(start: nat, es: seq<Timed>) {
    forall i :: 0 <= i < |es| ==> start <= es[i].now && forall j :: 0 <= j < i ==> es[j].now <= es[i].now
  }

  function Last(start: nat, es: seq<Timed>): nat { if es == [] then start else es[|es| - 1].now }

  /** On a clock that does not run back, a connection left to itself tries to open at most once a second. */
  lemma {:induction false} OneAttemptASecond(r: Rconn, es: seq<Timed>)
    requires Inv(r) && AllLegal(es, r.counters.Keys) && Clocked(r.stateEntered, es)
    requires forall i :: 0 <= i < |es| ==> !es[i].event.EConnect?
    ensures Paced(r, After(r, es), Last(r.stateEntered, es))
    decreases |es|
  {
    if es != [] {
      var front := es[..|es| - 1];
      OneAttemptASecond(r, front);
      StepPaced(After(r, front), es[|es| - 1]);
    }
  }
}

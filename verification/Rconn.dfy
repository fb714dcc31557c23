/** `struct rconn` and the functions that change it in place. */
module Rconn {
  import opened Wrappers
  import M = RconnModel
  import R = RconnRuns

  class Rconn {
    var state: M.State
    var stateEntered: nat
    var vconn: bool
    var reliable: bool
    var txq: seq<M.Packet>
    var counters: map<nat, int>
    var accepted: seq<M.Packet>
    var gone: seq<M.Gone>
    var sends: seq<M.Io>
    var backoff: nat
    var maxBackoff: nat
    var backoffDeadline: int
    var lastReceived: nat
    var lastConnected: nat
    var packetsSent: nat
    var seqno: nat
    var probeInterval: nat
    var idleEchoXid: nat
    var attempts: nat

    ghost function View(): M.Rconn
      reads this
    {
      M.Rconn(state, stateEntered, vconn, reliable, txq, counters, accepted, gone, sends, backoff, maxBackoff,
              backoffDeadline, lastReceived, lastConnected, packetsSent, seqno, probeInterval, idleEchoXid, attempts)
    }

    constructor (probeInterval: nat, maxBackoff: nat, now: nat, counters: map<nat, int>, sends: seq<M.Io>)
      ensures View() == M.Create(probeInterval, maxBackoff, now, counters, sends) && M.Inv(View())
    {
      state, stateEntered, vconn, reliable := M.Void, now, false, false;
      txq, accepted, gone := [], [], [];
      this.counters, this.sends := counters, sends;
      backoff, this.maxBackoff, backoffDeadline := 0, if maxBackoff != 0 then maxBackoff else 60, M.TIME_MIN;
      lastReceived, lastConnected, packetsSent, seqno := now, now, 0, 0;
      this.probeInterval, idleEchoXid, attempts := probeInterval, 0, 0;
    }

    predicate TimedOut(now: nat)
      reads this
      ensures TimedOut(now) <==> M.TimedOut(View(), now)
    {
      var timeout :=
        match state
        case Void => M.UINT_MAX
        case Backoff => backoff
        case Connecting => M.Max(1, backoff)
        case Active =>
          if probeInterval != 0 then M.Max(lastReceived, stateEntered) + probeInterval - stateEntered else M.UINT_MAX
        case Idle => probeInterval;
      now >= M.SatAdd(stateEntered, timeout)
    }

    /** `state_transition`. */
    method Transition(to: M.State, now: nat)
      modifies `state, `stateEntered, `seqno
      ensures View() == M.Transition(old(View()), to, now)
    {
      if (state == M.Active) != (to == M.Active) {
        seqno := (seqno + 1) % 0x1_0000_0000;
      } else {
        seqno := seqno % 0x1_0000_0000;
      }
      state, stateEntered := to, now;
    }

    method FlushQueue()
      modifies `txq, `counters, `gone
      ensures View() == M.FlushQueue(old(View()))
    {
      while |txq| > 0
        invariant M.Uncount(counters, txq) == old(M.Uncount(counters, txq))
        invariant gone + M.AllDropped(txq) == old(gone + M.AllDropped(txq))
        decreases |txq|
      {
        R.Shift(gone, M.Dropped(txq[0]), M.AllDropped(txq[1..]));
        counters, gone, txq := M.Add(counters, txq[0], -1), gone + [M.Dropped(txq[0])], txq[1..];
      }
    }

    /** `rconn_disconnect`. */
    method Close(now: nat)
      modifies this
      ensures View() == M.Close(old(View()), now)
    {
      if state != M.Void {
        vconn, reliable, backoff, backoffDeadline := false, false, 0, M.TIME_MIN;
        assert View() == old(View()).(vconn := false, reliable := false, backoff := 0, backoffDeadline := M.TIME_MIN);
        Transition(M.Void, now);
      }
    }

    method BackOff(now: nat)
      modifies `backoff, `backoffDeadline
      ensures var b := M.NextBackoff(old(View()), now);
        View() == old(View()).(backoff := b, backoffDeadline := now + b)
    {
      if now >= backoffDeadline {
        backoff := 1;
      } else {
        backoff := M.Min(maxBackoff, M.Max(1, 2 * backoff));
      }
      backoffDeadline := now + backoff;
    }

    /** `disconnect`. */
    method Drop(now: nat)
      modifies this
      ensures View() == M.Drop(old(View()), now)
    {
      if reliable {
        if M.HasVconn(state) {
          vconn := false;
          FlushQueue();
        }
        BackOff(now);
        Transition(M.Backoff, now);
      } else {
        Close(now);
      }
    }

    method BeginConnecting(now: nat, reconnectable: bool)
      modifies this
      ensures View() == M.Transition(old(View()).(
        vconn := true, reliable := old(reliable) && reconnectable, backoffDeadline := now + old(backoff)), M.Connecting, now)
    {
      vconn, reliable, backoffDeadline := true, reliable && reconnectable, now + backoff;
      Transition(M.Connecting, now);
    }

    method Reconnect(now: nat, open: M.Open)
      modifies this
      ensures View() == M.Reconnect(old(View()), now, open)
    {
      attempts := attempts + 1;
      if open.Opened? {
        BeginConnecting(now, open.reconnectable);
      } else {
        Refuse(now);
      }
    }

    method Refuse(now: nat)
      modifies this
      ensures View() == M.Drop(old(View()).(vconn := false, backoffDeadline := M.TIME_MAX), now)
    {
      vconn, backoffDeadline := false, M.TIME_MAX;
      Drop(now);
    }

    method Connect(now: nat, open: M.Open)
      modifies this
      ensures View() == M.Connect(old(View()), now, open)
    {
      Close(now);
      reliable := true;
      Reconnect(now, open);
    }

    method ConnectUnreliably(now: nat)
      modifies this
      ensures View() == M.ConnectUnreliably(old(View()), now)
    {
      Close(now);
      reliable, vconn, lastConnected := false, true, now;
      Transition(M.Active, now);
    }

    /** Takes the head off the queue, the underlying connection having taken it over. */
    method HeadSent()
      requires txq != []
      modifies `txq, `counters, `gone, `packetsSent
      ensures View() == old(View()).(
        packetsSent := (old(packetsSent) + 1) % 0x1_0000_0000, counters := M.Add(old(counters), old(txq)[0], -1),
        txq := old(txq)[1..], gone := old(gone) + [M.Sent(old(txq)[0])])
    {
      packetsSent := (packetsSent + 1) % 0x1_0000_0000;
      counters, gone, txq := M.Add(counters, txq[0], -1), gone + [M.Sent(txq[0])], txq[1..];
    }

    method TrySend(now: nat) returns (error: M.Io)
      requires vconn && txq != []
      modifies this
      ensures View() == M.TrySend(old(View()), now) && error == M.NextSend(old(View()))
    {
      error := if sends == [] then M.Again else sends[0];
      sends := if sends == [] then [] else sends[1..];
      idleEchoXid := txq[0].xid;
      if error != M.Done {
        idleEchoXid := 0;
        if error == M.Failed {
          Drop(now);
        }
        return;
      }
      HeadSent();
    }

    method DoTxWork(now: nat)
      requires vconn
      modifies this
      ensures View() == M.DoTxWork(old(View()), now)
    {
      while |txq| > 0
        invariant vconn && M.DoTxWork(View(), now) == old(M.DoTxWork(View(), now))
        decreases |txq|
      {
        var error := TrySend(now);
        if error != M.Done {
          return;
        }
      }
    }

    method Send(now: nat, p: M.Packet) returns (queued: bool)
      requires M.Connected(state) ==> vconn
      modifies this
      ensures View() == M.Send(old(View()), now, p) && queued == M.Connected(old(state))
    {
      queued := M.Connected(state);
      if queued {
        counters, txq, accepted := M.Add(counters, p, 1), txq + [p], accepted + [p];
        if |txq| == 1 {
          var _ := TrySend(now);
        }
      }
    }

    method SendWithLimit(now: nat, p: M.Packet, limit: int) returns (queued: bool)
      requires M.Connected(state) ==> vconn
      requires p.counter.Some? && p.counter.value in counters
      modifies this
      ensures View() == M.SendWithLimit(old(View()), now, p, limit)
      ensures queued == (old(counters)[p.counter.value] < limit && M.Connected(old(state)))
    {
      if counters[p.counter.value] >= limit {
        return false;
      }
      queued := Send(now, p);
    }

    method Recv(now: nat, d: M.Delivery)
      modifies this
      ensures View() == M.Recv(old(View()), now, d)
    {
      if M.Connected(state) {
        if d.Message? {
          lastReceived := now;
          if state == M.Idle {
            if d.echoReply {
              if idleEchoXid == 0 {
                Transition(M.Active, now);
              } else {
                if idleEchoXid == d.xid {
                  Transition(M.Active, now);
                }
                idleEchoXid := 0;
              }
            } else {
              Transition(M.Active, now);
            }
          }
        } else if d.Error? {
          Drop(now);
        }
      }
    }

    method RunConnecting(now: nat, connect: M.Io)
      requires state == M.Connecting
      modifies this
      ensures View() == M.RunConnecting(old(View()), now, connect)
    {
      if connect == M.Done {
        Transition(M.Active, now);
        lastConnected := stateEntered;
      } else if connect != M.Again {
        Drop(now);
      } else if TimedOut(now) {
        backoffDeadline := M.TIME_MAX;
        Drop(now);
      }
    }

    method RunState(now: nat, open: M.Open, connect: M.Io, echoXid: nat)
      requires M.HasVconn(state) ==> vconn
      modifies this
      ensures View() == M.RunState(old(View()), now, open, connect, echoXid)
    {
      match state
      case Void =>
      case Backoff => if TimedOut(now) { Reconnect(now, open); }
      case Connecting => RunConnecting(now, connect);
      case Active =>
        if TimedOut(now) {
          Transition(M.Idle, now);
          var _ := Send(now, M.Packet(echoXid, None));
        } else {
          DoTxWork(now);
        }
      case Idle => if TimedOut(now) { Drop(now); } else { DoTxWork(now); }
    }

    /** `rconn_run`. */
    method Run(now: nat, open: M.Open, connect: M.Io, echoXid: nat)
      requires M.Inv(View()) && now < M.UINT_MAX
      modifies this
      ensures View() == R.Run(old(View()), now, open, connect, echoXid)
    {
      var changed := true;
      while changed
        invariant M.Inv(View())
        invariant (if changed then R.Run(View(), now, open, connect, echoXid) else View())
               == R.Run(old(View()), now, open, connect, echoXid)
        decreases changed, M.Passes(View(), now)
      {
        R.RunStateInv(View(), now, open, connect, echoXid);
        var oldState := state;
        RunState(now, open, connect, echoXid);
        changed := state != oldState;
      }
    }
  }
}

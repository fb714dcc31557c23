/** A reliable connection: what each operation of `rconn.c` does to its state. */
module RconnModel {
  import opened Wrappers

  datatype State = Void | Backoff | Connecting | Active | Idle

  /** How a call on the underlying connection ended: 0, EAGAIN or another error. */
  datatype Io = Done | Again | Failed

  /** How opening a connection ended, and whether it could be reopened later. */
  datatype Open = Opened(reconnectable: bool) | Refused

  /** A packet and the caller's counter it is charged to, if any. */
  datatype Packet = Packet(xid: nat, counter: Option<nat>)

  /** A packet that has left the queue. */
  datatype Gone = Sent(packet: Packet) | Dropped(packet: Packet)

  const UINT_MAX := 0xffff_ffff
  const TIME_MIN := -0x8000_0000_0000_0000
  const TIME_MAX := 0x7fff_ffff_ffff_ffff

  /**
   * `struct rconn`.  `counters` stands for the callers' integers that queued
   * packets point to, `accepted` and `gone` record what entered and what left
   * the queue, and `sends` is how the underlying connection will answer the
   * sends to come.
   */
  datatype Rconn = Rconn(
    state: State, stateEntered: nat, vconn: bool, reliable: bool,
    txq: seq<Packet>, counters: map<nat, int>, accepted: seq<Packet>, gone: seq<Gone>, sends: seq<Io>,
    backoff: nat, maxBackoff: nat, backoffDeadline: int,
    lastReceived: nat, lastConnected: nat, packetsSent: nat, seqno: nat,
    probeInterval: nat, idleEchoXid: nat, attempts: nat)

  function Max(a: int, b: int): int { if a >= b then a else b }

  function Min(a: int, b: int): int { if a <= b then a else b }

  predicate Connected(s: State) { s == Active || s == Idle }

  predicate HasVconn(s: State) { s == Connecting || s == Active || s == Idle }

  function Create(probeInterval: nat, maxBackoff: nat, now: nat, counters: map<nat, int>, sends: seq<Io>): Rconn {
    Rconn(Void, now, false, false, [], counters, [], [], sends,
          0, if maxBackoff != 0 then maxBackoff else 60, TIME_MIN, now, now, 0, 0, probeInterval, 0, 0)
  }

  // ---------------------------------------------------------------- timeouts

  function SatAdd(a: nat, b: nat): nat { if a + b > UINT_MAX then UINT_MAX else a + b }

  function Timeout(r: Rconn): nat {
    match r.state
    case Void => UINT_MAX
    case Backoff => r.backoff
    case Connecting => Max(1, r.backoff)
    case Active =>
      if r.probeInterval != 0 then Max(r.lastReceived, r.stateEntered) + r.probeInterval - r.stateEntered else UINT_MAX
    case Idle => r.probeInterval
  }

  predicate TimedOut(r: Rconn, now: nat) { now >= SatAdd(r.stateEntered, Timeout(r)) }

  // ---------------------------------------------------------------- state changes

  function Transition(r: Rconn, to: State, now: nat): Rconn {
    var flip := if (r.state == Active) != (to == Active) then 1 else 0;
    r.(seqno := (r.seqno + flip) % 0x1_0000_0000, state := to, stateEntered := now)
  }

  function Add(counters: map<nat, int>, p: Packet, n: int): map<nat, int> {
    if p.counter.Some? && p.counter.value in counters
    then counters[p.counter.value := counters[p.counter.value] + n] else counters
  }

  function Uncount(counters: map<nat, int>, q: seq<Packet>): map<nat, int> {
    if q == [] then counters else Uncount(Add(counters, q[0], -1), q[1..])
  }

  function AllDropped(q: seq<Packet>): (r: seq<Gone>)
    ensures |r| == |q|
  {
    if q == [] then [] else [Dropped(q[0])] + AllDropped(q[1..])
  }

  function FlushQueue(r: Rconn): Rconn {
    r.(txq := [], counters := Uncount(r.counters, r.txq), gone := r.gone + AllDropped(r.txq))
  }

  /** `rconn_disconnect`. */
  function Close(r: Rconn, now: nat): Rconn {
    if r.state == Void then r
    else Transition(r.(vconn := false, reliable := false, backoff := 0, backoffDeadline := TIME_MIN), Void, now)
  }

  function NextBackoff(r: Rconn, now: nat): nat {
    if now >= r.backoffDeadline then 1 else Min(r.maxBackoff, Max(1, 2 * r.backoff))
  }

  /** `disconnect`. */
  function Drop(r: Rconn, now: nat): Rconn {
    if r.reliable then
      var a := if HasVconn(r.state) then FlushQueue(r.(vconn := false)) else r;
      var b := NextBackoff(a, now);
      Transition(a.(backoff := b, backoffDeadline := now + b), Backoff, now)
    else Close(r, now)
  }

  function Reconnect(r: Rconn, now: nat, open: Open): Rconn {
    var a := r.(attempts := r.attempts + 1);
    match open
    case Opened(again) =>
      Transition(a.(vconn := true, reliable := a.reliable && again, backoffDeadline := now + a.backoff), Connecting, now)
    case Refused => Drop(a.(vconn := false, backoffDeadline := TIME_MAX), now)
  }

  function Connect(r: Rconn, now: nat, open: Open): Rconn {
    Reconnect(Close(r, now).(reliable := true), now, open)
  }

  function ConnectUnreliably(r: Rconn, now: nat): Rconn {
    Transition(Close(r, now).(reliable := false, vconn := true, lastConnected := now), Active, now)
  }

  // ---------------------------------------------------------------- sending

  function NextSend(r: Rconn): Io { if r.sends == [] then Again else r.sends[0] }

  /** Sends the packet at the head of the queue, on a connection that exists. */
  function TrySend(r: Rconn, now: nat): Rconn
    requires r.vconn && r.txq != []
  {
    var a := r.(sends := if r.sends == [] then [] else r.sends[1..]);
    match NextSend(r)
    case Done =>
      a.(idleEchoXid := r.txq[0].xid, packetsSent := (r.packetsSent + 1) % 0x1_0000_0000,
         counters := Add(r.counters, r.txq[0], -1), txq := r.txq[1..], gone := r.gone + [Sent(r.txq[0])])
    case Again => a.(idleEchoXid := 0)
    case Failed => Drop(a.(idleEchoXid := 0), now)
  }

  function DoTxWork(r: Rconn, now: nat): Rconn
    requires r.vconn
    decreases |r.txq|
  {
    if r.txq == [] then r
    else if NextSend(r) == Done then DoTxWork(TrySend(r, now), now)
    else TrySend(r, now)
  }

  function Enqueue(r: Rconn, p: Packet): Rconn {
    r.(counters := Add(r.counters, p, 1), txq := r.txq + [p], accepted := r.accepted + [p])
  }

  function Send(r: Rconn, now: nat, p: Packet): Rconn
    requires Connected(r.state) ==> r.vconn
  {
    if !Connected(r.state) then r
    else if r.txq == [] then TrySend(Enqueue(r, p), now) else Enqueue(r, p)
  }

  /** `rconn_send_with_limit`, for a packet with a counter. */
  function SendWithLimit(r: Rconn, now: nat, p: Packet, limit: int): Rconn
    requires Connected(r.state) ==> r.vconn
  {
    if p.counter.Some? && p.counter.value in r.counters && r.counters[p.counter.value] >= limit then r
    else Send(r, now, p)
  }

  // ---------------------------------------------------------------- receiving

  /** What the underlying connection delivered, if anything. */
  datatype Delivery = Message(echoReply: bool, xid: nat) | Nothing | Error

  function Recv(r: Rconn, now: nat, d: Delivery): Rconn {
    if !Connected(r.state) then r
    else
      match d
      case Nothing => r
      case Error => Drop(r, now)
      case Message(echoReply, xid) =>
        var a := r.(lastReceived := now);
        if r.state != Idle then a
        else if !echoReply || r.idleEchoXid == 0 then Transition(a, Active, now)
        else if r.idleEchoXid == xid then Transition(a, Active, now).(idleEchoXid := 0)
        else a.(idleEchoXid := 0)
  }

  // ---------------------------------------------------------------- rconn_run

  /** One pass of the loop in `rconn_run`. */
  function RunState(r: Rconn, now: nat, open: Open, connect: Io, echoXid: nat): Rconn
    requires HasVconn(r.state) ==> r.vconn
  {
    match r.state
    case Void => r
    case Backoff => if TimedOut(r, now) then Reconnect(r, now, open) else r
    case Connecting => RunConnecting(r, now, connect)
    case Active =>
      if TimedOut(r, now) then Send(Transition(r, Idle, now), now, Packet(echoXid, None)) else DoTxWork(r, now)
    case Idle => if TimedOut(r, now) then Drop(r, now) else DoTxWork(r, now)
  }

  function RunConnecting(r: Rconn, now: nat, connect: Io): Rconn {
    match connect
    case Done => Transition(r, Active, now).(lastConnected := now)
    case Failed => Drop(r, now)
    case Again => if TimedOut(r, now) then Drop(r.(backoffDeadline := TIME_MAX), now) else r
  }

  // ---------------------------------------------------------------- the invariant

  /** Every queued packet is charged to a counter that exists. */
  predicate Charged(q: seq<Packet>, counters: map<nat, int>) {
    forall i :: 0 <= i < |q| && q[i].counter.Some? ==> q[i].counter.value in counters
  }

  predicate Inv(r: Rconn) {
    && (r.vconn <==> HasVconn(r.state))
    && (r.seqno % 2 == 1 <==> r.state == Active)
    && 1 <= r.maxBackoff && r.backoff <= r.maxBackoff
    && (r.state == Backoff ==> r.reliable && r.backoff >= 1)
    && (r.state == Void ==> r.backoff == 0)
    && (r.state == Idle ==> r.probeInterval >= 1)
    && Charged(r.txq, r.counters)
  }

  /** How many more passes `rconn_run` can make at one clock reading. */
  function Passes(r: Rconn, now: nat): nat {
    match r.state
    case Void => 0
    case Backoff => if TimedOut(r, now) then 4 else 0
    case Connecting => 3
    case Active => 2
    case Idle => 1
  }
}

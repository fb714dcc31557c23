/** Messages over a byte stream: `stream_send`, `stream_do_tx` and `stream_recv`. */
module StreamFraming {
  type Byte = x: int | 0 <= x < 256

  const HEADER := 8

  /** The length field of an OpenFlow header, in network byte order. */
  function Length(b: seq<Byte>): nat
    requires |b| >= HEADER
  {
    b[2] as int * 256 + b[3] as int
  }

  /** A message whose length field tells its size. */
  predicate WellFormed(m: seq<Byte>) { |m| >= HEADER && Length(m) == |m| }

  // ---------------------------------------------------------------- receiving

  /** How one read ends, offered the bytes on the wire: with at most `n` of them, at end of file, or with an error. */
  datatype Read = Got(n: nat) | Eof | Fail

  datatype Outcome = Delivered(msg: seq<Byte>) | Again | Proto | Closed | Error

  /** What a call of `stream_recv` returns, leaves in the receive buffer and leaves on the wire. */
  datatype Received = Received(outcome: Outcome, rx: seq<Byte>, wire: seq<Byte>)

  function Min(a: nat, b: nat): nat { if a <= b then a else b }

  /** Bytes a read that is offered `wire` takes when it asks for `want`. */
  function Taken(r: Read, want: nat, wire: seq<Byte>): (k: nat)
    ensures k <= want && k <= |wire|
  {
    if r.Got? then Min(r.n, Min(want, |wire|)) else 0
  }

  function NextRead(rs: seq<Read>): Read { if rs == [] then Got(0) else rs[0] }

  /** The receive buffer never runs past the message it holds the start of. */
  predicate RxOk(rx: seq<Byte>) { |rx| >= HEADER ==> |rx| <= Length(rx) || |rx| == HEADER }

  /** Bytes the next read asks for; none where a whole message, or a bad header, is there. */
  function Want(rx: seq<Byte>): nat {
    if |rx| < HEADER then HEADER - |rx|
    else if Length(rx) <= |rx| then 0 else Length(rx) - |rx|
  }

  function Recv(rx: seq<Byte>, wire: seq<Byte>, rs: seq<Read>): Received
    requires RxOk(rx)
    decreases HEADER - |rx|
  {
    if |rx| >= HEADER && Length(rx) < HEADER then Received(Proto, rx, wire)
    else if |rx| >= HEADER && Want(rx) == 0 then Received(Delivered(rx), [], wire)
    else
      var k := Taken(NextRead(rs), Want(rx), wire);
      var rx', wire' := rx + wire[..k], wire[k..];
      if k == Want(rx) then
        if |rx'| > HEADER then Received(Delivered(rx'), [], wire')
        else Recv(rx', wire', if rs == [] then [] else rs[1..])
      else if k > 0 || NextRead(rs).Got? then Received(Again, rx', wire')
      else if NextRead(rs).Eof? then Received(if rx != [] then Proto else Closed, rx, wire)
      else Received(Error, rx, wire)
  }

  // ---------------------------------------------------------------- sending

  /** How one write ends: with `n` bytes taken, would block, or fails. */
  datatype Write = Wrote(n: nat) | Blocked | Broken

  /** What is accepted, what stays in the transmit buffer and what reaches the wire. */
  datatype Sent = Sent(accepted: bool, tx: seq<Byte>, wire: seq<Byte>)

  function Send(tx: seq<Byte>, wire: seq<Byte>, m: seq<Byte>, w: Write): Sent {
    if tx != [] || w.Broken? then Sent(false, tx, wire)
    else
      var k := if w.Wrote? then Min(w.n, |m|) else 0;
      Sent(true, m[k..], wire + m[..k])
  }

  /** `stream_do_tx`: a failing write drops what was left to send. */
  function DoTx(tx: seq<Byte>, wire: seq<Byte>, w: Write): Sent {
    var k := if w.Wrote? then Min(w.n, |tx|) else 0;
    if w.Broken? then Sent(true, [], wire) else Sent(true, tx[k..], wire + tx[..k])
  }

  // ---------------------------------------------------------------- the receiver, on any bytes at all

  lemma TakeMore(rx: seq<Byte>, wire: seq<Byte>, k: nat)
    requires RxOk(rx) && k <= Want(rx) && k <= |wire| && (|rx| >= HEADER ==> Length(rx) >= HEADER)
    ensures var rx' := rx + wire[..k];
      RxOk(rx') && rx' + wire[k..] == rx + wire && (|rx| >= HEADER && k == Want(rx) ==> WellFormed(rx'))
  {
    var rx' := rx + wire[..k];
    if |rx| >= HEADER { assert rx'[2] == rx[2] && rx'[3] == rx[3]; }
  }

  /** Whatever comes in, bytes are neither lost nor invented, and what is delivered has the size it claims. */
  lemma {:induction false} RecvConserves(rx: seq<Byte>, wire: seq<Byte>, rs: seq<Read>)
    requires RxOk(rx)
    ensures var r := Recv(rx, wire, rs);
      && RxOk(r.rx)
      && (if r.outcome.Delivered? then WellFormed(r.outcome.msg) && r.rx == [] && rx + wire == r.outcome.msg + r.wire
          else rx + wire == r.rx + r.wire)
    decreases HEADER - |rx|
  {
    if (|rx| >= HEADER && Length(rx) < HEADER) || (|rx| >= HEADER && Want(rx) == 0) {
    } else {
      var k := Taken(NextRead(rs), Want(rx), wire);
      TakeMore(rx, wire, k);
      if k == Want(rx) && |rx| < HEADER {
        RecvConserves(rx + wire[..k], wire[k..], if rs == [] then [] else rs[1..]);
      }
    }
  }

  predicate BadHeader(rx: seq<Byte>) { |rx| >= HEADER && Length(rx) < HEADER }

  /** The read a call that delivers nothing ends on: the second one if the first completes a header. */
  function LastRead(rx: seq<Byte>, wire: seq<Byte>, rs: seq<Read>): Read {
    if |rx| < HEADER && Taken(NextRead(rs), Want(rx), wire) == Want(rx)
    then NextRead(if rs == [] then [] else rs[1..]) else NextRead(rs)
  }

  /** The end of the stream between messages is told from one inside a message, and both from
      a failing socket; a header that claims less than itself is the only other error. */
  lemma ErrorsExactly(rx: seq<Byte>, wire: seq<Byte>, rs: seq<Read>)
    requires RxOk(rx)
    ensures
      var r, last := Recv(rx, wire, rs), LastRead(rx, wire, rs);
      && (r.outcome == Closed <==> rx == [] && last.Eof? && r.rx == [] && !r.outcome.Delivered?)
      && (r.outcome == Proto <==> BadHeader(r.rx) || (r.rx != [] && last.Eof?))
      && (r.outcome == Error <==> last.Fail? && !BadHeader(r.rx) && !r.outcome.Delivered?)
      && (r.outcome == Again <==> last.Got? && !BadHeader(r.rx) && !r.outcome.Delivered?)
  {
    if !(|rx| >= HEADER && (Length(rx) < HEADER || Want(rx) == 0)) {
      var k := Taken(NextRead(rs), Want(rx), wire);
      TakeMore(rx, wire, k);
    }
  }

  // ---------------------------------------------------------------- a sender and a receiver

  /** One direction of a connection: both ends' buffers, the bytes between them and the messages so far. */
  datatype Link = Link(
    tx: seq<Byte>, wire: seq<Byte>, rx: seq<Byte>, accepted: seq<seq<Byte>>, delivered: seq<seq<Byte>>)

  datatype Event = LSend(msg: seq<Byte>, write: Write) | LTx(write: Write) | LRecv(rs: seq<Read>)

  /** The sender hands over messages whose length field is right, and no write to the socket fails midway. */
  predicate Legal(e: Event) {
    match e
    case LSend(m, _) => WellFormed(m)
    case LTx(w) => !w.Broken?
    case LRecv(_) => true
  }

  const IDLE := Link([], [], [], [], [])

  function Step(l: Link, e: Event): Link
    requires RxOk(l.rx)
  {
    match e
    case LSend(m, w) =>
      var s := Send(l.tx, l.wire, m, w);
      l.(tx := s.tx, wire := s.wire, accepted := if s.accepted then l.accepted + [m] else l.accepted)
    case LTx(w) => var s := DoTx(l.tx, l.wire, w); l.(tx := s.tx, wire := s.wire)
    case LRecv(rs) =>
      var r := Recv(l.rx, l.wire, rs);
      l.(rx := r.rx, wire := r.wire,
         delivered := if r.outcome.Delivered? then l.delivered + [r.outcome.msg] else l.delivered)
  }

  function Flat(ms: seq<seq<Byte>>): seq<Byte> {
    if ms == [] then [] else ms[0] + Flat(ms[1..])
  }

  /** What was delivered is what was accepted first; the bytes on their way are the rest, in order. */
  predicate Inv(l: Link) {
    && RxOk(l.rx)
    && (forall i :: 0 <= i < |l.accepted| ==> WellFormed(l.accepted[i]))
    && l.delivered <= l.accepted
    && l.rx + l.wire + l.tx == Flat(l.accepted[|l.delivered|..])
  }

  lemma {:induction false} FlatAppend(ms: seq<seq<Byte>>, m: seq<Byte>)
    ensures Flat(ms + [m]) == Flat(ms) + m
  {
    if ms == [] {
      assert Flat([m]) == m + Flat([]);
    } else {
      FlatAppend(ms[1..], m);
      assert (ms + [m])[1..] == ms[1..] + [m];
      Assoc(ms[0], Flat(ms[1..]), m);
    }
  }

  lemma Assoc<T>(a: seq<T>, b: seq<T>, c: seq<T>)
    ensures (a + b) + c == a + (b + c)
  {
  }

  /** Two well-formed messages that start the same bytes are the same. */
  lemma SameStart(m: seq<Byte>, n: seq<Byte>, s: seq<Byte>)
    requires WellFormed(m) && WellFormed(n) && m <= s && n <= s
    ensures m == n
  {
    assert m[2] == s[2] == n[2] && m[3] == s[3] == n[3];
  }

  lemma SendInv(l: Link, m: seq<Byte>, w: Write)
    requires Inv(l) && WellFormed(m)
    ensures Inv(Step(l, LSend(m, w)))
  {
    var s := Send(l.tx, l.wire, m, w);
    if s.accepted {
      var rest := l.accepted[|l.delivered|..];
      assert (l.accepted + [m])[|l.delivered|..] == rest + [m];
      FlatAppend(rest, m);
      assert l.rx + s.wire + s.tx == l.rx + l.wire + m;
      assert l.rx + l.wire + l.tx == l.rx + l.wire;
    }
  }

  lemma TxInv(l: Link, w: Write)
    requires Inv(l) && !w.Broken?
    ensures Inv(Step(l, LTx(w)))
  {
    var s := DoTx(l.tx, l.wire, w);
    assert l.rx + s.wire + s.tx == l.rx + l.wire + l.tx;
  }

  /** What the receiver delivers is the next message accepted. */
  lemma DeliversNext(l: Link, rs: seq<Read>)
    requires Inv(l) && Recv(l.rx, l.wire, rs).outcome.Delivered?
    ensures |l.delivered| < |l.accepted|
    ensures Recv(l.rx, l.wire, rs).outcome.msg == l.accepted[|l.delivered|]
  {
    var r := Recv(l.rx, l.wire, rs);
    var s, rest := l.rx + l.wire + l.tx, l.accepted[|l.delivered|..];
    RecvConserves(l.rx, l.wire, rs);
    assert r.outcome.msg <= s;
    assert rest != [];
    assert rest[0] <= s;
    SameStart(r.outcome.msg, rest[0], s);
  }

  lemma RecvInv(l: Link, rs: seq<Read>)
    requires Inv(l)
    ensures Inv(Step(l, LRecv(rs)))
  {
    var r := Recv(l.rx, l.wire, rs);
    RecvConserves(l.rx, l.wire, rs);
    if r.outcome.Delivered? {
      DeliversNext(l, rs);
      var rest := l.accepted[|l.delivered|..];
      assert rest[1..] == l.accepted[|l.delivered| + 1..];
      Assoc(r.outcome.msg, r.wire, l.tx);
      DropStart(r.outcome.msg, r.wire + l.tx, Flat(rest[1..]));
      assert [] + r.wire + l.tx == r.wire + l.tx;
    }
  }

  lemma DropStart<T>(a: seq<T>, b: seq<T>, c: seq<T>)
    requires a + b == a + c
    ensures b == c
  {
    assert b == (a + b)[|a|..] && c == (a + c)[|a|..];
  }

  function Run(l: Link, es: seq<Event>): (t: Link)
    requires Inv(l) && (forall i :: 0 <= i < |es| ==> Legal(es[i]))
    ensures Inv(t)
  {
    if es == [] then l
    else
      var s, e := Run(l, es[..|es| - 1]), es[|es| - 1];
      StepInv(s, e);
      Step(s, e)
  }

  lemma StepInv(l: Link, e: Event)
    requires Inv(l) && Legal(e)
    ensures Inv(Step(l, e))
  {
    match e
    case LSend(m, w) => SendInv(l, m, w);
    case LTx(w) => TxInv(l, w);
    case LRecv(rs) => RecvInv(l, rs);
  }

  lemma {:induction false} FlatConcat(ms: seq<seq<Byte>>, ns: seq<seq<Byte>>)
    ensures Flat(ms + ns) == Flat(ms) + Flat(ns)
    decreases |ms|
  {
    if ms == [] {
      assert ms + ns == ns;
    } else {
      FlatConcat(ms[1..], ns);
      assert (ms + ns)[1..] == ms[1..] + ns;
      Assoc(ms[0], Flat(ms[1..]), Flat(ns));
    }
  }

  predicate Exact(l: Link) {
    && l.delivered <= l.accepted
    && Flat(l.accepted) == Flat(l.delivered) + (l.rx + l.wire + l.tx)
    && (l.rx + l.wire + l.tx == [] ==> l.delivered == l.accepted)
  }

  lemma InvExact(l: Link)
    requires Inv(l)
    ensures Exact(l)
  {
    var rest := l.accepted[|l.delivered|..];
    assert l.accepted == l.delivered + rest;
    FlatConcat(l.delivered, rest);
    if rest != [] {
      assert WellFormed(rest[0]) && |Flat(rest)| >= |rest[0]|;
    }
  }

  /**
   * However writes and reads chop the bytes up, the receiver delivers the
   * messages the sender accepted, whole and in order, and every byte accepted
   * is delivered, buffered or on the wire.
   */
  lemma DeliversExactly(es: seq<Event>)
    requires forall i :: 0 <= i < |es| ==> Legal(es[i])
    ensures Exact(Run(IDLE, es))
  {
    InvExact(Run(IDLE, es));
  }

  // ---------------------------------------------------------------- progress

  predicate AllGot(rs: seq<Read>) { forall i :: 0 <= i < |rs| ==> rs[i].Got? }

  /** Unless the other end closes or the socket fails, receiving from this sender never reports an error. */
  lemma NeverBadHeader(l: Link, rs: seq<Read>)
    requires Inv(l) && AllGot(rs)
    ensures var o := Recv(l.rx, l.wire, rs).outcome; o.Delivered? || o.Again?
  {
    GoodHeader(l.rx, l.wire, rs, l.rx + l.wire + l.tx, l.accepted[|l.delivered|..]);
  }

  lemma {:induction false} GoodHeader(rx: seq<Byte>, wire: seq<Byte>, rs: seq<Read>, s: seq<Byte>, rest: seq<seq<Byte>>)
    requires RxOk(rx) && AllGot(rs) && rx + wire <= s && s == Flat(rest) && (rest != [] ==> WellFormed(rest[0]))
    ensures var o := Recv(rx, wire, rs).outcome; o.Delivered? || o.Again?
    decreases HEADER - |rx|
  {
    if |rx| >= HEADER {
      assert rest != [] && rest[0] <= s && rx <= s;
      assert rx[2] == s[2] == rest[0][2] && rx[3] == s[3] == rest[0][3];
    } else {
      var k := Taken(NextRead(rs), Want(rx), wire);
      TakeMore(rx, wire, k);
      if k == Want(rx) { GoodHeader(rx + wire[..k], wire[k..], if rs == [] then [] else rs[1..], s, rest); }
    }
  }

  /** A message that has arrived whole is delivered by the next call, if its two reads give what they are asked for. */
  lemma ArrivedIsDelivered(rx: seq<Byte>, wire: seq<Byte>, m: seq<Byte>)
    requires RxOk(rx) && WellFormed(m) && m <= rx + wire
    ensures Recv(rx, wire, [Got(0x1_0000), Got(0x1_0000)]).outcome.Delivered?
  {
    var rs := [Got(0x1_0000), Got(0x1_0000)];
    assert Length(m) < 0x1_0000;
    if |rx| < HEADER {
      var k := HEADER - |rx|;
      var rx', wire' := rx + wire[..k], wire[k..];
      assert rx' + wire' == rx + wire;
      ArrivedBody(rx', wire', m, rs[1..]);
    } else {
      ArrivedBody(rx, wire, m, rs);
    }
  }

  lemma ArrivedBody(rx: seq<Byte>, wire: seq<Byte>, m: seq<Byte>, rs: seq<Read>)
    requires RxOk(rx) && |rx| >= HEADER && WellFormed(m) && m <= rx + wire && rs != [] && rs[0] == Got(0x1_0000)
    ensures Recv(rx, wire, rs).outcome.Delivered?
  {
    assert rx[2] == (rx + wire)[2] == m[2] && rx[3] == (rx + wire)[3] == m[3];
  }

  /** A message is accepted if and only if nothing is left over and the write does not fail;
      the bytes the write takes, up to all of them, are then on the wire and the rest is left
      over. A message that is not accepted changes nothing. */
  lemma SendExactly(l: Link, m: seq<Byte>, w: Write)
    requires RxOk(l.rx)
    ensures
      var t := Step(l, LSend(m, w));
      if l.tx == [] && !w.Broken?
      then && t.accepted == l.accepted + [m] && t.wire + t.tx == l.wire + m
           && |t.wire| == |l.wire| + if w.Blocked? then 0 else Min(w.n, |m|)
      else t == l
  {
  }

  /** A write takes from what is left over as much as it can, and a write of enough empties it. */
  lemma TxExactly(l: Link, n: nat)
    requires RxOk(l.rx)
    ensures
      var t := Step(l, LTx(Wrote(n)));
      && t.wire + t.tx == l.wire + l.tx && |t.tx| == |l.tx| - Min(n, |l.tx|)
      && (n >= |l.tx| ==> t.tx == [] && t.wire == l.wire + l.tx)
  {
  }

  const FULL_READS: seq<Read> := [Got(0x1_0000), Got(0x1_0000)]

  /** One call of `stream_recv` after another. */
  function ReceiveAll(l: Link, k: nat): (t: Link)
    requires Inv(l)
    ensures Inv(t)
  {
    if k == 0 then l
    else
      var s := ReceiveAll(l, k - 1);
      StepInv(s, LRecv(FULL_READS));
      Step(s, LRecv(FULL_READS))
  }

  /** A receiver that is behind delivers the next message, once nothing is left over at the sender. */
  lemma NextIsDelivered(l: Link)
    requires Inv(l) && l.tx == [] && |l.delivered| < |l.accepted|
    ensures
      var t := Step(l, LRecv(FULL_READS));
      t.delivered == l.delivered + [l.accepted[|l.delivered|]] && t.accepted == l.accepted && t.tx == []
  {
    var rest := l.accepted[|l.delivered|..];
    assert WellFormed(rest[0]) && rest[0] <= Flat(rest) && l.rx + l.wire + l.tx == l.rx + l.wire;
    ArrivedIsDelivered(l.rx, l.wire, rest[0]);
    DeliversNext(l, FULL_READS);
  }

  /** Of what the link has accepted, `k` more messages are delivered. */
  predicate Ahead(l: Link, k: nat, t: Link)
    requires |l.delivered| + k <= |l.accepted|
  {
    t.delivered == l.accepted[..|l.delivered| + k] && t.accepted == l.accepted && t.tx == []
  }

  lemma TakeOneMore<T>(a: seq<T>, n: nat)
    requires n < |a|
    ensures a[..n] + [a[n]] == a[..n + 1]
  {
  }

  lemma OneFurther(l: Link, k: nat, s: Link)
    requires |l.delivered| + k < |l.accepted| && Ahead(l, k, s) && Inv(s)
    ensures Ahead(l, k + 1, Step(s, LRecv(FULL_READS)))
  {
    NextIsDelivered(s);
    TakeOneMore(l.accepted, |l.delivered| + k);
  }

  lemma {:induction false} ReceivesInTurn(l: Link, k: nat)
    requires Inv(l) && l.tx == [] && |l.delivered| + k <= |l.accepted|
    ensures Ahead(l, k, ReceiveAll(l, k))
  {
    if k > 0 {
      ReceivesInTurn(l, k - 1);
      OneFurther(l, k - 1, ReceiveAll(l, k - 1));
    }
  }

  /** From any state of the link, one write that takes all that is left over and one call of
      the receiver for each message not delivered yet deliver all that was accepted, and leave
      no byte behind. */
  lemma EverythingArrives(l: Link)
    requires Inv(l)
    ensures
      var s := Step(l, LTx(Wrote(|l.tx|)));
      && Inv(s) && |l.delivered| <= |l.accepted|
      && var t := ReceiveAll(s, |l.accepted| - |l.delivered|);
         t.delivered == l.accepted && t.rx == [] && t.wire == [] && t.tx == []
  {
    var s := Step(l, LTx(Wrote(|l.tx|)));
    TxInv(l, Wrote(|l.tx|));
    ReceivesInTurn(s, |l.accepted| - |l.delivered|);
    var t := ReceiveAll(s, |l.accepted| - |l.delivered|);
    assert t.accepted[|t.delivered|..] == [];
  }
}

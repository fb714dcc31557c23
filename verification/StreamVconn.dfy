/** `struct stream_vconn`, over a socket whose two byte streams are fields. */
module StreamVconn {
  import opened StreamFraming

  class StreamVconn {
    var rxbuf: seq<Byte>
    var txbuf: seq<Byte>
    var input: seq<Byte>
    var output: seq<Byte>

    constructor (input: seq<Byte>)
      ensures rxbuf == [] && txbuf == [] && output == [] && this.input == input
    {
      rxbuf, txbuf, output := [], [], [];
      this.input := input;
    }

    /** `stream_recv`; `rs` says how the reads end. */
    method RecvMessage(rs: seq<Read>) returns (outcome: Outcome)
      requires RxOk(rxbuf)
      modifies `rxbuf, `input
      ensures Recv(old(rxbuf), old(input), rs) == Received(outcome, rxbuf, input)
    {
      var left := rs;
      while true
        invariant RxOk(rxbuf) && Recv(rxbuf, input, left) == Recv(old(rxbuf), old(input), rs)
        decreases HEADER - |rxbuf|
      {
        var want;
        if |rxbuf| < HEADER {
          want := HEADER - |rxbuf|;
        } else {
          if Length(rxbuf) < HEADER {
            return Proto;
          }
          want := Length(rxbuf) - |rxbuf|;
          if want == 0 {
            outcome := Delivered(rxbuf);
            rxbuf := [];
            return;
          }
        }
        var read := NextRead(left);
        var k := Taken(read, want, input);
        if k == 0 {
          return if read.Got? then Again else if read.Fail? then Error else if rxbuf != [] then Proto else Closed;
        }
        TakeMore(rxbuf, input, k);
        rxbuf, input := rxbuf + input[..k], input[k..];
        if k != want {
          return Again;
        }
        if |rxbuf| > HEADER {
          outcome := Delivered(rxbuf);
          rxbuf := [];
          return;
        }
        left := if left == [] then [] else left[1..];
      }
    }

    /** `stream_send`; `w` says how the write ends. */
    method SendMessage(m: seq<Byte>, w: Write) returns (accepted: bool)
      modifies `txbuf, `output
      ensures Send(old(txbuf), old(output), m, w) == Sent(accepted, txbuf, output)
    {
      if txbuf != [] {
        return false;
      }
      var k := if w.Wrote? then Min(w.n, |m|) else 0;
      if w.Broken? {
        return false;
      }
      output := output + m[..k];
      if k != |m| {
        txbuf := m[k..];
      }
      return true;
    }

    /** `stream_do_tx`, called while there is something left to send. */
    method DoTxWork(w: Write)
      requires txbuf != []
      modifies `txbuf, `output
      ensures DoTx(old(txbuf), old(output), w) == Sent(true, txbuf, output)
    {
      if w.Broken? {
        txbuf := [];
      } else if w.Wrote? {
        var k := Min(w.n, |txbuf|);
        output, txbuf := output + txbuf[..k], txbuf[k..];
      } else {
        assert output + txbuf[..0] == output;
      }
    }
  }
}

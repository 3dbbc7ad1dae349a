/** A stream socket that fragments as it likes, and the loops that send and receive whole buffers over it. */
module Transport {
  import opened Bytes
  import opened Faults

  /**
    * One connection. `inbound` holds the bytes the peer puts on the stream that have not been delivered yet,
    * `sent` those handed to the stream so far. The two flags record that a socket call has failed.
    */
  class Connection {
    var inbound: bytes
    var sent: bytes
    var recvFailed: bool
    var sendFailed: bool

    constructor (inbound: bytes)
      ensures this.inbound == inbound && sent == [] && !recvFailed && !sendFailed
    {
      this.inbound := inbound;
      sent, recvFailed, sendFailed := [], false, false;
    }

    /** `recv`: a negative count on failure, 0 once the peer has closed, else any non-empty piece that is available. */
    method Recv(max: nat) returns (n: int, piece: bytes)
      requires max > 0
      modifies this`inbound, this`recvFailed
      ensures n < 0 ==> recvFailed
      ensures n == 0 ==> old(inbound) == []
      ensures n >= 0 ==> recvFailed == old(recvFailed)
      ensures n <= 0 ==> inbound == old(inbound)
      ensures n > 0 ==>
        && n == |piece| <= max && piece <= old(inbound) && inbound == old(inbound)[n..]
    {
      var fails: bool := *;
      if fails {
        recvFailed := true;
        return -1, [];
      }
      if inbound == [] { return 0, []; }
      n :| 1 <= n <= max && n <= |inbound|;
      piece := inbound[..n];
      inbound := inbound[n..];
    }

    /** `send`: a count that is not positive on failure, else any non-empty prefix of the data is taken. */
    method Send(data: bytes) returns (n: int)
      requires data != []
      modifies this`sent, this`sendFailed
      ensures n <= 0 ==> sendFailed && sent == old(sent)
      ensures n > 0 ==> n <= |data| && sent == old(sent) + data[..n] && sendFailed == old(sendFailed)
    {
      var fails: bool := *;
      if fails {
        sendFailed := true;
        return -1;
      }
      n :| 1 <= n <= |data|;
      sent := sent + data[..n];
    }

    method SendAll(data: bytes) returns (fault: Option<Fault>)
      modifies this`sent, this`sendFailed
      ensures fault.None? ==> sent == old(sent) + data && sendFailed == old(sendFailed)
      ensures fault.Some? ==> sendFailed && old(sent) <= sent <= old(sent) + data
    {
      var done := 0;
      while done < |data|
        invariant done <= |data| && sent == old(sent) + data[..done] && sendFailed == old(sendFailed)
      {
        var n := Send(data[done..]);
        if n <= 0 { return Some(SocketError); }
        assert data[..done] + data[done..][..n] == data[..done + n];
        done := done + n;
      }
      return None;
    }

    /** Succeeds exactly when `len` more bytes have arrived, and then returns those bytes, however they were cut. */
    method RecvExact(len: nat) returns (r: Result<bytes>, ghost taken: bytes)
      modifies this`inbound, this`recvFailed
      ensures old(inbound) == taken + inbound
      ensures |taken| <= len && (r.Ok? <==> |taken| == len)
      ensures r.Ok? ==> r.value == taken && recvFailed == old(recvFailed)
      ensures r.Err? ==> r.fault == PeerClosed || (r.fault == SocketError && recvFailed)
      ensures r == Err(PeerClosed) ==> inbound == [] && recvFailed == old(recvFailed)
    {
      var data := [];
      taken := [];
      while |data| < len
        invariant |data| <= len && data == taken
        invariant old(inbound) == taken + inbound
        invariant recvFailed == old(recvFailed)
      {
        ghost var pending := inbound;
        var n, piece := Recv(len - |data|);
        if n == 0 { return Err(PeerClosed), taken; }
        if n < 0 { return Err(SocketError), taken; }
        assert pending == piece + inbound;
        data, taken := data + piece, taken + piece;
      }
      return Ok(data), taken;
    }
  }
}

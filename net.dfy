/** A stream socket seen from one end. What the peer will ever send is fixed
    up front (after it, the peer closes); each `recv(bufsize)` hands over a
    non-empty prefix of at most bufsize bytes, of a length the network picks,
    or b'' once everything has been read. */
module Net {
  import opened Bytes

  class Socket {
    /** Bytes the peer has sent that this end has not read yet. */
    var inbound: seq<byte>
    /** Everything this end has written with `sendall`, in order. */
    var outbound: seq<byte>

    constructor (incoming: seq<byte>)
      ensures inbound == incoming && outbound == []
    {
      inbound := incoming;
      outbound := [];
    }

    /** `sock.recv(bufsize)`: any split of the stream is possible. */
    method Recv(bufsize: nat) returns (data: seq<byte>)
      modifies this
      ensures |data| <= bufsize && |data| <= |old(inbound)|
      ensures data == old(inbound)[..|data|] && inbound == old(inbound)[|data|..]
      ensures bufsize > 0 && old(inbound) != [] ==> data != []
      ensures outbound == old(outbound)
    {
      var most := if bufsize < |inbound| then bufsize else |inbound|;
      var least := if most > 0 then 1 else 0;
      var n: nat :| least <= n <= most;
      data := inbound[..n];
      inbound := inbound[n..];
    }

    /** `sock.sendall(data)`. */
    method SendAll(data: seq<byte>)
      modifies this
      ensures outbound == old(outbound) + data && inbound == old(inbound)
    {
      outbound := outbound + data;
    }
  }
}

/** Length-prefixed framing of the framed-JSON variant (`send_response` /
    `receive_request` on the server, `send_request` / `receive_response` on
    the client): a frame is the payload length as 4 big-endian bytes followed
    by exactly that many payload bytes. */
module Framing {
  import opened Bytes
  import opened Results
  import Net

  /** `to_bytes(4, ...)` raises OverflowError from this length on. */
  const FrameLimit: nat := 0x1_0000_0000
  /** The largest `recv` the body loop ever asks for. */
  const ReadBlock: nat := 4096

  datatype FrameError = Overflow | ConnectionClosed

  function Min(a: int, b: int): int
  {
    if a < b then a else b
  }

  /** `n.to_bytes(4, byteorder='big')`. */
  function LengthPrefix(n: nat): (r: seq<byte>)
    requires n < FrameLimit
    ensures |r| == 4
  {
    [n / 0x100_0000, (n / 0x1_0000) % 256, (n / 256) % 256, n % 256]
  }

  /** `int.from_bytes(bs, byteorder='big')`, for any number of bytes (b'' is 0). */
  function BigEndianValue(bs: seq<byte>): nat
  {
    if bs == [] then 0 else 256 * BigEndianValue(bs[..|bs| - 1]) + bs[|bs| - 1]
  }

  /** Reading the 4-byte prefix back gives the length that was written. */
  lemma PrefixValue(n: nat)
    requires n < FrameLimit
    ensures BigEndianValue(LengthPrefix(n)) == n
  {
    var p := LengthPrefix(n);
    var d0, d1, d2, d3 := p[0] as int, p[1] as int, p[2] as int, p[3] as int;
    assert p[..1][..0] == [];
    assert p[..2][..1] == p[..1];
    assert p[..3][..2] == p[..2];
    assert p[..4][..3] == p[..3];
    assert BigEndianValue(p[..1]) == d0;
    assert BigEndianValue(p[..2]) == 256 * d0 + d1;
    assert BigEndianValue(p[..3]) == 256 * (256 * d0 + d1) + d2;
    assert p[..4] == p;
    var a, b, c := n / 0x100_0000, n / 0x1_0000, n / 256;
    assert b == 256 * a + (n / 0x1_0000) % 256;
    assert c == 256 * b + (n / 256) % 256;
    assert n == 256 * c + n % 256;
  }

  /** The bytes `send_request(p)` / `send_response(p)` put on the wire, or
      the OverflowError `to_bytes` raises before anything is sent. */
  function EncodeFrame(payload: seq<byte>): (r: Result<seq<byte>, FrameError>)
  {
    if |payload| < FrameLimit then Ok(LengthPrefix(|payload|) + payload) else Err(Overflow)
  }

  method SendFrame(sock: Net.Socket, payload: seq<byte>) returns (r: Result<(), FrameError>)
    modifies sock
    ensures r.Ok? <==> |payload| < FrameLimit
    ensures r.Ok? ==> sock.outbound == old(sock.outbound) + LengthPrefix(|payload|) + payload
    ensures r.Err? ==> r.error == Overflow && sock.outbound == old(sock.outbound)
    ensures sock.inbound == old(sock.inbound)
  {
    if |payload| >= FrameLimit {
      return Err(Overflow);
    }
    sock.SendAll(LengthPrefix(|payload|));
    sock.SendAll(payload);
    r := Ok(());
  }

  /** The body loop shared by both receivers: read until n bytes have been
      accumulated, asking each time for min(remaining, 4096) so that nothing
      past the frame is consumed; an empty read means the peer closed. */
  method ReadExactly(sock: Net.Socket, n: nat) returns (r: Result<seq<byte>, FrameError>)
    modifies sock
    ensures r.Ok? <==> n <= |old(sock.inbound)|
    ensures r.Ok? ==> r.value == old(sock.inbound)[..n] && sock.inbound == old(sock.inbound)[n..]
    ensures r.Err? ==> r.error == ConnectionClosed && sock.inbound == []
    ensures sock.outbound == old(sock.outbound)
  {
    var chunks: seq<seq<byte>> := [];
    var received := 0;
    while received < n
      invariant received <= n && received <= |old(sock.inbound)|
      invariant Flatten(chunks) == old(sock.inbound)[..received]
      invariant sock.inbound == old(sock.inbound)[received..]
      invariant sock.outbound == old(sock.outbound)
      decreases n - received
    {
      var chunk := sock.Recv(Min(n - received, ReadBlock));
      if chunk == [] {
        return Err(ConnectionClosed);
      }
      FlattenSnoc(chunks, chunk);
      chunks := chunks + [chunk];
      received := received + |chunk|;
    }
    r := Ok(Flatten(chunks));
  }

  /** The outcome once a header of the first k stream bytes has been read:
      the payload and what is left of the stream. */
  function ReadAfterHeader(stream: seq<byte>, k: nat): (r: Result<(seq<byte>, seq<byte>), FrameError>)
    requires k <= |stream|
    ensures r.Ok? <==> k + BigEndianValue(stream[..k]) <= |stream|
    ensures r.Ok? ==> |r.value.0| == BigEndianValue(stream[..k]) && stream == stream[..k] + r.value.0 + r.value.1
    ensures r.Err? ==> r.error == ConnectionClosed
  {
    var n := BigEndianValue(stream[..k]);
    if k + n <= |stream| then Ok((stream[k..k + n], stream[k + n..])) else Err(ConnectionClosed)
  }

  /** What reading one frame from a stream must give: the payload whose
      length the full 4-byte prefix declares, and the rest of the stream. */
  function DecodeFrame(stream: seq<byte>): (r: Result<(seq<byte>, seq<byte>), FrameError>)
  {
    if |stream| < 4 then Err(ConnectionClosed) else ReadAfterHeader(stream, 4)
  }

  /** A frame reader that reads the prefix with the same exact-count loop as
      the body, so that no split of the stream changes what it returns. */
  method ReceiveFrame(sock: Net.Socket) returns (r: Result<seq<byte>, FrameError>)
    modifies sock
    ensures DecodeFrame(old(sock.inbound)).Ok? ==>
      r == Ok(DecodeFrame(old(sock.inbound)).value.0) && sock.inbound == DecodeFrame(old(sock.inbound)).value.1
    ensures DecodeFrame(old(sock.inbound)).Err? ==> r == Err(ConnectionClosed) && sock.inbound == []
    ensures sock.outbound == old(sock.outbound)
  {
    var header := ReadExactly(sock, 4);
    if header.Err? {
      return Err(ConnectionClosed);
    }
    ghost var afterHeader := sock.inbound;
    var body := ReadExactly(sock, BigEndianValue(header.value));
    if body.Err? {
      return Err(ConnectionClosed);
    }
    ghost var s := old(sock.inbound);
    assert s[4..][..BigEndianValue(header.value)] == s[4..4 + BigEndianValue(header.value)];
    r := Ok(body.value);
  }

  /** `receive_response` as written: the prefix comes from ONE `recv(4)`,
      which may return 1 to 4 bytes; only b'' is treated as a closed peer.
      `headerBytes` records how many bytes that first read returned. */
  method ReceiveResponseAsWritten(sock: Net.Socket) returns (r: Result<seq<byte>, FrameError>, ghost headerBytes: nat)
    modifies sock
    ensures headerBytes <= 4 && headerBytes <= |old(sock.inbound)|
    ensures old(sock.inbound) != [] ==> headerBytes >= 1
    ensures headerBytes == 0 ==> r == Err(ConnectionClosed)
    ensures headerBytes > 0 ==> match ReadAfterHeader(old(sock.inbound), headerBytes)
      case Ok((payload, rest)) => r == Ok(payload) && sock.inbound == rest
      case Err(_) => r == Err(ConnectionClosed) && sock.inbound == []
    ensures sock.outbound == old(sock.outbound)
  {
    var header := sock.Recv(4);
    headerBytes := |header|;
    if header == [] {
      return Err(ConnectionClosed), headerBytes;
    }
    var body := ReadExactly(sock, BigEndianValue(header));
    if body.Err? {
      return Err(ConnectionClosed), headerBytes;
    }
    ghost var s := old(sock.inbound);
    assert s[headerBytes..][..BigEndianValue(header)] == s[headerBytes..headerBytes + BigEndianValue(header)];
    r := Ok(body.value);
  }

  /** `receive_request` as written: the same single `recv(4)`, and not even
      an empty read is rejected: b'' decodes as length 0 and an empty body
      is returned (the JSON decoder then fails on it). */
  method ReceiveRequestAsWritten(sock: Net.Socket) returns (r: Result<seq<byte>, FrameError>, ghost headerBytes: nat)
    modifies sock
    ensures headerBytes <= 4 && headerBytes <= |old(sock.inbound)|
    ensures old(sock.inbound) != [] ==> headerBytes >= 1
    ensures match ReadAfterHeader(old(sock.inbound), headerBytes)
      case Ok((payload, rest)) => r == Ok(payload) && sock.inbound == rest
      case Err(_) => r == Err(ConnectionClosed) && sock.inbound == []
    ensures sock.outbound == old(sock.outbound)
  {
    var header := sock.Recv(4);
    headerBytes := |header|;
    var body := ReadExactly(sock, BigEndianValue(header));
    if body.Err? {
      return Err(ConnectionClosed), headerBytes;
    }
    ghost var s := old(sock.inbound);
    assert s[headerBytes..][..BigEndianValue(header)] == s[headerBytes..headerBytes + BigEndianValue(header)];
    r := Ok(body.value);
  }

  /** A frame written by the sender is read back exactly, followed by
      whatever came after it on the stream. */
  lemma FrameRoundTrip(payload: seq<byte>, rest: seq<byte>)
    requires |payload| < FrameLimit
    ensures EncodeFrame(payload).Ok?
    ensures DecodeFrame(EncodeFrame(payload).value + rest) == Ok((payload, rest))
  {
    var stream := EncodeFrame(payload).value + rest;
    assert stream[..4] == LengthPrefix(|payload|);
    PrefixValue(|payload|);
    assert stream[4..4 + |payload|] == payload;
    assert stream[4 + |payload|..] == rest;
  }

  /** A stream that ends inside a frame, the prefix included, gives
      ConnectionClosed. */
  lemma TruncatedFrameFails(payload: seq<byte>, cut: nat)
    requires |payload| < FrameLimit && cut < 4 + |payload|
    ensures DecodeFrame(EncodeFrame(payload).value[..cut]) == Err(ConnectionClosed)
  {
    var stream := EncodeFrame(payload).value[..cut];
    if cut >= 4 {
      assert stream[..4] == LengthPrefix(|payload|);
      PrefixValue(|payload|);
    }
  }

  /** When the first `recv(4)` happens to return all four bytes, the
      as-written readers agree with DecodeFrame. */
  lemma FullHeaderReadAgrees(stream: seq<byte>)
    requires |stream| >= 4
    ensures ReadAfterHeader(stream, 4) == DecodeFrame(stream)
  {
  }

  /** The as-written readers misframe when the network delivers the prefix
      in pieces: for the frame of the one-byte payload [65], a first read of
      two bytes yields length 0, an empty payload, and leaves the last two
      prefix bytes and the payload to be misread as the next frame. */
  lemma ShortHeaderReadMisframes()
    ensures var payload: seq<byte> := [65];
      var frame: seq<byte> := [0, 0, 0, 1, 65];
      && EncodeFrame(payload) == Ok(frame)
      && DecodeFrame(frame) == Ok((payload, []))
      && ReadAfterHeader(frame, 2) == Ok(([], [0, 1, 65]))
  {
    var payload: seq<byte> := [65];
    var frame: seq<byte> := [0, 0, 0, 1, 65];
    assert LengthPrefix(1) == [0, 0, 0, 1];
    assert LengthPrefix(|payload|) + payload == frame;
    FrameRoundTrip(payload, []);
    assert frame + [] == frame;
    assert frame[..2] == [0, 0];
    assert BigEndianValue([0, 0]) == 0 by {
      assert [0, 0][..1] == [0];
      assert [0][..0] == [];
    }
  }
}

/** The messages of the Multi-Client-Mayhem variant. Every `recv` there is
    taken to deliver exactly one message of the peer; the chunk JSON is a
    datatype; every other message is ASCII text. */
module MayhemWire {
  import opened Results
  import opened Decimal

  /** The chunk object: sequence number, connection tag, payload in base16
      and the MD5 tag of the payload. */
  datatype ChunkInfo = ChunkInfo(sequence: int, clientId: string, data: string, chunkChecksum: string)

  /** What one `recv` of the client returns: a text message, a chunk
      object, or b'' from a connection the server has closed (every later
      `recv` returns b'' too). */
  datatype Down = Text(text: string) | ChunkJson(info: ChunkInfo) | Closed

  const TransferComplete: string := "TRANSFER_COMPLETE"
  const OkAck: string := "OK"
  const RetransmitPrefix: string := "RETRANSMIT"
  const RetransmitLast: string := "RETRANSMIT:LAST"
  const Success: string := "SUCCESS"
  const ChecksumMismatch: string := "CHECKSUM_MISMATCH"
  const ErrorReport: string := "ERROR"
  const CorruptedChecksum: string := "corrupted_checksum"

  /** The client's request to resend chunk k. */
  function RetransmitRequest(k: int): string
  {
    RetransmitPrefix + ":" + IntString(k)
  }

  /** `s.startswith(prefix)`. */
  predicate StartsWith(s: string, prefix: string)
  {
    |prefix| <= |s| && s[..|prefix|] == prefix
  }

  /** The index of the first occurrence of c, or |s|. */
  function Find(s: string, c: char): (r: nat)
    ensures r <= |s| && (r < |s| ==> s[r] == c)
    ensures forall j | 0 <= j < r :: s[j] != c
  {
    if s == [] then 0 else if s[0] == c then 0 else 1 + Find(s[1..], c)
  }

  /** `s.split(":")[1]`: None where Python raises IndexError (no colon). */
  function SecondField(s: string): (r: Option<string>)
    ensures r.Some? ==> ':' !in r.value
  {
    var i := Find(s, ':');
    if i == |s| then None
    else
      var tail := s[i + 1..];
      var f := tail[..Find(tail, ':')];
      assert forall j | 0 <= j < |f| :: f[j] == tail[j];
      Some(f)
  }

  /** The server's `int(ack.split(":")[1])`: None where Python raises. */
  function RetransmitIndex(ack: string): (r: Option<int>)
  {
    match SecondField(ack)
    case None => None
    case Some(f) => ParseInt(f)
  }

  lemma AllDigitsNoColon(s: string, j: nat)
    requires AllDigits(s) && j < |s|
    ensures s[j] != ':'
  {
  }

  lemma {:induction false} FindAt(s: string, c: char, i: nat)
    requires i <= |s| && (i < |s| ==> s[i] == c)
    requires forall j | 0 <= j < i :: s[j] != c
    ensures Find(s, c) == i
    decreases |s|
  {
    if s != [] && i > 0 {
      FindAt(s[1..], c, i - 1);
    }
  }

  /** The second colon-separated field of head:field, for colon-free head
      and field. */
  lemma SecondFieldOf(head: string, field: string)
    requires forall j | 0 <= j < |head| :: head[j] != ':'
    requires forall j | 0 <= j < |field| :: field[j] != ':'
    ensures SecondField(head + ":" + field) == Some(field)
  {
    var s := head + ":" + field;
    FindAt(s, ':', |head|);
    var tail := s[|head| + 1..];
    assert tail == field;
    FindAt(tail, ':', |tail|);
    assert tail[..|tail|] == field;
  }

  lemma NoColonInIntString(k: int, j: nat)
    requires j < |IntString(k)|
    ensures IntString(k)[j] != ':'
  {
    if k < 0 {
      if j > 0 {
        assert IntString(k)[j] == NatString(-k)[j - 1];
        AllDigitsNoColon(NatString(-k), j - 1);
      }
    } else {
      AllDigitsNoColon(NatString(k), j);
    }
  }

  /** The server reads back exactly the number the client put in a
      retransmission request, negative numbers included. */
  lemma RetransmitRoundTrip(k: int)
    ensures StartsWith(RetransmitRequest(k), RetransmitPrefix)
    ensures RetransmitIndex(RetransmitRequest(k)) == Some(k)
  {
    var r := RetransmitRequest(k);
    assert r[..|RetransmitPrefix|] == RetransmitPrefix;
    forall j | 0 <= j < |IntString(k)| ensures IntString(k)[j] != ':' {
      NoColonInIntString(k, j);
    }
    SecondFieldOf(RetransmitPrefix, IntString(k));
    ParseIntString(k);
  }

  /** "RETRANSMIT:LAST" starts the retransmission loop but does not parse,
      so the server falls into its exception path. */
  lemma RetransmitLastFails()
    ensures StartsWith(RetransmitLast, RetransmitPrefix)
    ensures RetransmitIndex(RetransmitLast) == None
  {
    var last := "LAST";
    assert RetransmitLast == RetransmitPrefix + ":" + last;
    SecondFieldOf(RetransmitPrefix, last);
    ParseIntRejects(last, 0);
  }
}

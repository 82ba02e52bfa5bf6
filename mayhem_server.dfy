/** `handle_client` of the Multi-Client-Mayhem server: read the announced
    size and that many bytes, reply with the SHA-256 and the chunk count,
    then send every chunk (length message, then JSON with an MD5 tag) under
    the drop/corrupt policy, serving `RETRANSMIT:<k>` requests until an
    acknowledgement asks for none, and finish with TRANSFER_COMPLETE. */
module MayhemServer {
  import opened Results
  import opened Bytes
  import opened Digests
  import opened Chunking
  import opened Decimal
  import Hex
  import opened Net
  import opened MayhemWire

  const ChunkSize: nat := 1024

  /** What the error simulation picked for one chunk. */
  datatype Perturbation = Deliver | DropPacket | CorruptTag

  /** The byte length `json.dumps(chunk_data).encode()` has; JSON text is
      not modelled, only that it is never empty. */
  type Positive = n: int | n > 0 witness 1
  type JsonLength = ChunkInfo -> Positive

  /** How many bytes the receive loop keeps out of avail offered ones. */
  function Expected(fileSize: int, avail: nat): (n: nat)
    ensures n <= avail && (fileSize > 0 ==> n <= fileSize)
  {
    if fileSize <= 0 then 0 else Min(fileSize, avail)
  }

  /** The receive-by-size loop: each read asks for min(CHUNK_SIZE,
      remaining), so the file is never over-read, and an empty read ends
      the loop early. */
  method ReceiveFileData(sock: Socket, fileSize: int) returns (data: seq<byte>)
    modifies sock
    ensures var n := Expected(fileSize, |old(sock.inbound)|);
      data == old(sock.inbound)[..n] && sock.inbound == old(sock.inbound)[n..]
    ensures sock.outbound == old(sock.outbound)
  {
    ghost var stream := sock.inbound;
    data := [];
    var received := 0;
    while received < fileSize
      invariant received == |data| && received <= |stream|
      invariant fileSize > 0 ==> received <= fileSize
      invariant fileSize <= 0 ==> received == 0
      invariant data == stream[..received] && sock.inbound == stream[received..]
      invariant sock.outbound == old(sock.outbound)
      decreases fileSize - received
    {
      var chunk := sock.Recv(Min(ChunkSize, fileSize - received));
      if chunk == [] {
        assert sock.inbound == [] && |stream| == received;
        break;
      }
      assert stream[..received + |chunk|] == data + chunk;
      data := data + chunk;
      received := received + |chunk|;
    }
  }

  lemma SliceCount(len: nat, k: nat)
    ensures k < NumChunks(len, ChunkSize) <==> k * ChunkSize < len
  {
    NumChunksBounds(len, ChunkSize);
    var n := NumChunks(len, ChunkSize);
    if k < n {
      assert k <= n - 1;
      assert k * ChunkSize <= (n - 1) * ChunkSize;
    } else {
      assert k * ChunkSize >= n * ChunkSize;
    }
  }

  /** `for i in range(0, len(file_data), CHUNK_SIZE)` appending
      `file_data[i:i+CHUNK_SIZE]`. */
  method SplitBySlicing(data: seq<byte>) returns (chunks: seq<seq<byte>>)
    ensures chunks == Pieces(data, ChunkSize)
  {
    chunks := [];
    var i := 0;
    ghost var k := 0;
    ghost var all := Pieces(data, ChunkSize);
    SliceCount(|data|, 0);
    while i < |data|
      invariant i == k * ChunkSize && k <= |all|
      invariant k < |all| <==> i < |data|
      invariant chunks == all[..k]
      decreases |data| - i
    {
      var end := if i + ChunkSize < |data| then i + ChunkSize else |data|;
      assert data[i..end] == all[k];
      chunks := chunks + [data[i..end]];
      assert all[..k + 1] == all[..k] + [all[k]];
      i := i + ChunkSize;
      k := k + 1;
      SliceCount(|data|, k);
    }
    assert all[..k] == all;
  }

  /** The chunk object for chunk i: its number, the connection tag, its
      base16 and its MD5. */
  function ChunkMessage(i: int, chunk: seq<byte>, clientId: string, md5: Md5): (info: ChunkInfo)
    ensures info.sequence == i && info.clientId == clientId && info.chunkChecksum == md5(chunk)
    ensures |info.data| == 2 * |chunk|
  {
    ChunkInfo(i, clientId, Hex.Encode(chunk), md5(chunk))
  }

  /** The base16 text of a chunk object reads back as the chunk. */
  lemma ChunkMessageDecodes(i: int, chunk: seq<byte>, clientId: string, md5: Md5)
    ensures Hex.Decode(ChunkMessage(i, chunk, clientId, md5).data) == Some(chunk)
  {
    Hex.DecodeEncode(chunk);
  }

  /** The chunk object as it goes out in the first pass. */
  function Perturbed(info: ChunkInfo, p: Perturbation): (out: ChunkInfo)
    ensures out.sequence == info.sequence && out.clientId == info.clientId && out.data == info.data
    ensures p == CorruptTag ==> out.chunkChecksum == CorruptedChecksum
    ensures p != CorruptTag ==> out == info
  {
    if p == CorruptTag then info.(chunkChecksum := CorruptedChecksum) else info
  }

  /** Python's `chunks[k]` index for -n <= k < n. */
  function PyIndex(k: int, n: nat): (i: nat)
    requires -(n as int) <= k < n
    ensures i < n
  {
    if k < 0 then k + n else k
  }

  /** `conn.recv(1024).decode()`: b'' once the client is gone. */
  function NextAck(acks: seq<string>): (r: (string, seq<string>))
    ensures acks == [] ==> r == ("", [])
    ensures acks != [] ==> r == (acks[0], acks[1..])
  {
    if acks == [] then ("", []) else (acks[0], acks[1..])
  }

  /** The two messages that carry one chunk object. */
  function Carry(info: ChunkInfo, jsonLength: JsonLength): (msgs: seq<Down>)
  {
    [Text(IntString(jsonLength(info))), ChunkJson(info)]
  }

  /** The server's progress: what it sent, the acknowledgements it has not
      read, and whether it left through its exception handler. */
  datatype Served = Served(sent: seq<Down>, acks: seq<string>, failed: bool)

  /** The `while ack.startswith("RETRANSMIT")` loop, entered with the
      acknowledgement ack already read. */
  function Resend(chunks: seq<seq<byte>>, ack: string, acks: seq<string>, clientId: string,
                  md5: Md5, jsonLength: JsonLength): (r: Served)
    ensures |r.acks| <= |acks|
    decreases |acks|, if StartsWith(ack, RetransmitPrefix) then 1 else 0
  {
    if !StartsWith(ack, RetransmitPrefix) then Served([], acks, false)
    else match RetransmitIndex(ack)
      case None => Served([], acks, true)
      case Some(k) =>
        if !(-(|chunks| as int) <= k < |chunks|) then Served([], acks, true)
        else
          var info := ChunkMessage(k, chunks[PyIndex(k, |chunks|)], clientId, md5);
          var afterLength := NextAck(acks).1;
          var next := NextAck(afterLength);
          var r := Resend(chunks, next.0, next.1, clientId, md5, jsonLength);
          Served(Carry(info, jsonLength) + r.sent, r.acks, r.failed)
  }

  /** The chunk loop from chunk i on. */
  function Serve(chunks: seq<seq<byte>>, i: nat, acks: seq<string>, decide: nat -> Perturbation,
                 clientId: string, md5: Md5, jsonLength: JsonLength): (r: Served)
    decreases |chunks| - i
  {
    if i >= |chunks| then Served([], acks, false)
    else if decide(i) == DropPacket then Serve(chunks, i + 1, acks, decide, clientId, md5, jsonLength)
    else
      var info := Perturbed(ChunkMessage(i, chunks[i], clientId, md5), decide(i));
      var afterLength := NextAck(acks).1;
      var next := NextAck(afterLength);
      var re := Resend(chunks, next.0, next.1, clientId, md5, jsonLength);
      if re.failed then Served(Carry(info, jsonLength) + re.sent, re.acks, true)
      else
        var rest := Serve(chunks, i + 1, re.acks, decide, clientId, md5, jsonLength);
        Served(Carry(info, jsonLength) + re.sent + rest.sent, rest.acks, rest.failed)
  }

  /** A connection as the server sees it: the first message (the size), the
      byte stream of the upload, and the acknowledgements that follow. */
  datatype Session = Session(sent: seq<Down>, result: Option<string>)

  function HandleClientSpec(sizeMsg: string, upload: seq<byte>, acks: seq<string>, clientId: string,
                            decide: nat -> Perturbation, sha256: Sha256, md5: Md5,
                            jsonLength: JsonLength): (s: Session)
  {
    if sizeMsg == "" then Session([Closed], None)
    else match ParseInt(sizeMsg)
      case None => Session([Closed], None)
      case Some(fileSize) =>
        var data := upload[..Expected(fileSize, |upload|)];
        var chunks := Pieces(data, ChunkSize);
        var header := [Text(OkAck), Text(sha256(data)), Text(IntString(|chunks|))];
        var served := Serve(chunks, 0, NextAck(acks).1, decide, clientId, md5, jsonLength);
        if served.failed then Session(header + served.sent + [Closed], None)
        else Session(header + served.sent + [Text(TransferComplete)], Some(NextAck(served.acks).0))
  }

  /** One pass of the retransmission loop that resends chunk k. */
  lemma ResendUnfold(chunks: seq<seq<byte>>, ack: string, acks: seq<string>, clientId: string,
                     md5: Md5, jsonLength: JsonLength, k: int)
    requires StartsWith(ack, RetransmitPrefix) && RetransmitIndex(ack) == Some(k)
    requires -(|chunks| as int) <= k < |chunks|
    ensures var next := NextAck(NextAck(acks).1);
      var r := Resend(chunks, next.0, next.1, clientId, md5, jsonLength);
      Resend(chunks, ack, acks, clientId, md5, jsonLength)
        == Served(Carry(ChunkMessage(k, chunks[PyIndex(k, |chunks|)], clientId, md5), jsonLength) + r.sent, r.acks, r.failed)
  {
  }

  /** Moving a prefix of the remaining transcript into what was sent. */
  lemma ShiftSent(goal: Served, sent: seq<Down>, r0: Served, c: seq<Down>, r1: Served)
    requires goal == Served(sent + r0.sent, r0.acks, r0.failed)
    requires r0 == Served(c + r1.sent, r1.acks, r1.failed)
    ensures goal == Served((sent + c) + r1.sent, r1.acks, r1.failed)
  {
    assert sent + (c + r1.sent) == (sent + c) + r1.sent;
  }

  /** The retransmission loop, entered with the acknowledgement ack0 read. */
  method ResendLoop(chunks: seq<seq<byte>>, ack0: string, acks0: seq<string>, clientId: string,
                    md5: Md5, jsonLength: JsonLength) returns (sent: seq<Down>, acks: seq<string>, failed: bool)
    ensures Served(sent, acks, failed) == Resend(chunks, ack0, acks0, clientId, md5, jsonLength)
  {
    ghost var goal := Resend(chunks, ack0, acks0, clientId, md5, jsonLength);
    sent, acks, failed := [], acks0, false;
    var ack := ack0;
    ghost var r := goal;
    assert [] + r.sent == r.sent;
    while StartsWith(ack, RetransmitPrefix)
      invariant r == Resend(chunks, ack, acks, clientId, md5, jsonLength)
      invariant goal == Served(sent + r.sent, r.acks, r.failed)
      decreases |acks|, if StartsWith(ack, RetransmitPrefix) then 1 else 0
    {
      var k := RetransmitIndex(ack);
      if k.None? || !(-(|chunks| as int) <= k.value < |chunks|) {
        assert r == Served([], acks, true);
        assert sent + [] == sent;
        return sent, acks, true;
      }
      var info := ChunkMessage(k.value, chunks[PyIndex(k.value, |chunks|)], clientId, md5);
      var next := NextAck(NextAck(acks).1);
      ResendUnfold(chunks, ack, acks, clientId, md5, jsonLength, k.value);
      ghost var r1 := Resend(chunks, next.0, next.1, clientId, md5, jsonLength);
      ShiftSent(goal, sent, r, Carry(info, jsonLength), r1);
      sent := sent + Carry(info, jsonLength);
      ack, acks := next.0, next.1;
      r := r1;
    }
    assert r == Served([], acks, false);
    assert sent + [] == sent;
  }

  /** One pass of the chunk loop for a chunk that is not dropped. */
  lemma ServeUnfold(chunks: seq<seq<byte>>, i: nat, acks: seq<string>, decide: nat -> Perturbation,
                    clientId: string, md5: Md5, jsonLength: JsonLength)
    requires i < |chunks| && decide(i) != DropPacket
    ensures var next := NextAck(NextAck(acks).1);
      var re := Resend(chunks, next.0, next.1, clientId, md5, jsonLength);
      var c := Carry(Perturbed(ChunkMessage(i, chunks[i], clientId, md5), decide(i)), jsonLength) + re.sent;
      var r := Serve(chunks, i, acks, decide, clientId, md5, jsonLength);
      if re.failed then r == Served(c, re.acks, true)
      else var r1 := Serve(chunks, i + 1, re.acks, decide, clientId, md5, jsonLength);
        r == Served(c + r1.sent, r1.acks, r1.failed)
  {
    var next := NextAck(NextAck(acks).1);
    var re := Resend(chunks, next.0, next.1, clientId, md5, jsonLength);
    if !re.failed {
      var r1 := Serve(chunks, i + 1, re.acks, decide, clientId, md5, jsonLength);
      assert Serve(chunks, i, acks, decide, clientId, md5, jsonLength).sent
        == Carry(Perturbed(ChunkMessage(i, chunks[i], clientId, md5), decide(i)), jsonLength) + re.sent + r1.sent;
    }
  }

  /** The `for i, chunk in enumerate(chunks)` loop. */
  method ServeChunks(chunks: seq<seq<byte>>, acks0: seq<string>, decide: nat -> Perturbation, clientId: string,
                     md5: Md5, jsonLength: JsonLength) returns (sent: seq<Down>, acks: seq<string>, failed: bool)
    ensures Served(sent, acks, failed) == Serve(chunks, 0, acks0, decide, clientId, md5, jsonLength)
  {
    ghost var goal := Serve(chunks, 0, acks0, decide, clientId, md5, jsonLength);
    sent, acks, failed := [], acks0, false;
    ghost var r := goal;
    assert [] + r.sent == r.sent;
    for i := 0 to |chunks|
      invariant r == Serve(chunks, i, acks, decide, clientId, md5, jsonLength)
      invariant goal == Served(sent + r.sent, r.acks, r.failed)
    {
      if decide(i) == DropPacket {
        r := Serve(chunks, i + 1, acks, decide, clientId, md5, jsonLength);
        continue;
      }
      var info := Perturbed(ChunkMessage(i, chunks[i], clientId, md5), decide(i));
      var next := NextAck(NextAck(acks).1);
      var more, left, bad := ResendLoop(chunks, next.0, next.1, clientId, md5, jsonLength);
      ServeUnfold(chunks, i, acks, decide, clientId, md5, jsonLength);
      if bad {
        assert r == Served(Carry(info, jsonLength) + more, left, true);
        assert sent + (Carry(info, jsonLength) + more) == sent + Carry(info, jsonLength) + more;
        return sent + Carry(info, jsonLength) + more, left, true;
      }
      ghost var r1 := Serve(chunks, i + 1, left, decide, clientId, md5, jsonLength);
      ShiftSent(goal, sent, r, Carry(info, jsonLength) + more, r1);
      sent := sent + (Carry(info, jsonLength) + more);
      acks := left;
      r := r1;
    }
    assert r == Served([], acks, false);
    assert sent + [] == sent;
  }

  method HandleClient(sizeMsg: string, upload: seq<byte>, acks: seq<string>, clientId: string,
                      decide: nat -> Perturbation, sha256: Sha256, md5: Md5,
                      jsonLength: JsonLength) returns (sent: seq<Down>, result: Option<string>)
    ensures Session(sent, result) == HandleClientSpec(sizeMsg, upload, acks, clientId, decide, sha256, md5, jsonLength)
  {
    if sizeMsg == "" {
      return [Closed], None;
    }
    var fileSize := ParseInt(sizeMsg);
    if fileSize.None? {
      return [Closed], None;
    }
    sent := [Text(OkAck)];
    var sock := new Socket(upload);
    var data := ReceiveFileData(sock, fileSize.value);
    var checksum := sha256(data);
    sent := sent + [Text(checksum)];
    var chunks := SplitBySlicing(data);
    sent := sent + [Text(IntString(|chunks|))];
    var body, left, failed := ServeChunks(chunks, NextAck(acks).1, decide, clientId, md5, jsonLength);
    sent := sent + body;
    Singletons3(Text(OkAck), Text(checksum), Text(IntString(|chunks|)), body);
    if failed {
      return sent + [Closed], None;
    }
    sent := sent + [Text(TransferComplete)];
    result := Some(NextAck(left).0);
  }

  /** A chunk object the server can send: its number indexes the chunk list
      (Python-style), it carries that chunk's base16 and either that chunk's
      MD5 or the corruption marker. */
  predicate Genuine(info: ChunkInfo, chunks: seq<seq<byte>>, clientId: string, md5: Md5)
  {
    -(|chunks| as int) <= info.sequence < |chunks|
    && var c := chunks[PyIndex(info.sequence, |chunks|)];
    info.clientId == clientId && info.data == Hex.Encode(c)
    && (info.chunkChecksum == md5(c) || info.chunkChecksum == CorruptedChecksum)
  }

  /** A message run made of (length, chunk object) pairs of genuine objects. */
  predicate Carried(msgs: seq<Down>, chunks: seq<seq<byte>>, clientId: string, md5: Md5, jsonLength: JsonLength)
    decreases |msgs|
  {
    msgs == []
    || (|msgs| >= 2 && msgs[1].ChunkJson? && msgs[0] == Text(IntString(jsonLength(msgs[1].info)))
        && Genuine(msgs[1].info, chunks, clientId, md5) && Carried(msgs[2..], chunks, clientId, md5, jsonLength))
  }

  lemma {:induction false} CarriedAppend(a: seq<Down>, b: seq<Down>, chunks: seq<seq<byte>>, clientId: string,
                                         md5: Md5, jsonLength: JsonLength)
    requires Carried(a, chunks, clientId, md5, jsonLength) && Carried(b, chunks, clientId, md5, jsonLength)
    ensures Carried(a + b, chunks, clientId, md5, jsonLength)
    decreases |a|
  {
    if a == [] {
      assert a + b == b;
    } else {
      CarriedAppend(a[2..], b, chunks, clientId, md5, jsonLength);
      Bytes.AppendDropTwo(a, b);
    }
  }

  lemma CarryCarried(info: ChunkInfo, chunks: seq<seq<byte>>, clientId: string, md5: Md5, jsonLength: JsonLength)
    requires Genuine(info, chunks, clientId, md5)
    ensures Carried(Carry(info, jsonLength), chunks, clientId, md5, jsonLength)
  {
    assert Carry(info, jsonLength)[2..] == [];
  }

  /** Every retransmission carries the requested chunk with its true MD5. */
  lemma {:induction false} ResendCarried(chunks: seq<seq<byte>>, ack: string, acks: seq<string>, clientId: string,
                                         md5: Md5, jsonLength: JsonLength)
    ensures Carried(Resend(chunks, ack, acks, clientId, md5, jsonLength).sent, chunks, clientId, md5, jsonLength)
    decreases |acks|, if StartsWith(ack, RetransmitPrefix) then 1 else 0
  {
    if StartsWith(ack, RetransmitPrefix) && RetransmitIndex(ack).Some? {
      var k := RetransmitIndex(ack).value;
      if -(|chunks| as int) <= k < |chunks| {
        var info := ChunkMessage(k, chunks[PyIndex(k, |chunks|)], clientId, md5);
        var afterLength := NextAck(acks).1;
        var next := NextAck(afterLength);
        ResendCarried(chunks, next.0, next.1, clientId, md5, jsonLength);
        CarryCarried(info, chunks, clientId, md5, jsonLength);
        CarriedAppend(Carry(info, jsonLength), Resend(chunks, next.0, next.1, clientId, md5, jsonLength).sent,
                      chunks, clientId, md5, jsonLength);
      }
    }
  }

  /** Everything the chunk loop sends is (length, object) pairs of genuine
      chunk objects: the sequence number names the chunk whose base16 is
      sent, and the tag is that chunk's MD5 or the corruption marker. */
  lemma {:induction false} ServeCarried(chunks: seq<seq<byte>>, i: nat, acks: seq<string>, decide: nat -> Perturbation,
                                        clientId: string, md5: Md5, jsonLength: JsonLength)
    ensures Carried(Serve(chunks, i, acks, decide, clientId, md5, jsonLength).sent, chunks, clientId, md5, jsonLength)
    decreases |chunks| - i
  {
    if i < |chunks| {
      if decide(i) == DropPacket {
        ServeCarried(chunks, i + 1, acks, decide, clientId, md5, jsonLength);
      } else {
        var info := Perturbed(ChunkMessage(i, chunks[i], clientId, md5), decide(i));
        var afterLength := NextAck(acks).1;
        var next := NextAck(afterLength);
        var re := Resend(chunks, next.0, next.1, clientId, md5, jsonLength);
        CarryCarried(info, chunks, clientId, md5, jsonLength);
        ResendCarried(chunks, next.0, next.1, clientId, md5, jsonLength);
        CarriedAppend(Carry(info, jsonLength), re.sent, chunks, clientId, md5, jsonLength);
        if !re.failed {
          ServeCarried(chunks, i + 1, re.acks, decide, clientId, md5, jsonLength);
          CarriedAppend(Carry(info, jsonLength) + re.sent,
                        Serve(chunks, i + 1, re.acks, decide, clientId, md5, jsonLength).sent,
                        chunks, clientId, md5, jsonLength);
        }
      }
    }
  }

  /** The marker never equals an MD5 hexdigest (18 characters against 32),
      so a corrupted chunk can never pass the client's check. */
  lemma CorruptTagNeverVerifies(md5: Md5, data: seq<byte>)
    ensures md5(data) != CorruptedChecksum
  {
    assert |md5(data)| == 32;
  }

  /** The resend answers "RETRANSMIT:k" for an in-range k >= 0 with chunk
      k, its true MD5 and no fault. */
  lemma RetransmitResends(chunks: seq<seq<byte>>, k: nat, acks: seq<string>, clientId: string,
                          md5: Md5, jsonLength: JsonLength)
    requires k < |chunks|
    ensures var r := Resend(chunks, RetransmitRequest(k), acks, clientId, md5, jsonLength);
      |r.sent| >= 2 && r.sent[..2] == Carry(ChunkMessage(k, chunks[k], clientId, md5), jsonLength)
  {
    RetransmitRoundTrip(k);
    ResendUnfold(chunks, RetransmitRequest(k), acks, clientId, md5, jsonLength, k);
  }

  /** "RETRANSMIT:LAST" does not parse as a number: the handler gives up
      without sending anything more. */
  lemma RetransmitLastAborts(chunks: seq<seq<byte>>, acks: seq<string>, clientId: string,
                             md5: Md5, jsonLength: JsonLength)
    ensures Resend(chunks, RetransmitLast, acks, clientId, md5, jsonLength) == Served([], acks, true)
  {
    RetransmitLastFails();
  }

  /** No acknowledgement asks for a retransmission. */
  predicate Quiet(acks: seq<string>)
  {
    forall j | 0 <= j < |acks| :: !StartsWith(acks[j], RetransmitPrefix)
  }

  /** What is left of the acknowledgements after n reads. */
  function Skip(acks: seq<string>, n: nat): (r: seq<string>)
  {
    if n <= |acks| then acks[n..] else []
  }

  /** The chunk objects of the first pass from chunk i on: dropped chunks
      are missing, the others are perturbed as decided. */
  function FirstPass(chunks: seq<seq<byte>>, i: nat, decide: nat -> Perturbation, clientId: string,
                     md5: Md5): (infos: seq<ChunkInfo>)
    decreases |chunks| - i
  {
    if i >= |chunks| then []
    else if decide(i) == DropPacket then FirstPass(chunks, i + 1, decide, clientId, md5)
    else [Perturbed(ChunkMessage(i, chunks[i], clientId, md5), decide(i))] + FirstPass(chunks, i + 1, decide, clientId, md5)
  }

  /** The messages that carry a run of chunk objects. */
  function CarryAll(infos: seq<ChunkInfo>, jsonLength: JsonLength): (msgs: seq<Down>)
    ensures |msgs| == 2 * |infos|
  {
    if infos == [] then [] else Carry(infos[0], jsonLength) + CarryAll(infos[1..], jsonLength)
  }

  /** The first pass sends, in increasing order, exactly the chunks that
      were not dropped; each carries its own number, base16 and the MD5,
      the MD5 replaced by the marker when corrupted. */
  lemma {:induction false} FirstPassSpec(chunks: seq<seq<byte>>, i: nat, decide: nat -> Perturbation,
                                         clientId: string, md5: Md5)
    ensures var infos := FirstPass(chunks, i, decide, clientId, md5);
      (forall k | 0 <= k < |infos| :: i <= infos[k].sequence < |chunks|
        && decide(infos[k].sequence) != DropPacket
        && infos[k] == Perturbed(ChunkMessage(infos[k].sequence, chunks[infos[k].sequence], clientId, md5),
                                 decide(infos[k].sequence)))
      && (forall k, l | 0 <= k < l < |infos| :: infos[k].sequence < infos[l].sequence)
      && (forall j: nat | i <= j < |chunks| && decide(j) != DropPacket :: exists k :: 0 <= k < |infos| && infos[k].sequence == j)
  {
    FirstPassGenuine(chunks, i, decide, clientId, md5);
    FirstPassIncreasing(chunks, i, decide, clientId, md5);
    FirstPassComplete(chunks, i, decide, clientId, md5);
    var infos := FirstPass(chunks, i, decide, clientId, md5);
    assert GenuineFrom(infos, chunks, i, decide, clientId, md5) && Increasing(infos);
    assert forall j: nat | i <= j < |chunks| && decide(j) != DropPacket :: Sends(infos, j);
  }

  /** Each chunk object of `infos` is the chunk its number names, numbered
      from i, not dropped, and corrupted exactly when `decide` says so. */
  predicate GenuineFrom(infos: seq<ChunkInfo>, chunks: seq<seq<byte>>, i: nat, decide: nat -> Perturbation,
                        clientId: string, md5: Md5)
  {
    forall k | 0 <= k < |infos| :: i <= infos[k].sequence < |chunks|
      && decide(infos[k].sequence) != DropPacket
      && infos[k] == Perturbed(ChunkMessage(infos[k].sequence, chunks[infos[k].sequence], clientId, md5),
                               decide(infos[k].sequence))
  }

  /** The chunk numbers of `infos` strictly increase. */
  predicate Increasing(infos: seq<ChunkInfo>)
  {
    forall k, l | 0 <= k < l < |infos| :: infos[k].sequence < infos[l].sequence
  }

  /** Some chunk object of `infos` carries chunk number j. */
  predicate Sends(infos: seq<ChunkInfo>, j: nat)
  {
    exists k :: 0 <= k < |infos| && infos[k].sequence == j
  }

  lemma {:induction false} FirstPassGenuine(chunks: seq<seq<byte>>, i: nat, decide: nat -> Perturbation,
                                            clientId: string, md5: Md5)
    ensures GenuineFrom(FirstPass(chunks, i, decide, clientId, md5), chunks, i, decide, clientId, md5)
    decreases |chunks| - i
  {
    if i < |chunks| {
      FirstPassGenuine(chunks, i + 1, decide, clientId, md5);
      var tail := FirstPass(chunks, i + 1, decide, clientId, md5);
      var infos := FirstPass(chunks, i, decide, clientId, md5);
      if decide(i) != DropPacket {
        assert infos == [Perturbed(ChunkMessage(i, chunks[i], clientId, md5), decide(i))] + tail;
        assert infos[0].sequence == i;
        forall k | 0 < k < |infos|
          ensures infos[k] == tail[k - 1]
        {
        }
      } else {
        assert infos == tail;
      }
    }
  }

  lemma {:induction false} FirstPassIncreasing(chunks: seq<seq<byte>>, i: nat, decide: nat -> Perturbation,
                                               clientId: string, md5: Md5)
    ensures Increasing(FirstPass(chunks, i, decide, clientId, md5))
    decreases |chunks| - i
  {
    if i < |chunks| {
      FirstPassIncreasing(chunks, i + 1, decide, clientId, md5);
      FirstPassGenuine(chunks, i + 1, decide, clientId, md5);
      var tail := FirstPass(chunks, i + 1, decide, clientId, md5);
      var infos := FirstPass(chunks, i, decide, clientId, md5);
      if decide(i) != DropPacket {
        assert infos == [Perturbed(ChunkMessage(i, chunks[i], clientId, md5), decide(i))] + tail;
        forall k, l | 0 <= k < l < |infos|
          ensures infos[k].sequence < infos[l].sequence
        {
          assert infos[l] == tail[l - 1];
          if k > 0 {
            assert infos[k] == tail[k - 1];
          } else {
            assert infos[0].sequence == i;
          }
        }
      } else {
        assert infos == tail;
      }
    }
  }

  lemma {:induction false} FirstPassComplete(chunks: seq<seq<byte>>, i: nat, decide: nat -> Perturbation,
                                             clientId: string, md5: Md5)
    ensures forall j: nat | i <= j < |chunks| && decide(j) != DropPacket ::
      Sends(FirstPass(chunks, i, decide, clientId, md5), j)
    decreases |chunks| - i
  {
    if i < |chunks| {
      FirstPassComplete(chunks, i + 1, decide, clientId, md5);
      var tail := FirstPass(chunks, i + 1, decide, clientId, md5);
      var infos := FirstPass(chunks, i, decide, clientId, md5);
      if decide(i) != DropPacket {
        assert infos == [infos[0]] + tail;
        assert infos[0].sequence == i;
        forall j: nat | i <= j < |chunks| && decide(j) != DropPacket
          ensures Sends(infos, j)
        {
          if j > i {
            assert Sends(tail, j);
            var k :| 0 <= k < |tail| && tail[k].sequence == j;
            assert infos[k + 1] == tail[k];
          } else {
            assert infos[0].sequence == j;
          }
        }
      } else {
        assert infos == tail;
      }
    }
  }

  /** With every chunk delivered the first pass is chunk i, i + 1, ... in
      order, each with its true MD5. */
  lemma {:induction false} FirstPassDelivered(chunks: seq<seq<byte>>, i: nat, decide: nat -> Perturbation,
                                              clientId: string, md5: Md5)
    requires i <= |chunks|
    requires forall j :: decide(j) == Deliver
    ensures FirstPass(chunks, i, decide, clientId, md5)
      == seq(|chunks| - i, k requires 0 <= k < |chunks| - i => ChunkMessage(i + k, chunks[i + k], clientId, md5))
    decreases |chunks| - i
  {
    if i < |chunks| {
      FirstPassDelivered(chunks, i + 1, decide, clientId, md5);
      var rest := FirstPass(chunks, i + 1, decide, clientId, md5);
      var whole := seq(|chunks| - i, k requires 0 <= k < |chunks| - i => ChunkMessage(i + k, chunks[i + k], clientId, md5));
      assert decide(i) == Deliver;
      assert FirstPass(chunks, i, decide, clientId, md5) == [ChunkMessage(i, chunks[i], clientId, md5)] + rest;
      forall k | 0 < k < |whole|
        ensures whole[k] == rest[k - 1]
      {
      }
      assert whole == [ChunkMessage(i, chunks[i], clientId, md5)] + rest;
    }
  }

  lemma NextAckQuiet(acks: seq<string>)
    requires Quiet(acks)
    ensures !StartsWith(NextAck(acks).0, RetransmitPrefix) && Quiet(NextAck(acks).1)
    ensures NextAck(acks).1 == Skip(acks, 1)
  {
  }

  lemma SkipSkip(acks: seq<string>, m: nat, n: nat)
    ensures Skip(Skip(acks, m), n) == Skip(acks, m + n)
  {
  }

  /** When no acknowledgement asks for a retransmission the loop sends the
      first pass and nothing else, reads two acknowledgements per chunk
      sent, and never fails. */
  lemma {:induction false} QuietServe(chunks: seq<seq<byte>>, i: nat, acks: seq<string>, decide: nat -> Perturbation,
                                      clientId: string, md5: Md5, jsonLength: JsonLength)
    requires Quiet(acks)
    ensures var r := Serve(chunks, i, acks, decide, clientId, md5, jsonLength);
      var infos := FirstPass(chunks, i, decide, clientId, md5);
      r == Served(CarryAll(infos, jsonLength), Skip(acks, 2 * |infos|), false)
    decreases |chunks| - i
  {
    if i < |chunks| {
      if decide(i) == DropPacket {
        QuietServe(chunks, i + 1, acks, decide, clientId, md5, jsonLength);
      } else {
        var info := Perturbed(ChunkMessage(i, chunks[i], clientId, md5), decide(i));
        var afterLength := NextAck(acks).1;
        NextAckQuiet(acks);
        var next := NextAck(afterLength);
        NextAckQuiet(afterLength);
        SkipSkip(acks, 1, 1);
        assert Resend(chunks, next.0, next.1, clientId, md5, jsonLength) == Served([], next.1, false);
        QuietServe(chunks, i + 1, next.1, decide, clientId, md5, jsonLength);
        var tail := FirstPass(chunks, i + 1, decide, clientId, md5);
        SkipSkip(acks, 2, 2 * |tail|);
        assert FirstPass(chunks, i, decide, clientId, md5) == [info] + tail;
        assert ([info] + tail)[1..] == tail;
        assert Carry(info, jsonLength) + [] == Carry(info, jsonLength);
      }
    } else {
      assert acks[0..] == acks;
    }
  }

  /** The decimal size round-trips: given the size of a file and at least
      its bytes, the server keeps exactly the file, and announces its
      SHA-256 and its number of 1024-byte chunks. */
  lemma UploadRecovered(file: seq<byte>, extra: seq<byte>, acks: seq<string>, clientId: string,
                        decide: nat -> Perturbation, sha256: Sha256, md5: Md5, jsonLength: JsonLength)
    ensures var s := HandleClientSpec(IntString(|file|), file + extra, acks, clientId, decide, sha256, md5, jsonLength);
      |s.sent| >= 3 && s.sent[..3] == [Text(OkAck), Text(sha256(file)), Text(IntString(NumChunks(|file|, ChunkSize)))]
  {
    ParseIntString(|file|);
    assert (file + extra)[..|file|] == file;
  }
}

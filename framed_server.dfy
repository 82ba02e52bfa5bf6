/** `handle_upload` of the framed-JSON server: validate the request, recover
    the file bytes, hash and split them, announce the transfer, then send the
    shuffled chunks through the fault injector and close with an end
    message. */
module FramedServer {
  import opened Results
  import opened Bytes
  import opened Digests
  import opened Chunking
  import Hex
  import Latin1
  import opened Splitter
  import opened Faults
  import opened FramedWire

  /** Server configuration (the float error_rate is folded into the fault
      decisions). */
  datatype Config = Config(chunkSize: int, simulateErrors: bool)

  /** What the injector decides for the chunk at one position of the
      shuffled list: send it, lose it, or corrupt it with the given draws. */
  datatype Fault = Pass | Drop | Corrupt(flips: FlipDraws)

  const MissingFields := "Missing file path or file data"
  const TransmissionComplete := "File transmission complete"
  const ServerErrorPrefix := "Server error: "

  /** `request.get(key, '')`. */
  function FieldOr(field: Option<string>): string
  {
    if field.Some? then field.value else ""
  }

  /** The payload that goes out for chunk c under fault f. */
  function Payload(c: Chunk, simulate: bool, f: Fault): (d: seq<byte>)
    ensures |d| == |c.data|
    ensures !(simulate && f.Corrupt?) ==> d == c.data
  {
    if simulate && f.Corrupt? then Corrupted(c.data, f.flips) else c.data
  }

  /** The messages sent for chunk c under fault f: none when it is dropped. */
  function Emit(c: Chunk, simulate: bool, f: Fault): (msgs: seq<Response>)
  {
    if simulate && f.Drop? then []
    else [ChunkMsg(c.sequence, Hex.Encode(Payload(c, simulate, f)))]
  }

  /** The chunk loop: the messages for the list in order, decide(i) being
      the fault drawn for position i. */
  function Transmit(chunks: seq<Chunk>, simulate: bool, decide: nat -> Fault): (msgs: seq<Response>)
    ensures |msgs| <= |chunks|
    decreases |chunks|
  {
    if chunks == [] then []
    else
      var k := |chunks| - 1;
      Transmit(chunks[..k], simulate, decide) + Emit(chunks[k], simulate, decide(k))
  }

  /** Everything handle_upload sends for one request. The file bytes come
      from Latin-1 encoding; a character above U+00FF makes Python raise,
      and the reply then carries the exception text, here errorText. */
  function UploadReplies(req: Request, config: Config, sha256: Sha256, draw: nat -> nat,
                         decide: nat -> Fault, errorText: string): (msgs: seq<Response>)
  {
    var path := FieldOr(req.filePath);
    var text := FieldOr(req.fileData);
    if path == "" || text == "" then [ErrorReply(MissingFields)]
    else match Latin1.Encode(text)
      case None => [ErrorReply(ServerErrorPrefix + errorText)]
      case Some(data) =>
        var chunks := Split(data, config.chunkSize);
        [Ready(sha256(data), |chunks|, path)]
        + Transmit(Shuffled(chunks, draw), config.simulateErrors, decide)
        + [End(TransmissionComplete)]
  }

  /** `random.shuffle(chunks)` on a fresh list. */
  method ShuffleChunks(chunks: seq<Chunk>, draw: nat -> nat) returns (shuffled: seq<Chunk>)
    ensures shuffled == Shuffled(chunks, draw)
  {
    var order := new Chunk[|chunks|](i requires 0 <= i < |chunks| => chunks[i]);
    assert order[..] == chunks;
    Shuffle(order, draw);
    shuffled := order[..];
  }

  /** The payload of one chunk after the injector: a corrupted chunk is
      copied into a bytearray and flipped in place. */
  method PerturbPayload(c: Chunk, simulate: bool, f: Fault) returns (payload: seq<byte>)
    ensures payload == Payload(c, simulate, f)
  {
    payload := c.data;
    if simulate && f.Corrupt? {
      var buf := new byte[|payload|](j requires 0 <= j < |payload| => payload[j]);
      assert buf[..] == payload;
      CorruptInPlace(buf, f.flips);
      payload := buf[..];
    }
  }

  /** The `for seq_num, chunk_data in chunks` loop. */
  method SendChunks(shuffled: seq<Chunk>, simulate: bool, decide: nat -> Fault) returns (sent: seq<Response>)
    ensures sent == Transmit(shuffled, simulate, decide)
  {
    sent := [];
    for i := 0 to |shuffled|
      invariant sent == Transmit(shuffled[..i], simulate, decide)
    {
      assert shuffled[..i + 1][..i] == shuffled[..i];
      var c := shuffled[i];
      if simulate && decide(i).Drop? {
        continue;
      }
      var payload := PerturbPayload(c, simulate, decide(i));
      sent := sent + [ChunkMsg(c.sequence, Hex.Encode(payload))];
    }
    assert shuffled[..|shuffled|] == shuffled;
  }

  method HandleUpload(req: Request, config: Config, sha256: Sha256, draw: nat -> nat,
                      decide: nat -> Fault, errorText: string) returns (sent: seq<Response>)
    ensures sent == UploadReplies(req, config, sha256, draw, decide, errorText)
  {
    var path := FieldOr(req.filePath);
    var text := FieldOr(req.fileData);
    if path == "" || text == "" {
      return [ErrorReply(MissingFields)];
    }
    var encoded := Latin1.Encode(text);
    if encoded.None? {
      return [ErrorReply(ServerErrorPrefix + errorText)];
    }
    var data := encoded.value;
    var checksum := sha256(data);
    var chunks := SplitFile(data, config.chunkSize);
    var shuffled := ShuffleChunks(chunks, draw);
    var body := SendChunks(shuffled, config.simulateErrors, decide);
    sent := [Ready(checksum, |chunks|, path)] + body + [End(TransmissionComplete)];
  }

  /** The sequence numbers of the chunk messages among msgs, in order. */
  function ChunkSequences(msgs: seq<Response>): (r: seq<nat>)
    ensures |r| <= |msgs|
    decreases |msgs|
  {
    if msgs == [] then []
    else
      var k := |msgs| - 1;
      ChunkSequences(msgs[..k]) + (if msgs[k].ChunkMsg? then [msgs[k].sequence] else [])
  }

  function Sequences(chunks: seq<Chunk>): (r: seq<nat>)
    ensures |r| == |chunks|
  {
    MapSeq((c: Chunk) => c.sequence, chunks)
  }

  lemma {:induction false} ChunkSequencesAppend(a: seq<Response>, b: seq<Response>)
    ensures ChunkSequences(a + b) == ChunkSequences(a) + ChunkSequences(b)
    decreases |b|
  {
    if b == [] {
      assert a + b == a;
    } else {
      var k := |b| - 1;
      assert (a + b)[..|a| + k] == a + b[..k];
      assert (a + b)[|a| + k] == b[k];
      ChunkSequencesAppend(a, b[..k]);
    }
  }

  function Range(n: nat): (r: seq<nat>)
    ensures |r| == n && forall i | 0 <= i < n :: r[i] == i
  {
    seq(n, i requires 0 <= i < n => i)
  }

  /** Every message of the chunk loop is the chunk message of some chunk i
      that was not dropped: it carries that chunk's own sequence number and
      the base16 of its payload after the injector. */
  lemma {:induction false} TransmitFaithful(chunks: seq<Chunk>, simulate: bool, decide: nat -> Fault, k: nat)
    requires k < |Transmit(chunks, simulate, decide)|
    ensures exists i :: (0 <= i < |chunks| && !(simulate && decide(i).Drop?)
      && Transmit(chunks, simulate, decide)[k] == ChunkMsg(chunks[i].sequence, Hex.Encode(Payload(chunks[i], simulate, decide(i)))))
    decreases |chunks|
  {
    var n := |chunks| - 1;
    var prefix := Transmit(chunks[..n], simulate, decide);
    if k < |prefix| {
      TransmitFaithful(chunks[..n], simulate, decide, k);
      var i :| 0 <= i < n && !(simulate && decide(i).Drop?)
        && prefix[k] == ChunkMsg(chunks[..n][i].sequence, Hex.Encode(Payload(chunks[..n][i], simulate, decide(i))));
      assert chunks[..n][i] == chunks[i];
    } else {
      assert Transmit(chunks, simulate, decide)[k] == Emit(chunks[n], simulate, decide(n))[0];
    }
  }

  /** The sequence numbers sent are a sub-multiset of those of the list. */
  lemma {:induction false} TransmitSequences(chunks: seq<Chunk>, simulate: bool, decide: nat -> Fault)
    ensures multiset(ChunkSequences(Transmit(chunks, simulate, decide))) <= multiset(Sequences(chunks))
    decreases |chunks|
  {
    if chunks != [] {
      var n := |chunks| - 1;
      var left := Transmit(chunks[..n], simulate, decide);
      var emitted := Emit(chunks[n], simulate, decide(n));
      var x := chunks[n].sequence;
      assert Transmit(chunks, simulate, decide) == left + emitted;
      TransmitSequences(chunks[..n], simulate, decide);
      ChunkSequencesAppend(left, emitted);
      assert multiset(ChunkSequences(emitted)) <= multiset{x} by {
        if emitted != [] {
          assert emitted[..0] == [];
          assert ChunkSequences(emitted) == [x];
        }
      }
      SequencesSnoc(chunks);
      assert multiset(ChunkSequences(left + emitted))
        == multiset(ChunkSequences(left)) + multiset(ChunkSequences(emitted));
    }
  }

  lemma SequencesSnoc(chunks: seq<Chunk>)
    requires chunks != []
    ensures multiset(Sequences(chunks))
      == multiset(Sequences(chunks[..|chunks| - 1])) + multiset{chunks[|chunks| - 1].sequence}
  {
    var n := |chunks| - 1;
    assert Sequences(chunks) == Sequences(chunks[..n]) + [chunks[n].sequence];
  }

  /** Without error simulation every chunk of the list goes out once, in
      list order, intact. */
  lemma {:induction false} TransmitFaultFree(chunks: seq<Chunk>, decide: nat -> Fault)
    ensures Transmit(chunks, false, decide) == MapSeq((c: Chunk) => ChunkMsg(c.sequence, Hex.Encode(c.data)), chunks)
    decreases |chunks|
  {
    if chunks != [] {
      var n := |chunks| - 1;
      TransmitFaultFree(chunks[..n], decide);
      var f := (c: Chunk) => ChunkMsg(c.sequence, Hex.Encode(c.data));
      assert MapSeq(f, chunks) == MapSeq(f, chunks[..n]) + [f(chunks[n])];
    }
  }

  /** The split numbers its chunks 0, 1, ..., n-1. */
  lemma SplitSequences(data: seq<byte>, size: int)
    ensures Sequences(Split(data, size)) == Range(|Split(data, size)|)
  {
  }

  /** An empty or absent path or body gets exactly one error reply, with
      no metadata and no chunk; otherwise the status is "ready" exactly
      when the body is Latin-1 encodable, and any other outcome is a single
      error reply. */
  lemma UploadOutcome(req: Request, config: Config, sha256: Sha256, draw: nat -> nat,
                      decide: nat -> Fault, errorText: string)
    ensures var msgs := UploadReplies(req, config, sha256, draw, decide, errorText);
      var path := FieldOr(req.filePath);
      var text := FieldOr(req.fileData);
      |msgs| >= 1
      && (path == "" || text == "" ==> msgs == [ErrorReply(MissingFields)])
      && (msgs[0].Ready? <==> path != "" && text != "" && Latin1.Encode(text).Some?)
      && (!msgs[0].Ready? ==> |msgs| == 1 && msgs[0].ErrorReply?)
  {
  }

  /** The chunk messages of an upload carry each chunk number at most as
      often as the split holds it. */
  lemma BodySequences(data: seq<byte>, size: int, draw: nat -> nat, simulate: bool, decide: nat -> Fault)
    ensures var chunks := Split(data, size);
      multiset(ChunkSequences(Transmit(Shuffled(chunks, draw), simulate, decide))) <= multiset(Range(|chunks|))
  {
    var chunks := Split(data, size);
    TransmitSequences(Shuffled(chunks, draw), simulate, decide);
    ShuffledMap((c: Chunk) => c.sequence, chunks, draw);
    ShuffledPermutes(Sequences(chunks), draw);
    SplitSequences(data, size);
  }

  /** A shuffle of chunks numbered below their count sends only chunk
      messages numbered below that count. */
  lemma TransmitInRange(shuffled: seq<Chunk>, chunks: seq<Chunk>, simulate: bool, decide: nat -> Fault)
    requires multiset(shuffled) == multiset(chunks)
    requires forall j | 0 <= j < |chunks| :: chunks[j].sequence < |chunks|
    ensures var body := Transmit(shuffled, simulate, decide);
      forall k | 0 <= k < |body| :: body[k].ChunkMsg? && body[k].sequence < |chunks|
  {
    var body := Transmit(shuffled, simulate, decide);
    forall k | 0 <= k < |body| ensures body[k].ChunkMsg? && body[k].sequence < |chunks| {
      TransmitFaithful(shuffled, simulate, decide, k);
      var i :| 0 <= i < |shuffled| && body[k] == ChunkMsg(shuffled[i].sequence,
        Hex.Encode(Payload(shuffled[i], simulate, decide(i))));
      assert shuffled[i] in multiset(chunks);
      var j :| 0 <= j < |chunks| && chunks[j] == shuffled[i];
    }
  }

  lemma BodyInRange(head: seq<Response>, body: seq<Response>, tail: seq<Response>, shuffled: seq<Chunk>,
                    chunks: seq<Chunk>, simulate: bool, decide: nat -> Fault)
    requires |head| == 1 && |tail| == 1 && body == Transmit(shuffled, simulate, decide)
    requires multiset(shuffled) == multiset(chunks)
    requires forall j | 0 <= j < |chunks| :: chunks[j].sequence < |chunks|
    ensures var msgs := head + body + tail;
      forall k | 1 <= k < |msgs| - 1 :: msgs[k].ChunkMsg? && msgs[k].sequence < |chunks|
  {
    TransmitInRange(shuffled, chunks, simulate, decide);
    var msgs := head + body + tail;
    forall k | 1 <= k < |msgs| - 1 ensures msgs[k].ChunkMsg? && msgs[k].sequence < |chunks| {
      assert msgs[k] == body[k - 1];
    }
  }

  /** An accepted upload: the metadata comes first and declares the digest
      of the recovered bytes and the number of chunks the split made, the
      end message comes last, everything in between is a chunk message
      whose sequence number is below that count, and no sequence number is
      sent more often than the split holds it, i.e. at most once. */
  lemma UploadAccepted(req: Request, config: Config, sha256: Sha256, draw: nat -> nat,
                       decide: nat -> Fault, errorText: string)
    requires FieldOr(req.filePath) != "" && FieldOr(req.fileData) != ""
    requires Latin1.Encode(FieldOr(req.fileData)).Some?
    ensures var data := Latin1.Encode(FieldOr(req.fileData)).value;
      var msgs := UploadReplies(req, config, sha256, draw, decide, errorText);
      var n := |Split(data, config.chunkSize)|;
      2 <= |msgs| <= n + 2
      && msgs[0] == Ready(sha256(data), n, FieldOr(req.filePath))
      && msgs[|msgs| - 1] == End(TransmissionComplete)
      && (forall k | 1 <= k < |msgs| - 1 :: msgs[k].ChunkMsg? && msgs[k].sequence < n)
      && multiset(ChunkSequences(msgs)) <= multiset(Range(n))
      && (config.chunkSize > 0 ==> n == NumChunks(|data|, config.chunkSize))
  {
    var data := Latin1.Encode(FieldOr(req.fileData)).value;
    var chunks := Split(data, config.chunkSize);
    var n := |chunks|;
    var shuffled := Shuffled(chunks, draw);
    ShuffledPermutes(chunks, draw);
    var body := Transmit(shuffled, config.simulateErrors, decide);
    var head := [Ready(sha256(data), n, FieldOr(req.filePath))];
    var tail := [End(TransmissionComplete)];
    var msgs := head + body + tail;
    BodyInRange(head, body, tail, shuffled, chunks, config.simulateErrors, decide);
    assert msgs == UploadReplies(req, config, sha256, draw, decide, errorText);
    ChunkSequencesAppend(head + body, tail);
    ChunkSequencesAppend(head, body);
    assert ChunkSequences(head) == [] by {
      assert head[..0] == [];
    }
    assert ChunkSequences(tail) == [] by {
      assert tail[..0] == [];
    }
    BodySequences(data, config.chunkSize, draw, config.simulateErrors, decide);
  }

  /** Without error simulation the chunk messages are exactly the split's
      chunks, intact, in shuffled order. */
  lemma UploadFaultFree(req: Request, config: Config, sha256: Sha256, draw: nat -> nat,
                        decide: nat -> Fault, errorText: string)
    requires !config.simulateErrors
    requires FieldOr(req.filePath) != "" && FieldOr(req.fileData) != ""
    requires Latin1.Encode(FieldOr(req.fileData)).Some?
    ensures var data := Latin1.Encode(FieldOr(req.fileData)).value;
      var chunks := Split(data, config.chunkSize);
      UploadReplies(req, config, sha256, draw, decide, errorText)
        == [Ready(sha256(data), |chunks|, FieldOr(req.filePath))]
           + MapSeq((c: Chunk) => ChunkMsg(c.sequence, Hex.Encode(c.data)), Shuffled(chunks, draw))
           + [End(TransmissionComplete)]
  {
    var data := Latin1.Encode(FieldOr(req.fileData)).value;
    TransmitFaultFree(Shuffled(Split(data, config.chunkSize), draw), decide);
  }
}

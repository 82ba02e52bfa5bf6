/** Both ends of the Multi-Client-Mayhem protocol together: what the server
    sends when the client only ever acknowledges, what the client answers
    to that, and the deadlock of the client as written when the server
    dropped a chunk. */
module MayhemTransfer {
  import opened Results
  import opened Bytes
  import opened Digests
  import opened Chunking
  import opened Decimal
  import Hex
  import PathNames
  import opened MayhemWire
  import opened MayhemServer
  import opened MayhemClient

  /** n acknowledgements. */
  function Oks(n: nat): (r: seq<string>)
    ensures |r| == n && forall i | 0 <= i < n :: r[i] == OkAck
  {
    seq(n, _ => OkAck)
  }

  /** Chunk objects as an honest server sends them: each names a chunk of
      the list, carries that chunk's base16 and true MD5, and the numbers
      strictly increase. */
  predicate Honest(infos: seq<ChunkInfo>, pieces: seq<seq<byte>>, clientId: string, md5: Md5)
  {
    (forall k | 0 <= k < |infos| :: 0 <= infos[k].sequence < |pieces|
       && infos[k] == ChunkMessage(infos[k].sequence, pieces[infos[k].sequence], clientId, md5))
    && (forall k, l | 0 <= k < l < |infos| :: infos[k].sequence < infos[l].sequence)
  }

  /** The map a client has after storing the chunks named by infos, in
      order. */
  function Delivered(infos: seq<ChunkInfo>, pieces: seq<seq<byte>>): (m: Received)
    decreases |infos|
  {
    if infos == [] then map[]
    else
      var s := infos[|infos| - 1].sequence;
      Delivered(infos[..|infos| - 1], pieces)[s := if 0 <= s < |pieces| then pieces[s] else []]
  }

  /** What the server sends to the size of file and then the file, when no
      acknowledgement asks for a retransmission. */
  function Transcript(file: seq<byte>, decide: nat -> Perturbation, clientId: string, sha256: Sha256, md5: Md5,
                      jsonLength: JsonLength): (t: seq<Down>)
    ensures |t| >= 4 && t[|t| - 1] == Text(TransferComplete)
  {
    var pieces := Pieces(file, ChunkSize);
    [Text(OkAck), Text(sha256(file)), Text(IntString(|pieces|))]
      + (CarryAll(FirstPass(pieces, 0, decide, clientId, md5), jsonLength) + [Text(TransferComplete)])
  }

  lemma {:induction false} SequenceLower(infos: seq<ChunkInfo>, pieces: seq<seq<byte>>, clientId: string,
                                         md5: Md5, k: nat)
    requires Honest(infos, pieces, clientId, md5) && k < |infos|
    ensures k <= infos[k].sequence
  {
    if k > 0 {
      SequenceLower(infos, pieces, clientId, md5, k - 1);
    }
  }

  lemma {:induction false} SequenceUpper(infos: seq<ChunkInfo>, pieces: seq<seq<byte>>, clientId: string,
                                         md5: Md5, k: nat)
    requires Honest(infos, pieces, clientId, md5) && k < |infos|
    ensures infos[k].sequence <= |pieces| - |infos| + k
    decreases |infos| - k
  {
    if k < |infos| - 1 {
      SequenceUpper(infos, pieces, clientId, md5, k + 1);
    }
  }

  /** An honest run names at most every chunk once, and when it names as
      many objects as there are chunks, object k is chunk k. */
  lemma HonestCount(infos: seq<ChunkInfo>, pieces: seq<seq<byte>>, clientId: string, md5: Md5)
    requires Honest(infos, pieces, clientId, md5)
    ensures |infos| <= |pieces|
    ensures |infos| == |pieces| ==> forall k | 0 <= k < |infos| :: infos[k].sequence == k
  {
    if |infos| > 0 {
      SequenceUpper(infos, pieces, clientId, md5, 0);
    }
    forall k | 0 <= k < |infos| && |infos| == |pieces| ensures infos[k].sequence == k {
      SequenceLower(infos, pieces, clientId, md5, k);
      SequenceUpper(infos, pieces, clientId, md5, k);
    }
  }

  /** A full honest run names every chunk. */
  lemma FullPassNamesAll(infos: seq<ChunkInfo>, pieces: seq<seq<byte>>, decide: nat -> Perturbation,
                         clientId: string, md5: Md5, j: nat)
    requires Honest(infos, pieces, clientId, md5) && j < |pieces|
    requires forall k | 0 <= k < |infos| :: decide(infos[k].sequence) != DropPacket
    ensures |infos| == |pieces| ==> decide(j) != DropPacket
  {
    HonestCount(infos, pieces, clientId, md5);
    if |infos| == |pieces| {
      assert infos[j].sequence == j;
    }
  }

  /** Without corruption the first pass is honest; a chunk dropped in it
      leaves it short of the chunk count. */
  lemma FirstPassHonest(pieces: seq<seq<byte>>, decide: nat -> Perturbation, clientId: string, md5: Md5)
    requires forall j :: decide(j) != CorruptTag
    ensures var infos := FirstPass(pieces, 0, decide, clientId, md5);
      Honest(infos, pieces, clientId, md5) && |infos| <= |pieces|
      && forall j: nat | j < |pieces| && decide(j) == DropPacket :: |infos| < |pieces|
  {
    var infos := FirstPass(pieces, 0, decide, clientId, md5);
    FirstPassSpec(pieces, 0, decide, clientId, md5);
    HonestCount(infos, pieces, clientId, md5);
    forall j: nat | j < |pieces| && decide(j) == DropPacket ensures |infos| < |pieces| {
      FullPassNamesAll(infos, pieces, decide, clientId, md5, j);
    }
  }

  /** Storing the first t objects of an honest run gives t entries, all
      numbered below object t's. */
  lemma {:induction false} DeliveredBelow(infos: seq<ChunkInfo>, t: nat, pieces: seq<seq<byte>>, clientId: string,
                                          md5: Md5)
    requires Honest(infos, pieces, clientId, md5) && t <= |infos|
    ensures |Delivered(infos[..t], pieces)| == t
    ensures t < |infos| ==> forall x | x in Delivered(infos[..t], pieces) :: x < infos[t].sequence
  {
    if t > 0 {
      DeliveredBelow(infos, t - 1, pieces, clientId, md5);
      assert infos[..t][..t - 1] == infos[..t - 1];
      assert infos[..t][t - 1] == infos[t - 1];
      if t < |infos| {
        assert infos[t - 1].sequence < infos[t].sequence;
      }
    }
  }

  /** Storing one more object of an honest run adds its chunk. */
  lemma DeliveredSnoc(infos: seq<ChunkInfo>, t: nat, pieces: seq<seq<byte>>, clientId: string, md5: Md5)
    requires Honest(infos, pieces, clientId, md5) && t < |infos|
    ensures var s := infos[t].sequence;
      s !in Delivered(infos[..t], pieces) && |Delivered(infos[..t], pieces)| == t
      && Delivered(infos[..t + 1], pieces) == Delivered(infos[..t], pieces)[s := pieces[s]]
  {
    DeliveredBelow(infos, t, pieces, clientId, md5);
    assert infos[..t + 1][..t] == infos[..t];
    assert infos[..t + 1][t] == infos[t];
  }

  /** Storing a whole honest run holds each named chunk. */
  lemma {:induction false} DeliveredHolds(infos: seq<ChunkInfo>, pieces: seq<seq<byte>>, clientId: string, md5: Md5)
    requires Honest(infos, pieces, clientId, md5)
    ensures forall k | 0 <= k < |infos| ::
      infos[k].sequence in Delivered(infos, pieces) && Delivered(infos, pieces)[infos[k].sequence] == pieces[infos[k].sequence]
    decreases |infos|
  {
    if infos != [] {
      var n := |infos|;
      var init := infos[..n - 1];
      assert Honest(init, pieces, clientId, md5) by {
        forall k | 0 <= k < n - 1 ensures init[k] == infos[k] {
        }
      }
      DeliveredHolds(init, pieces, clientId, md5);
      forall k | 0 <= k < n - 1 ensures init[k] == infos[k] {
      }
    }
  }

  lemma DeliveredEmpty(infos: seq<ChunkInfo>, pieces: seq<seq<byte>>)
    ensures Delivered(infos[..0], pieces) == map[]
  {
    assert infos[..0] == [];
  }

  lemma CarryAllCons(infos: seq<ChunkInfo>, t: nat, jsonLength: JsonLength)
    requires t < |infos|
    ensures CarryAll(infos[t..], jsonLength) == Carry(infos[t], jsonLength) + CarryAll(infos[t + 1..], jsonLength)
  {
    assert infos[t..][1..] == infos[t + 1..];
  }

  /** The inbox of the receive loop, split after its next pair. */
  lemma InboxCons(infos: seq<ChunkInfo>, t: nat, u: nat, tail: seq<Down>, jsonLength: JsonLength)
    requires t < |infos| && u == t + 1
    ensures CarryAll(infos[t..], jsonLength) + [Text(TransferComplete)] + tail
      == Carry(infos[t], jsonLength) + (CarryAll(infos[u..], jsonLength) + [Text(TransferComplete)] + tail)
  {
    CarryAllCons(infos, t, jsonLength);
    AppendAssoc4(Carry(infos[t], jsonLength), CarryAll(infos[u..], jsonLength), [Text(TransferComplete)], tail);
  }

  lemma OksAppend(m: nat, n: nat)
    ensures Oks(m) + Oks(n) == Oks(m + n)
  {
  }

  lemma UpsAppend(a: seq<string>, b: seq<string>)
    ensures Ups(a + b) == Ups(a) + Ups(b)
  {
  }

  /** One pass on the next object of an honest run: the chunk is
      verified and stored, two OKs go out, and the loop ends exactly when
      the map is full. */
  lemma HonestStep(infos: seq<ChunkInfo>, t: nat, u: nat, pieces: seq<seq<byte>>, inbox: seq<Down>, rest: seq<Down>,
                   clientId: string, md5: Md5, jsonLength: JsonLength, isJson: JsonCheck)
    requires Honest(infos, pieces, clientId, md5) && t < |infos| && u == t + 1
    requires inbox == Carry(infos[t], jsonLength) + rest
    ensures ChunkStep(Delivered(infos[..t], pieces), inbox, |pieces|, md5, isJson)
      == Step(Delivered(infos[..u], pieces), Oks(2), rest, if u == |pieces| then AllReceived else Next)
  {
    var info := infos[t];
    var s := info.sequence;
    var chunks := Delivered(infos[..t], pieces);
    assert inbox == [Text(IntString(jsonLength(info))), ChunkJson(info)] + rest;
    StepOnChunk(chunks, jsonLength(info), info, rest, |pieces|, md5, isJson);
    Hex.DecodeEncode(pieces[s]);
    DeliveredSnoc(infos, t, pieces, clientId, md5);
    assert info == ChunkMessage(s, pieces[s], clientId, md5);
    assert Hex.Decode(info.data) == Some(pieces[s]);
    assert Oks(2) == [OkAck, OkAck];
  }

  /** What the receive loop ends with after the pairs `infos[t..]` and
      TRANSFER_COMPLETE: every chunk stored, two OKs per pair, and a full
      map (before TRANSFER_COMPLETE) when nothing was dropped, otherwise
      TRANSFER_COMPLETE consumed. */
  predicate HonestOutcome(r: Loop, infos: seq<ChunkInfo>, t: nat, pieces: seq<seq<byte>>, tail: seq<Down>)
    requires t <= |infos|
  {
    r.chunks == Delivered(infos, pieces) && r.sent == Oks(2 * (|infos| - t))
    && (|infos| == |pieces| ==> r.exit == AllReceived && r.rest == [Text(TransferComplete)] + tail)
    && (|infos| < |pieces| ==> r.exit == Complete && r.rest == tail)
  }

  /** No pair left: the loop reads TRANSFER_COMPLETE and ends. */
  lemma HonestLoopDone(infos: seq<ChunkInfo>, t: nat, pieces: seq<seq<byte>>, tail: seq<Down>,
                       left: nat, jsonLength: JsonLength, md5: Md5, isJson: JsonCheck)
    requires t == |infos| < |pieces| && left > 0
    ensures HonestOutcome(ReceiveLoop(Delivered(infos[..t], pieces),
                                      CarryAll(infos[t..], jsonLength) + [Text(TransferComplete)] + tail,
                                      |pieces|, left, md5, isJson), infos, t, pieces, tail)
  {
    var chunks := Delivered(infos[..t], pieces);
    var inbox := CarryAll(infos[t..], jsonLength) + [Text(TransferComplete)] + tail;
    assert infos[t..] == [] && infos[..t] == infos;
    assert inbox == [Text(TransferComplete)] + tail;
    var s := Step(chunks, [], tail, Complete);
    assert ChunkStep(chunks, inbox, |pieces|, md5, isJson) == s;
    LoopStops(chunks, inbox, |pieces|, left, md5, isJson, s);
  }

  /** The next pair, stored and acknowledged, and what follows it. */
  lemma HonestLoopHead(infos: seq<ChunkInfo>, t: nat, u: nat, pieces: seq<seq<byte>>, tail: seq<Down>,
                       clientId: string, md5: Md5, jsonLength: JsonLength, isJson: JsonCheck)
    requires Honest(infos, pieces, clientId, md5) && t < |infos| && u == t + 1
    ensures var rest := CarryAll(infos[u..], jsonLength) + [Text(TransferComplete)] + tail;
      ChunkStep(Delivered(infos[..t], pieces), CarryAll(infos[t..], jsonLength) + [Text(TransferComplete)] + tail,
                |pieces|, md5, isJson)
        == Step(Delivered(infos[..u], pieces), Oks(2), rest, if u == |pieces| then AllReceived else Next)
  {
    var inbox := CarryAll(infos[t..], jsonLength) + [Text(TransferComplete)] + tail;
    var rest := CarryAll(infos[u..], jsonLength) + [Text(TransferComplete)] + tail;
    InboxCons(infos, t, u, tail, jsonLength);
    HonestStep(infos, t, u, pieces, inbox, rest, clientId, md5, jsonLength, isJson);
  }

  /** The last pair fills the map: the loop ends before TRANSFER_COMPLETE. */
  lemma HonestLoopLast(infos: seq<ChunkInfo>, t: nat, u: nat, pieces: seq<seq<byte>>, tail: seq<Down>,
                       left: nat, clientId: string, md5: Md5, jsonLength: JsonLength, isJson: JsonCheck)
    requires Honest(infos, pieces, clientId, md5) && t < |infos| <= |pieces| && u == t + 1 == |pieces| && left > 0
    ensures HonestOutcome(ReceiveLoop(Delivered(infos[..t], pieces),
                                      CarryAll(infos[t..], jsonLength) + [Text(TransferComplete)] + tail,
                                      |pieces|, left, md5, isJson), infos, t, pieces, tail)
  {
    var chunks := Delivered(infos[..t], pieces);
    var inbox := CarryAll(infos[t..], jsonLength) + [Text(TransferComplete)] + tail;
    var rest := CarryAll(infos[u..], jsonLength) + [Text(TransferComplete)] + tail;
    HonestLoopHead(infos, t, u, pieces, tail, clientId, md5, jsonLength, isJson);
    var s := Step(Delivered(infos[..u], pieces), Oks(2), rest, AllReceived);
    LoopStops(chunks, inbox, |pieces|, left, md5, isJson, s);
    assert infos[..u] == infos && infos[u..] == [];
    assert rest == [Text(TransferComplete)] + tail;
  }

  /** A pair that leaves the map short, followed by the rest of the loop. */
  lemma HonestLoopNext(infos: seq<ChunkInfo>, t: nat, u: nat, pieces: seq<seq<byte>>, tail: seq<Down>,
                       left: nat, l: nat, clientId: string, md5: Md5, jsonLength: JsonLength, isJson: JsonCheck)
    requires Honest(infos, pieces, clientId, md5) && t < |infos| <= |pieces| && u == t + 1 < |pieces|
    requires left == l + 1
    requires HonestOutcome(ReceiveLoop(Delivered(infos[..u], pieces),
                                       CarryAll(infos[u..], jsonLength) + [Text(TransferComplete)] + tail,
                                       |pieces|, l, md5, isJson), infos, u, pieces, tail)
    ensures HonestOutcome(ReceiveLoop(Delivered(infos[..t], pieces),
                                      CarryAll(infos[t..], jsonLength) + [Text(TransferComplete)] + tail,
                                      |pieces|, left, md5, isJson), infos, t, pieces, tail)
  {
    var chunks := Delivered(infos[..t], pieces);
    var inbox := CarryAll(infos[t..], jsonLength) + [Text(TransferComplete)] + tail;
    var rest := CarryAll(infos[u..], jsonLength) + [Text(TransferComplete)] + tail;
    HonestLoopHead(infos, t, u, pieces, tail, clientId, md5, jsonLength, isJson);
    var s := Step(Delivered(infos[..u], pieces), Oks(2), rest, Next);
    var r1 := ReceiveLoop(Delivered(infos[..u], pieces), rest, |pieces|, l, md5, isJson);
    LoopGoesOn(chunks, inbox, |pieces|, left, md5, isJson, s, l, r1);
    HonestShift(r1, infos, t, u, pieces, tail);
  }

  /** One more answered pair in front of an honest outcome. */
  lemma HonestShift(r1: Loop, infos: seq<ChunkInfo>, t: nat, u: nat, pieces: seq<seq<byte>>, tail: seq<Down>)
    requires t < |infos| && u == t + 1
    requires HonestOutcome(r1, infos, u, pieces, tail)
    ensures HonestOutcome(Loop(r1.chunks, Oks(2) + r1.sent, r1.rest, r1.exit, r1.rounds + 1), infos, t, pieces, tail)
  {
    OksAppend(2, 2 * (|infos| - u));
  }

  /** The receive loop fed the rest of an honest run followed by
      TRANSFER_COMPLETE ends as `HonestOutcome` says; the range always
      lasts long enough. */
  lemma {:induction false} HonestLoop(infos: seq<ChunkInfo>, t: nat, pieces: seq<seq<byte>>, tail: seq<Down>,
                                      left: nat, clientId: string, md5: Md5, jsonLength: JsonLength,
                                      isJson: JsonCheck)
    requires Honest(infos, pieces, clientId, md5)
    requires t <= |infos| <= |pieces| && t < |pieces|
    requires left >= |infos| - t && (|infos| < |pieces| ==> left > |infos| - t)
    ensures HonestOutcome(ReceiveLoop(Delivered(infos[..t], pieces),
                                      CarryAll(infos[t..], jsonLength) + [Text(TransferComplete)] + tail,
                                      |pieces|, left, md5, isJson), infos, t, pieces, tail)
    decreases |infos| - t
  {
    if t == |infos| {
      HonestLoopDone(infos, t, pieces, tail, left, jsonLength, md5, isJson);
    } else {
      var u: nat := t + 1;
      if u == |pieces| {
        HonestLoopLast(infos, t, u, pieces, tail, left, clientId, md5, jsonLength, isJson);
      } else {
        var l: nat := left - 1;
        HonestLoop(infos, u, pieces, tail, l, clientId, md5, jsonLength, isJson);
        HonestLoopNext(infos, t, u, pieces, tail, left, l, clientId, md5, jsonLength, isJson);
      }
    }
  }

  /** The client's side up to the receive loop: it sends the size and the
      file, checks the SHA-256, reads the chunk count and sends OK. */
  lemma PreludeHeader(data: seq<byte>, n: int, body: seq<Down>, sha256: Sha256, md5: Md5, isJson: JsonCheck)
    ensures var loop := ReceiveLoop(map[], body, n, Budget(n), md5, isJson);
      Prelude(data, [Text(OkAck), Text(sha256(data)), Text(IntString(n))] + body, sha256, md5, isJson)
        == Looped([UpText(IntString(|data|)), UpBytes(data), UpText(OkAck)] + Ups(loop.sent), loop, n)
  {
    HeaderReads(data, n, body, sha256);
    var loop := ReceiveLoop(map[], body, n, Budget(n), md5, isJson);
    Singletons3(UpText(IntString(|data|)), UpBytes(data), UpText(OkAck), Ups(loop.sent));
  }

  /** The three messages before the chunks, read one at a time. */
  lemma HeaderReads(data: seq<byte>, n: int, body: seq<Down>, sha256: Sha256)
    ensures var rest2 := [Text(IntString(n))] + body;
      var rest1 := [Text(sha256(data))] + rest2;
      Read([Text(OkAck)] + rest1) == Some((Text(OkAck), rest1))
      && Read(rest1) == Some((Text(sha256(data)), rest2))
      && Read(rest2) == Some((Text(IntString(n)), body))
      && IntOf(Text(IntString(n))) == Some(n)
      && [Text(OkAck), Text(sha256(data)), Text(IntString(n))] + body == [Text(OkAck)] + rest1
  {
    var rest2 := [Text(IntString(n))] + body;
    var rest1 := [Text(sha256(data))] + rest2;
    assert ([Text(OkAck)] + rest1)[1..] == rest1;
    assert rest1[1..] == rest2;
    assert rest2[1..] == body;
    ParseIntString(n);
  }

  /** The server's side when every acknowledgement is OK and a report
      follows: it sends the transcript and reads the report as the
      result. */
  lemma ServerQuiet(file: seq<byte>, oks: nat, report: string, clientId: string, decide: nat -> Perturbation,
                    sha256: Sha256, md5: Md5, jsonLength: JsonLength)
    requires report in {Success, ChecksumMismatch, ErrorReport}
    requires oks == 2 * |FirstPass(Pieces(file, ChunkSize), 0, decide, clientId, md5)|
    ensures HandleClientSpec(IntString(|file|), file, [OkAck] + Oks(oks) + [report], clientId, decide, sha256, md5,
                             jsonLength)
      == Session(Transcript(file, decide, clientId, sha256, md5, jsonLength), Some(report))
  {
    var acks := [OkAck] + Oks(oks) + [report];
    AcksQuiet(oks, report);
    QuietSession(file, acks, clientId, decide, sha256, md5, jsonLength);
    assert NextAck(acks).1 == Oks(oks) + [report];
    assert Skip(Oks(oks) + [report], oks) == [report];
  }

  /** Acknowledgements that ask for nothing again: the server sends the
      transcript of the first pass and takes the one after those it read as
      the result. */
  lemma QuietSession(file: seq<byte>, acks: seq<string>, clientId: string, decide: nat -> Perturbation,
                     sha256: Sha256, md5: Md5, jsonLength: JsonLength)
    requires Quiet(acks)
    ensures var infos := FirstPass(Pieces(file, ChunkSize), 0, decide, clientId, md5);
      HandleClientSpec(IntString(|file|), file, acks, clientId, decide, sha256, md5, jsonLength)
        == Session(Transcript(file, decide, clientId, sha256, md5, jsonLength),
                   Some(NextAck(Skip(NextAck(acks).1, 2 * |infos|)).0))
  {
    ParseIntString(|file|);
    assert file[..|file|] == file;
    var pieces := Pieces(file, ChunkSize);
    var infos := FirstPass(pieces, 0, decide, clientId, md5);
    NextAckQuiet(acks);
    QuietServe(pieces, 0, NextAck(acks).1, decide, clientId, md5, jsonLength);
    AppendAssoc3([Text(OkAck), Text(sha256(file)), Text(IntString(|pieces|))], CarryAll(infos, jsonLength),
              [Text(TransferComplete)]);
  }

  /** OKs followed by a report ask for nothing again. */
  lemma AcksQuiet(oks: nat, report: string)
    requires report in {Success, ChecksumMismatch, ErrorReport}
    ensures Quiet([OkAck] + Oks(oks) + [report])
  {
    var acks := [OkAck] + Oks(oks) + [report];
    assert report[0] != 'R';
    forall j | 0 <= j < |acks| ensures !StartsWith(acks[j], RetransmitPrefix) {
      if j == |acks| - 1 {
        assert acks[j] == report;
      } else if j > 0 {
        assert acks[j] == OkAck;
      }
    }
  }

  /** The whole receive loop on an honest first pass followed by
      TRANSFER_COMPLETE. */
  lemma MainLoop(infos: seq<ChunkInfo>, pieces: seq<seq<byte>>, clientId: string, md5: Md5,
                 jsonLength: JsonLength, isJson: JsonCheck)
    requires Honest(infos, pieces, clientId, md5) && |infos| <= |pieces|
    ensures var r := ReceiveLoop(map[], CarryAll(infos, jsonLength) + [Text(TransferComplete)], |pieces|,
                                 Budget(|pieces|), md5, isJson);
      r.chunks == Delivered(infos, pieces) && r.sent == Oks(2 * |infos|)
      && r.exit != Blocked && (r.exit != Complete ==> r.rest == [Text(TransferComplete)])
      && (r.exit == Complete <==> |infos| < |pieces|)
      && (|infos| < |pieces| ==> r.rest == [])
  {
    var n := |pieces|;
    var body := CarryAll(infos, jsonLength) + [Text(TransferComplete)];
    if n == 0 {
      assert infos == [];
      assert ReceiveLoop(map[], body, n, 0, md5, isJson) == Loop(map[], [], body, Next, 0);
    } else {
      DeliveredEmpty(infos, pieces);
      assert infos[0..] == infos;
      assert body == CarryAll(infos[0..], jsonLength) + [Text(TransferComplete)] + [];
      HonestLoop(infos, 0, pieces, [], Budget(n), clientId, md5, jsonLength, isJson);
    }
  }

  /** The corrected client after a receive loop that stored chunks, sent
      oks, and ended with TRANSFER_COMPLETE seen or still to come. */
  lemma UploadAfterLoop(path: string, file: seq<byte>, n: int, body: seq<Down>, sha256: Sha256, md5: Md5,
                        isJson: JsonCheck, chunks: Received, oks: seq<string>)
    requires var loop := ReceiveLoop(map[], body, n, Budget(n), md5, isJson);
      loop.chunks == chunks && loop.sent == oks && loop.exit != Blocked
      && (loop.exit != Complete ==> loop.rest == [Text(TransferComplete)])
    ensures var whole := Reassembled(chunks, n);
      var report := if sha256(whole) == sha256(file) then Success else ChecksumMismatch;
      Upload(path, Some(file), [Text(OkAck), Text(sha256(file)), Text(IntString(n))] + body, sha256, md5, isJson)
        == Run([UpText(IntString(|file|)), UpBytes(file)] + Ups([OkAck] + oks + [report]),
               Reported(report), if report == Success then Some((PathNames.ReceivedPath(path), whole)) else None)
  {
    PreludeHeader(file, n, body, sha256, md5, isJson);
    var loop := ReceiveLoop(map[], body, n, Budget(n), md5, isJson);
    var sent := [UpText(IntString(|file|)), UpBytes(file), UpText(OkAck)] + Ups(oks);
    assert FirstOf(Read([Text(TransferComplete)])) == Some(Text(TransferComplete));
    var whole := Reassembled(chunks, n);
    var report := if sha256(whole) == sha256(file) then Success else ChecksumMismatch;
    SentWithReport(UpText(IntString(|file|)), UpBytes(file), oks, report);
  }

  /** The client's messages, regrouped as the prelude, the acknowledgements
      and the report. */
  lemma SentWithReport(size: Up, data: Up, oks: seq<string>, report: string)
    ensures [size, data, UpText(OkAck)] + Ups(oks) + [UpText(report)] == [size, data] + Ups([OkAck] + oks + [report])
  {
    assert Ups([OkAck]) == [UpText(OkAck)] && Ups([report]) == [UpText(report)];
    UpsAppend([OkAck], oks);
    UpsAppend([OkAck] + oks, [report]);
  }

  /** The client's messages without a report. */
  lemma SentWithoutReport(size: Up, data: Up, oks: seq<string>)
    ensures [size, data, UpText(OkAck)] + Ups(oks) == [size, data] + Ups([OkAck] + oks)
  {
    assert Ups([OkAck]) == [UpText(OkAck)];
    UpsAppend([OkAck], oks);
  }

  /** What the corrected client makes of the transcript of an honest
      first pass: it acknowledges every pair, reassembles what arrived, and
      reports SUCCESS, saving the result, exactly when its SHA-256 is the
      file's; otherwise it reports CHECKSUM_MISMATCH. */
  lemma ClientRun(path: string, file: seq<byte>, infos: seq<ChunkInfo>, clientId: string, sha256: Sha256, md5: Md5,
                  jsonLength: JsonLength, isJson: JsonCheck)
    requires Honest(infos, Pieces(file, ChunkSize), clientId, md5) && |infos| <= NumChunks(|file|, ChunkSize)
    ensures var pieces := Pieces(file, ChunkSize);
      var transcript := [Text(OkAck), Text(sha256(file)), Text(IntString(|pieces|))]
                        + (CarryAll(infos, jsonLength) + [Text(TransferComplete)]);
      var whole := Reassembled(Delivered(infos, pieces), |pieces|);
      var report := if sha256(whole) == sha256(file) then Success else ChecksumMismatch;
      Upload(path, Some(file), transcript, sha256, md5, isJson)
        == Run([UpText(IntString(|file|)), UpBytes(file)] + Ups([OkAck] + Oks(2 * |infos|) + [report]),
               Reported(report), if report == Success then Some((PathNames.ReceivedPath(path), whole)) else None)
  {
    var pieces := Pieces(file, ChunkSize);
    var body := CarryAll(infos, jsonLength) + [Text(TransferComplete)];
    MainLoop(infos, pieces, clientId, md5, jsonLength, isJson);
    UploadAfterLoop(path, file, |pieces|, body, sha256, md5, isJson, Delivered(infos, pieces), Oks(2 * |infos|));
  }

  /** What the client as written makes of the transcript of an honest
      first pass that misses a chunk: it acknowledges every pair and then
      waits for a second TRANSFER_COMPLETE that never comes. */
  lemma ClientHangs(path: string, file: seq<byte>, infos: seq<ChunkInfo>, clientId: string, sha256: Sha256, md5: Md5,
                    jsonLength: JsonLength, isJson: JsonCheck)
    requires Honest(infos, Pieces(file, ChunkSize), clientId, md5) && |infos| < NumChunks(|file|, ChunkSize)
    ensures var pieces := Pieces(file, ChunkSize);
      var transcript := [Text(OkAck), Text(sha256(file)), Text(IntString(|pieces|))]
                        + (CarryAll(infos, jsonLength) + [Text(TransferComplete)]);
      UploadAsWritten(path, Some(file), transcript, sha256, md5, isJson)
        == Run([UpText(IntString(|file|)), UpBytes(file)] + Ups([OkAck] + Oks(2 * |infos|)), Hung, None)
  {
    var pieces := Pieces(file, ChunkSize);
    var body := CarryAll(infos, jsonLength) + [Text(TransferComplete)];
    MainLoop(infos, pieces, clientId, md5, jsonLength, isJson);
    AsWrittenAfterComplete(path, file, |pieces|, body, sha256, md5, isJson, Oks(2 * |infos|));
  }

  /** The client as written after a receive loop that consumed
      TRANSFER_COMPLETE and everything before it. */
  lemma AsWrittenAfterComplete(path: string, file: seq<byte>, n: int, body: seq<Down>, sha256: Sha256, md5: Md5,
                               isJson: JsonCheck, oks: seq<string>)
    requires var loop := ReceiveLoop(map[], body, n, Budget(n), md5, isJson);
      loop.sent == oks && loop.exit == Complete && loop.rest == []
    ensures UploadAsWritten(path, Some(file), [Text(OkAck), Text(sha256(file)), Text(IntString(n))] + body, sha256,
                            md5, isJson)
      == Run([UpText(IntString(|file|)), UpBytes(file)] + Ups([OkAck] + oks), Hung, None)
  {
    PreludeHeader(file, n, body, sha256, md5, isJson);
    var loop := ReceiveLoop(map[], body, n, Budget(n), md5, isJson);
    var sent := [UpText(IntString(|file|)), UpBytes(file), UpText(OkAck)] + Ups(oks);
    assert FirstOf(Read(loop.rest)) == None;
    assert Conclude(sent, None, loop.chunks, n, path, file, sha256) == Run(sent, Hung, None);
    SentWithoutReport(UpText(IntString(|file|)), UpBytes(file), oks);
  }

  /** A client acknowledgement run ending in a report, as the server reads it. */
  lemma ServerSide(file: seq<byte>, infos: seq<ChunkInfo>, report: string, clientId: string,
                   decide: nat -> Perturbation, sha256: Sha256, md5: Md5, jsonLength: JsonLength)
    requires infos == FirstPass(Pieces(file, ChunkSize), 0, decide, clientId, md5)
    requires report in {Success, ChecksumMismatch}
    ensures HandleClientSpec(IntString(|file|), file, [OkAck] + Oks(2 * |infos|) + [report], clientId, decide,
                             sha256, md5, jsonLength)
      == Session(Transcript(file, decide, clientId, sha256, md5, jsonLength), Some(report))
  {
    ServerQuiet(file, 2 * |infos|, report, clientId, decide, sha256, md5, jsonLength);
  }

  /** Everything delivered: the map holds every piece, so the client
      reassembles exactly the file. */
  lemma AllDelivered(file: seq<byte>, decide: nat -> Perturbation, clientId: string, md5: Md5)
    requires forall j :: decide(j) == Deliver
    ensures var pieces := Pieces(file, ChunkSize);
      Reassembled(Delivered(FirstPass(pieces, 0, decide, clientId, md5), pieces), |pieces|) == file
  {
    var pieces := Pieces(file, ChunkSize);
    var infos := FirstPass(pieces, 0, decide, clientId, md5);
    FirstPassHonest(pieces, decide, clientId, md5);
    FirstPassDelivered(pieces, 0, decide, clientId, md5);
    DeliveredHolds(infos, pieces, clientId, md5);
    HonestCount(infos, pieces, clientId, md5);
    var m := Delivered(infos, pieces);
    assert |infos| == |pieces|;
    forall i | 0 <= i < |pieces| ensures i in m && m[i] == pieces[i] {
      assert infos[i].sequence == i;
    }
    ReassembledComplete(m, pieces);
    PiecesFlatten(file, ChunkSize);
  }

  /** The Multi-Client-Mayhem transfer with the corrected client: when the
      server corrupts nothing (it may drop chunks), the client's messages
      and the server's form one consistent exchange. The client sends the
      size, the file, OK and two OKs per chunk object, and ends with a
      report, which is exactly what the server reads as its result; the
      report is SUCCESS exactly when the chunks that arrived reassemble to
      a file with the sent file's SHA-256, and CHECKSUM_MISMATCH otherwise.
      When every chunk is delivered the client saves exactly the file under
      the `_received` name and both sides conclude SUCCESS. */
  lemma HonestTransfer(path: string, file: seq<byte>, decide: nat -> Perturbation, clientId: string,
                       sha256: Sha256, md5: Md5, jsonLength: JsonLength, isJson: JsonCheck)
    requires forall j :: decide(j) != CorruptTag
    ensures var pieces := Pieces(file, ChunkSize);
      var infos := FirstPass(pieces, 0, decide, clientId, md5);
      var transcript := Transcript(file, decide, clientId, sha256, md5, jsonLength);
      var run := Upload(path, Some(file), transcript, sha256, md5, isJson);
      run.verdict.Reported?
      && run.sent == [UpText(IntString(|file|)), UpBytes(file)] + Ups([OkAck] + Oks(2 * |infos|) + [run.verdict.report])
      && HandleClientSpec(IntString(|file|), file, [OkAck] + Oks(2 * |infos|) + [run.verdict.report], clientId,
                          decide, sha256, md5, jsonLength) == Session(transcript, Some(run.verdict.report))
      && (run.verdict.report == Success <==> sha256(Reassembled(Delivered(infos, pieces), |pieces|)) == sha256(file))
      && (run.verdict.report != Success ==> run.verdict.report == ChecksumMismatch)
      && ((forall j :: decide(j) == Deliver) ==>
            run.verdict == Reported(Success) && run.saved == Some((PathNames.ReceivedPath(path), file)))
  {
    var pieces := Pieces(file, ChunkSize);
    var infos := FirstPass(pieces, 0, decide, clientId, md5);
    FirstPassHonest(pieces, decide, clientId, md5);
    ClientRun(path, file, infos, clientId, sha256, md5, jsonLength, isJson);
    var whole := Reassembled(Delivered(infos, pieces), |pieces|);
    var report := if sha256(whole) == sha256(file) then Success else ChecksumMismatch;
    ServerSide(file, infos, report, clientId, decide, sha256, md5, jsonLength);
    if forall j :: decide(j) == Deliver {
      AllDelivered(file, decide, clientId, md5);
    }
  }

  /** The client as written, when a chunk is dropped and nothing is
      corrupted: its loop ends on TRANSFER_COMPLETE, it then waits for
      TRANSFER_COMPLETE again and never reports, while the server, having
      answered all of the client's acknowledgements, has sent everything
      and waits for that report. */
  lemma DroppedChunkHangs(path: string, file: seq<byte>, decide: nat -> Perturbation, j: nat, clientId: string,
                          sha256: Sha256, md5: Md5, jsonLength: JsonLength, isJson: JsonCheck)
    requires forall i :: decide(i) != CorruptTag
    requires j < NumChunks(|file|, ChunkSize) && decide(j) == DropPacket
    ensures var infos := FirstPass(Pieces(file, ChunkSize), 0, decide, clientId, md5);
      var transcript := Transcript(file, decide, clientId, sha256, md5, jsonLength);
      var acks := [OkAck] + Oks(2 * |infos|);
      UploadAsWritten(path, Some(file), transcript, sha256, md5, isJson)
        == Run([UpText(IntString(|file|)), UpBytes(file)] + Ups(acks), Hung, None)
      && HandleClientSpec(IntString(|file|), file, acks, clientId, decide, sha256, md5, jsonLength).sent == transcript
  {
    var pieces := Pieces(file, ChunkSize);
    var infos := FirstPass(pieces, 0, decide, clientId, md5);
    FirstPassHonest(pieces, decide, clientId, md5);
    assert |infos| < |pieces|;
    ClientHangs(path, file, infos, clientId, sha256, md5, jsonLength, isJson);
    ServerUnanswered(file, 2 * |infos|, clientId, decide, sha256, md5, jsonLength);
  }

  /** The server fed only acknowledgements sends the whole transcript. */
  lemma ServerUnanswered(file: seq<byte>, oks: nat, clientId: string, decide: nat -> Perturbation,
                         sha256: Sha256, md5: Md5, jsonLength: JsonLength)
    requires oks == 2 * |FirstPass(Pieces(file, ChunkSize), 0, decide, clientId, md5)|
    ensures HandleClientSpec(IntString(|file|), file, [OkAck] + Oks(oks), clientId, decide, sha256, md5,
                             jsonLength).sent == Transcript(file, decide, clientId, sha256, md5, jsonLength)
  {
    var acks := [OkAck] + Oks(oks);
    assert Quiet(acks) by {
      forall i | 0 <= i < |acks| ensures !StartsWith(acks[i], RetransmitPrefix) {
        assert acks[i] == OkAck;
      }
    }
    ParseIntString(|file|);
    assert file[..|file|] == file;
    NextAckQuiet(acks);
    QuietServe(Pieces(file, ChunkSize), 0, NextAck(acks).1, decide, clientId, md5, jsonLength);
  }

  /** The smallest case: a one-byte file whose only chunk is dropped. The
      server sends OK, the SHA-256, "1" and TRANSFER_COMPLETE; the client
      as written answers OK and then waits forever, where the corrected
      client reports. */
  lemma OneByteDropHangs(path: string, clientId: string, sha256: Sha256, md5: Md5, jsonLength: JsonLength,
                         isJson: JsonCheck)
    ensures var decide := (i: nat) => if i == 0 then DropPacket else Deliver;
      var transcript := Transcript([65], decide, clientId, sha256, md5, jsonLength);
      transcript == [Text(OkAck), Text(sha256([65])), Text("1"), Text(TransferComplete)]
      && UploadAsWritten(path, Some([65]), transcript, sha256, md5, isJson)
           == Run([UpText("1"), UpBytes([65]), UpText(OkAck)], Hung, None)
      && Upload(path, Some([65]), transcript, sha256, md5, isJson).verdict.Reported?
  {
    var decide := (i: nat) => if i == 0 then DropPacket else Deliver;
    assert NumChunks(1, ChunkSize) == 1;
    var pieces := Pieces([65], ChunkSize);
    assert FirstPass(pieces, 0, decide, clientId, md5) == [];
    assert IntString(1) == "1";
    DroppedChunkHangs(path, [65], decide, 0, clientId, sha256, md5, jsonLength, isJson);
    HonestTransfer(path, [65], decide, clientId, sha256, md5, jsonLength, isJson);
    assert Ups([OkAck] + Oks(0)) == [UpText(OkAck)];
  }
}

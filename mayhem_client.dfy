/** `upload_file` of the Multi-Client-Mayhem client: send the size and the
    bytes of a file, check the SHA-256 the server echoes, receive at most
    twice as many chunk exchanges as there are chunks (keeping the first
    copy of every chunk whose MD5 verifies and asking again for the others),
    reassemble the chunks in ascending order and report the verdict.

    The connection is a list of the messages the server sends (each `recv`
    returns one of them); the client's own messages are returned. A read
    from an exhausted list is a read that blocks forever. */
module MayhemClient {
  import opened Results
  import opened Bytes
  import opened Digests
  import opened Decimal
  import Hex
  import PathNames
  import opened MayhemWire

  /** What the client sends: a text message or the raw bytes of the file. */
  datatype Up = UpText(text: string) | UpBytes(bytes: seq<byte>)

  /** The `chunks` dictionary, keyed by the sequence numbers the server sent. */
  type Received = map<int, seq<byte>>

  /** Whether `json.loads` accepts a text message. A text that is JSON is
      never a chunk object (those are `ChunkJson`), so reading the fields of
      what it decodes to raises. */
  type JsonCheck = string -> bool

  /** How one pass of the receive loop ends: go on with the next pass, the
      TRANSFER_COMPLETE message, the exception handler (ERROR sent), every
      chunk received, or a read that blocks forever. */
  datatype Exit = Next | Complete | Failed | AllReceived | Blocked

  datatype Step = Step(chunks: Received, sent: seq<string>, rest: seq<Down>, exit: Exit)

  /** One `recv`: None when nothing more will arrive on an open connection;
      a closed connection reads as b'' again and again. */
  function Read(inbox: seq<Down>): (r: Option<(Down, seq<Down>)>)
  {
    if inbox == [] then None
    else if inbox[0] == Closed then Some((Closed, inbox))
    else Some((inbox[0], inbox[1..]))
  }

  /** The decoded text of a message; None for a chunk object, whose JSON
      text is not a number, a checksum or a keyword. */
  function AsText(m: Down): (r: Option<string>)
  {
    match m
    case Text(t) => Some(t)
    case Closed => Some("")
    case ChunkJson(_) => None
  }

  /** `int(message.decode())`: None where Python raises. */
  function IntOf(m: Down): (r: Option<int>)
  {
    match AsText(m)
    case None => None
    case Some(t) => ParseInt(t)
  }

  /** The client's handling of the message read in the JSON position (after
      "OK" for the length was sent). */
  function Accept(chunks: Received, j: Down, rest: seq<Down>, numChunks: int, md5: Md5,
                  isJson: JsonCheck): (s: Step)
    ensures s.rest == rest
  {
    match j
    case ChunkJson(info) =>
      (match Hex.Decode(info.data)
       case None => Step(chunks, [OkAck, ErrorReport], rest, Failed)
       case Some(data) =>
         if md5(data) != info.chunkChecksum then Step(chunks, [OkAck, RetransmitRequest(info.sequence)], rest, Next)
         else
           var stored := if info.sequence in chunks then chunks else chunks[info.sequence := data];
           Step(stored, [OkAck, OkAck], rest, if |stored| == numChunks then AllReceived else Next))
    case Text(t) =>
      if isJson(t) then Step(chunks, [OkAck, ErrorReport], rest, Failed)
      else Step(chunks, [OkAck, RetransmitLast], rest, Next)
    case Closed => Step(chunks, [OkAck, RetransmitLast], rest, Next)
  }

  /** One pass of `for _ in range(num_chunks * 2)`. A zero length reads
      nothing (`recv(0)` is b'', which is not JSON); a negative one makes
      `recv` raise. */
  function ChunkStep(chunks: Received, inbox: seq<Down>, numChunks: int, md5: Md5, isJson: JsonCheck): (s: Step)
  {
    match Read(inbox)
    case None => Step(chunks, [], inbox, Blocked)
    case Some((m, rest)) =>
      if m == Text(TransferComplete) then Step(chunks, [], rest, Complete)
      else match IntOf(m)
        case None => Step(chunks, [ErrorReport], rest, Failed)
        case Some(len) =>
          if len < 0 then Step(chunks, [OkAck, ErrorReport], rest, Failed)
          else if len == 0 then Step(chunks, [OkAck, RetransmitLast], rest, Next)
          else match Read(rest)
            case None => Step(chunks, [OkAck], rest, Blocked)
            case Some((j, rest2)) => Accept(chunks, j, rest2, numChunks, md5, isJson)
  }

  datatype Loop = Loop(chunks: Received, sent: seq<string>, rest: seq<Down>, exit: Exit, rounds: nat)

  /** The receive loop with `left` passes to go; it ends with exit Next
      when the range is used up. */
  function ReceiveLoop(chunks: Received, inbox: seq<Down>, numChunks: int, left: nat, md5: Md5,
                       isJson: JsonCheck): (r: Loop)
    ensures r.rounds <= left
    decreases left
  {
    if left == 0 then Loop(chunks, [], inbox, Next, 0)
    else
      var s := ChunkStep(chunks, inbox, numChunks, md5, isJson);
      if s.exit != Next then Loop(s.chunks, s.sent, s.rest, s.exit, 1)
      else
        var r := ReceiveLoop(s.chunks, s.rest, numChunks, left - 1, md5, isJson);
        Loop(r.chunks, s.sent + r.sent, r.rest, r.exit, r.rounds + 1)
  }

  /** `len(range(num_chunks * 2))`. */
  function Budget(numChunks: int): (b: nat)
  {
    if numChunks > 0 then 2 * numChunks else 0
  }

  /** The reassembly loop over `range(n)`, keeping present chunks only. */
  function Reassembled(chunks: Received, n: int): (data: seq<byte>)
    decreases n
  {
    if n <= 0 then []
    else Reassembled(chunks, n - 1) + (if n - 1 in chunks then chunks[n - 1] else [])
  }

  datatype Verdict = NoFile | InitialMismatch | Crashed | Hung | Reported(report: string)

  /** The client's messages, how it ended, and the file it wrote. */
  datatype Run = Run(sent: seq<Up>, verdict: Verdict, saved: Option<(string, seq<byte>)>)

  function Ups(texts: seq<string>): (r: seq<Up>)
    ensures |r| == |texts| && forall i | 0 <= i < |texts| :: r[i] == UpText(texts[i])
  {
    seq(|texts|, i requires 0 <= i < |texts| => UpText(texts[i]))
  }

  /** The run up to the end of the receive loop, or the run when it stopped
      before that. */
  datatype Middle = Stopped(run: Run) | Looped(sent: seq<Up>, loop: Loop, numChunks: int)

  function Prelude(data: seq<byte>, inbox: seq<Down>, sha256: Sha256, md5: Md5, isJson: JsonCheck): (p: Middle)
  {
    var sent0 := [UpText(IntString(|data|))];
    match Read(inbox)
    case None => Stopped(Run(sent0, Hung, None))
    case Some((_, rest1)) =>
      var sent1 := sent0 + [UpBytes(data)];
      match Read(rest1)
      case None => Stopped(Run(sent1, Hung, None))
      case Some((c, rest2)) =>
        if AsText(c) != Some(sha256(data)) then Stopped(Run(sent1, InitialMismatch, None))
        else match Read(rest2)
          case None => Stopped(Run(sent1, Hung, None))
          case Some((m, rest3)) =>
            match IntOf(m)
            case None => Stopped(Run(sent1, Crashed, None))
            case Some(n) =>
              var loop := ReceiveLoop(map[], rest3, n, Budget(n), md5, isJson);
              Looped(sent1 + [UpText(OkAck)] + Ups(loop.sent), loop, n)
  }

  /** The final message and what the client does with it. */
  function Conclude(sent: seq<Up>, final: Option<Down>, chunks: Received, numChunks: int, path: string,
                    data: seq<byte>, sha256: Sha256): (run: Run)
    ensures final.None? <==> run.verdict == Hung
    ensures final.None? ==> run.sent == sent
    ensures run.verdict.Reported? ==> run.sent == sent + [UpText(run.verdict.report)]
    ensures final.Some? && final != Some(Text(TransferComplete)) ==> run.verdict == Reported(ErrorReport)
    ensures run.saved.Some? <==> run.verdict == Reported(Success)
    ensures run.saved.Some? ==>
      final == Some(Text(TransferComplete)) && run.saved.value == (PathNames.ReceivedPath(path), Reassembled(chunks, numChunks))
      && sha256(run.saved.value.1) == sha256(data)
  {
    match final
    case None => Run(sent, Hung, None)
    case Some(m) =>
      if m != Text(TransferComplete) then Run(sent + [UpText(ErrorReport)], Reported(ErrorReport), None)
      else
        var whole := Reassembled(chunks, numChunks);
        if sha256(whole) == sha256(data) then
          Run(sent + [UpText(Success)], Reported(Success), Some((PathNames.ReceivedPath(path), whole)))
        else Run(sent + [UpText(ChecksumMismatch)], Reported(ChecksumMismatch), None)
  }

  function FirstOf(r: Option<(Down, seq<Down>)>): (m: Option<Down>)
  {
    match r
    case None => None
    case Some((m, _)) => Some(m)
  }

  /** `upload_file` as written: after the loop it always reads the final
      message, even when the loop already consumed TRANSFER_COMPLETE. */
  function UploadAsWritten(path: string, file: Option<seq<byte>>, inbox: seq<Down>, sha256: Sha256, md5: Md5,
                           isJson: JsonCheck): (run: Run)
    ensures file.None? <==> run.verdict == NoFile
    ensures run.saved.Some? <==> run.verdict == Reported(Success)
    ensures run.saved.Some? ==> file.Some? && run.saved.value.0 == PathNames.ReceivedPath(path)
                                && sha256(run.saved.value.1) == sha256(file.value)
    ensures run.verdict.Reported? ==> |run.sent| > 0 && run.sent[|run.sent| - 1] == UpText(run.verdict.report)
  {
    match file
    case None => Run([], NoFile, None)
    case Some(data) =>
      match Prelude(data, inbox, sha256, md5, isJson)
      case Stopped(run) => run
      case Looped(sent, loop, n) =>
        if loop.exit == Blocked then Run(sent, Hung, None)
        else Conclude(sent, FirstOf(Read(loop.rest)), loop.chunks, n, path, data, sha256)
  }

  /** `upload_file` with the final read skipped when the loop already saw
      TRANSFER_COMPLETE. */
  function Upload(path: string, file: Option<seq<byte>>, inbox: seq<Down>, sha256: Sha256, md5: Md5,
                  isJson: JsonCheck): (run: Run)
  {
    match file
    case None => Run([], NoFile, None)
    case Some(data) =>
      match Prelude(data, inbox, sha256, md5, isJson)
      case Stopped(run) => run
      case Looped(sent, loop, n) =>
        if loop.exit == Blocked then Run(sent, Hung, None)
        else
          var final := if loop.exit == Complete then Some(Text(TransferComplete)) else FirstOf(Read(loop.rest));
          Conclude(sent, final, loop.chunks, n, path, data, sha256)
  }

  /** The body of the receive loop: the `chunks[sequence] = data` update
      happens only for a verified chunk whose number is new. */
  method ReceiveChunk(chunks: Received, inbox: seq<Down>, numChunks: int, md5: Md5, isJson: JsonCheck)
    returns (s: Step)
    ensures s == ChunkStep(chunks, inbox, numChunks, md5, isJson)
  {
    var got := Read(inbox);
    if got.None? {
      return Step(chunks, [], inbox, Blocked);
    }
    var m, rest := got.value.0, got.value.1;
    if m == Text(TransferComplete) {
      return Step(chunks, [], rest, Complete);
    }
    var chunkLen := IntOf(m);
    if chunkLen.None? {
      return Step(chunks, [ErrorReport], rest, Failed);
    }
    var sent := [OkAck];
    if chunkLen.value < 0 {
      return Step(chunks, sent + [ErrorReport], rest, Failed);
    }
    if chunkLen.value == 0 {
      return Step(chunks, sent + [RetransmitLast], rest, Next);
    }
    got := Read(rest);
    if got.None? {
      return Step(chunks, sent, rest, Blocked);
    }
    var j := got.value.0;
    rest := got.value.1;
    match j {
      case ChunkJson(info) =>
        var data := Hex.Decode(info.data);
        if data.None? {
          return Step(chunks, sent + [ErrorReport], rest, Failed);
        }
        if md5(data.value) != info.chunkChecksum {
          return Step(chunks, sent + [RetransmitRequest(info.sequence)], rest, Next);
        }
        var stored := chunks;
        if info.sequence !in stored {
          stored := stored[info.sequence := data.value];
        }
        var exit := if |stored| == numChunks then AllReceived else Next;
        s := Step(stored, sent + [OkAck], rest, exit);
      case Text(t) =>
        if isJson(t) {
          s := Step(chunks, sent + [ErrorReport], rest, Failed);
        } else {
          s := Step(chunks, sent + [RetransmitLast], rest, Next);
        }
      case Closed =>
        s := Step(chunks, sent + [RetransmitLast], rest, Next);
    }
  }

  /** A pass that leaves the loop ends it. */
  lemma LoopStops(chunks: Received, inbox: seq<Down>, numChunks: int, left: nat, md5: Md5, isJson: JsonCheck,
                  s: Step)
    requires left > 0 && ChunkStep(chunks, inbox, numChunks, md5, isJson) == s && s.exit != Next
    ensures ReceiveLoop(chunks, inbox, numChunks, left, md5, isJson) == Loop(s.chunks, s.sent, s.rest, s.exit, 1)
  {
  }

  /** A pass that stays in the loop is followed by the rest of it. */
  lemma LoopGoesOn(chunks: Received, inbox: seq<Down>, numChunks: int, left: nat, md5: Md5, isJson: JsonCheck,
                   s: Step, l: nat, r1: Loop)
    requires left == l + 1 && ChunkStep(chunks, inbox, numChunks, md5, isJson) == s && s.exit == Next
    requires ReceiveLoop(s.chunks, s.rest, numChunks, l, md5, isJson) == r1
    ensures ReceiveLoop(chunks, inbox, numChunks, left, md5, isJson)
      == Loop(r1.chunks, s.sent + r1.sent, r1.rest, r1.exit, r1.rounds + 1)
  {
    assert left - 1 == l;
    assert ReceiveLoop(s.chunks, s.rest, numChunks, left - 1, md5, isJson) == r1;
  }

  /** `for _ in range(num_chunks * 2)` with its early exits. */
  method ReceiveChunks(inbox0: seq<Down>, numChunks: int, md5: Md5, isJson: JsonCheck)
    returns (chunks: Received, sent: seq<string>, inbox: seq<Down>, exit: Exit, rounds: nat)
    ensures Loop(chunks, sent, inbox, exit, rounds) == ReceiveLoop(map[], inbox0, numChunks, Budget(numChunks), md5, isJson)
  {
    var budget := Budget(numChunks);
    ghost var goal := ReceiveLoop(map[], inbox0, numChunks, budget, md5, isJson);
    chunks, sent, inbox, exit, rounds := map[], [], inbox0, Next, 0;
    ghost var r := goal;
    ghost var left: nat := budget;
    assert [] + r.sent == r.sent;
    for pass := 0 to budget
      invariant rounds == pass && left == budget - pass
      invariant r == ReceiveLoop(chunks, inbox, numChunks, left, md5, isJson)
      invariant goal == Loop(r.chunks, sent + r.sent, r.rest, r.exit, rounds + r.rounds)
    {
      var s := ReceiveChunk(chunks, inbox, numChunks, md5, isJson);
      if s.exit != Next {
        LoopStops(chunks, inbox, numChunks, left, md5, isJson, s);
        chunks, sent, inbox, exit, rounds := s.chunks, sent + s.sent, s.rest, s.exit, rounds + 1;
        break;
      }
      ghost var l: nat := left - 1;
      ghost var r1 := ReceiveLoop(s.chunks, s.rest, numChunks, l, md5, isJson);
      LoopGoesOn(chunks, inbox, numChunks, left, md5, isJson, s, l, r1);
      assert sent + (s.sent + r1.sent) == (sent + s.sent) + r1.sent;
      chunks, sent, inbox, rounds := s.chunks, sent + s.sent, s.rest, rounds + 1;
      r, left := r1, l;
    }
    assert sent + [] == sent;
  }

  /** `reassembled_data += chunks[i]` for every present i in range(n). */
  method Reassemble(chunks: Received, numChunks: int) returns (data: seq<byte>)
    ensures data == Reassembled(chunks, numChunks)
  {
    data := [];
    var i := 0;
    while i < numChunks
      invariant 0 <= i && (numChunks >= 0 ==> i <= numChunks) && (numChunks < 0 ==> i == 0)
      invariant data == Reassembled(chunks, i)
      decreases numChunks - i
    {
      if i in chunks {
        data := data + chunks[i];
      }
      i := i + 1;
    }
  }

  /** `upload_file`, with the final read skipped when the loop already
      consumed TRANSFER_COMPLETE. */
  method UploadFile(path: string, file: Option<seq<byte>>, inbox0: seq<Down>, sha256: Sha256, md5: Md5,
                    isJson: JsonCheck) returns (run: Run)
    ensures run == Upload(path, file, inbox0, sha256, md5, isJson)
  {
    if file.None? {
      return Run([], NoFile, None);
    }
    var data := file.value;
    var sent := [UpText(IntString(|data|))];
    var got := Read(inbox0);
    if got.None? {
      return Run(sent, Hung, None);
    }
    sent := sent + [UpBytes(data)];
    got := Read(got.value.1);
    if got.None? {
      return Run(sent, Hung, None);
    }
    var serverChecksum := AsText(got.value.0);
    var localChecksum := sha256(data);
    if serverChecksum != Some(localChecksum) {
      return Run(sent, InitialMismatch, None);
    }
    got := Read(got.value.1);
    if got.None? {
      return Run(sent, Hung, None);
    }
    var numChunks := IntOf(got.value.0);
    if numChunks.None? {
      return Run(sent, Crashed, None);
    }
    sent := sent + [UpText(OkAck)];
    var chunks, replies, rest, exit, rounds := ReceiveChunks(got.value.1, numChunks.value, md5, isJson);
    sent := sent + Ups(replies);
    if exit == Blocked {
      return Run(sent, Hung, None);
    }
    var final := if exit == Complete then Some(Text(TransferComplete)) else FirstOf(Read(rest));
    if final.None? {
      return Run(sent, Hung, None);
    }
    if final.value != Text(TransferComplete) {
      return Run(sent + [UpText(ErrorReport)], Reported(ErrorReport), None);
    }
    var whole := Reassemble(chunks, numChunks.value);
    if sha256(whole) == localChecksum {
      var outputPath := PathNames.ReceivedPath(path);
      run := Run(sent + [UpText(Success)], Reported(Success), Some((outputPath, whole)));
    } else {
      run := Run(sent + [UpText(ChecksumMismatch)], Reported(ChecksumMismatch), None);
    }
  }

  /** Every entry of a stays in b with the same bytes. */
  predicate Keeps(a: Received, b: Received)
  {
    forall k | k in a :: k in b && b[k] == a[k]
  }

  /** The (number, payload) pair a message carries when it is a chunk
      object whose base16 decodes to bytes whose MD5 is its tag. */
  function Verified(m: Down, md5: Md5): (v: set<(int, seq<byte>)>)
  {
    match m
    case ChunkJson(info) =>
      (match Hex.Decode(info.data)
       case Some(d) => if md5(d) == info.chunkChecksum then {(info.sequence, d)} else {}
       case None => {})
    case _ => {}
  }

  /** The verified pairs of a run of messages. */
  function VerifiedIn(msgs: seq<Down>, md5: Md5): (v: set<(int, seq<byte>)>)
  {
    if msgs == [] then {} else Verified(msgs[0], md5) + VerifiedIn(msgs[1..], md5)
  }

  /** b extends a, and every entry b adds is a verified pair of msgs. */
  predicate KeptFrom(a: Received, b: Received, msgs: seq<Down>, md5: Md5)
  {
    Keeps(a, b) && forall k | k in b && k !in a :: (k, b[k]) in VerifiedIn(msgs, md5)
  }

  /** rest is what is left of inbox after some reads. */
  predicate SuffixOf(rest: seq<Down>, inbox: seq<Down>)
  {
    |rest| <= |inbox| && rest == inbox[|inbox| - |rest|..]
  }

  /** The JSON position stores at most the chunk object it read, and only
      when that object's tag is the MD5 of its decoded payload. */
  lemma AcceptKeeps(chunks: Received, j: Down, rest: seq<Down>, numChunks: int, md5: Md5, isJson: JsonCheck)
    ensures var s := Accept(chunks, j, rest, numChunks, md5, isJson);
      Keeps(chunks, s.chunks) && |s.chunks| <= |chunks| + 1 && s.rest == rest
      && (s.exit == AllReceived ==> |s.chunks| == numChunks)
      && (s.chunks != chunks ==>
            j.ChunkJson? && j.info.sequence !in chunks
            && Hex.Decode(j.info.data).Some? && md5(Hex.Decode(j.info.data).value) == j.info.chunkChecksum
            && s.chunks == chunks[j.info.sequence := Hex.Decode(j.info.data).value])
  {
  }

  /** A pass either leaves the map alone or is the JSON-position handling
      of the second message it read. */
  lemma StepCases(chunks: Received, inbox: seq<Down>, numChunks: int, md5: Md5, isJson: JsonCheck)
    ensures var s := ChunkStep(chunks, inbox, numChunks, md5, isJson);
      SuffixOf(s.rest, inbox)
      && ((s.chunks == chunks && s.exit != AllReceived)
          || (|inbox| >= 2 && inbox[0] != Closed && s == Accept(chunks, inbox[1], inbox[2..], numChunks, md5, isJson)))
  {
    ReadFacts(inbox);
    match Read(inbox)
    case None =>
      assert ChunkStep(chunks, inbox, numChunks, md5, isJson) == Step(chunks, [], inbox, Blocked);
    case Some((m, rest)) =>
      if m == Text(TransferComplete) || IntOf(m).None? || IntOf(m).value <= 0 {
        ShortStep(chunks, inbox, m, rest, numChunks, md5, isJson);
      } else {
        PairCases(chunks, inbox, m, rest, numChunks, md5, isJson);
      }
  }

  /** A pass whose first message is not a positive length reads nothing
      more and stores nothing. */
  lemma ShortStep(chunks: Received, inbox: seq<Down>, m: Down, rest: seq<Down>, numChunks: int, md5: Md5,
                  isJson: JsonCheck)
    requires Read(inbox) == Some((m, rest))
    requires m == Text(TransferComplete) || IntOf(m).None? || IntOf(m).value <= 0
    ensures var s := ChunkStep(chunks, inbox, numChunks, md5, isJson);
      s.chunks == chunks && s.exit != AllReceived && s.rest == rest
  {
  }

  /** StepCases when the first message is a positive length. */
  lemma PairCases(chunks: Received, inbox: seq<Down>, m: Down, rest: seq<Down>, numChunks: int, md5: Md5,
                  isJson: JsonCheck)
    requires Read(inbox) == Some((m, rest)) && SuffixOf(rest, inbox) && (m != Closed ==> rest == inbox[1..])
    requires m != Text(TransferComplete) && IntOf(m).Some? && IntOf(m).value > 0
    ensures var s := ChunkStep(chunks, inbox, numChunks, md5, isJson);
      SuffixOf(s.rest, inbox)
      && ((s.chunks == chunks && s.exit != AllReceived)
          || (|inbox| >= 2 && inbox[0] != Closed && s == Accept(chunks, inbox[1], inbox[2..], numChunks, md5, isJson)))
  {
    var s := ChunkStep(chunks, inbox, numChunks, md5, isJson);
    assert m != Closed;
    ReadFacts(rest);
    match Read(rest)
    case None =>
      assert s.chunks == chunks && s.exit != AllReceived && s.rest == rest;
    case Some((j, rest2)) =>
      assert s == Accept(chunks, j, rest2, numChunks, md5, isJson) && s.rest == rest2;
      SuffixTrans(rest2, rest, inbox);
      if j == Closed {
        assert s.chunks == chunks && s.exit == Next;
      } else {
        assert j == inbox[1] && rest2 == inbox[2..];
        assert s == Accept(chunks, inbox[1], inbox[2..], numChunks, md5, isJson);
      }
  }

  /** What one `recv` takes from the connection. */
  lemma ReadFacts(inbox: seq<Down>)
    ensures match Read(inbox)
      case None => inbox == []
      case Some((m, rest)) =>
        inbox != [] && m == inbox[0] && SuffixOf(rest, inbox)
        && (m != Closed ==> rest == inbox[1..]) && (m == Closed ==> rest == inbox)
  {
    if inbox != [] {
      assert inbox[|inbox| - |inbox|..] == inbox;
      assert inbox[|inbox| - |inbox[1..]|..] == inbox[1..];
    }
  }

  lemma SuffixTrans(a: seq<Down>, b: seq<Down>, c: seq<Down>)
    requires SuffixOf(a, b) && SuffixOf(b, c)
    ensures SuffixOf(a, c)
  {
    assert c[|c| - |b|..][|b| - |a|..] == c[|c| - |a|..];
  }

  lemma VerifiedSecond(msgs: seq<Down>, md5: Md5)
    requires |msgs| >= 2
    ensures Verified(msgs[1], md5) <= VerifiedIn(msgs, md5)
  {
    assert msgs[1..][0] == msgs[1];
  }

  /** What StepCases leaves of a pass is enough for StepKeeps. */
  lemma StepKeepsFrom(chunks: Received, inbox: seq<Down>, s: Step, numChunks: int, md5: Md5, isJson: JsonCheck)
    requires SuffixOf(s.rest, inbox)
    requires (s.chunks == chunks && s.exit != AllReceived)
             || (|inbox| >= 2 && inbox[0] != Closed && s == Accept(chunks, inbox[1], inbox[2..], numChunks, md5, isJson))
    ensures KeptFrom(chunks, s.chunks, inbox, md5)
    ensures |s.chunks| <= |chunks| + 1 && (s.exit == AllReceived ==> |s.chunks| == numChunks)
  {
    if !(s.chunks == chunks && s.exit != AllReceived) {
      AcceptKeeps(chunks, inbox[1], inbox[2..], numChunks, md5, isJson);
      if s.chunks != chunks {
        VerifiedSecond(inbox, md5);
      }
    }
  }

  /** One pass never drops or rewrites a stored chunk, stores at most one
      new chunk, and stores it only when a message it read vouched for it. */
  lemma StepKeeps(chunks: Received, inbox: seq<Down>, numChunks: int, md5: Md5, isJson: JsonCheck)
    ensures var s := ChunkStep(chunks, inbox, numChunks, md5, isJson);
      SuffixOf(s.rest, inbox) && KeptFrom(chunks, s.chunks, inbox, md5)
      && |s.chunks| <= |chunks| + 1 && (s.exit == AllReceived ==> |s.chunks| == numChunks)
  {
    StepCases(chunks, inbox, numChunks, md5, isJson);
    StepKeepsFrom(chunks, inbox, ChunkStep(chunks, inbox, numChunks, md5, isJson), numChunks, md5, isJson);
  }

  lemma {:induction false} VerifiedSuffix(rest: seq<Down>, inbox: seq<Down>, md5: Md5)
    requires SuffixOf(rest, inbox)
    ensures VerifiedIn(rest, md5) <= VerifiedIn(inbox, md5)
    decreases |inbox|
  {
    if |rest| < |inbox| {
      assert inbox[1..][|inbox| - 1 - |rest|..] == inbox[|inbox| - |rest|..];
      VerifiedSuffix(rest, inbox[1..], md5);
    }
  }

  /** Two passes keep what the first stored and are vouched for by the
      messages of the connection. */
  lemma KeptCompose(a: Received, b: Received, c: Received, inbox: seq<Down>, mid: seq<Down>, last: seq<Down>,
                    md5: Md5)
    requires SuffixOf(mid, inbox) && SuffixOf(last, mid)
    requires KeptFrom(a, b, inbox, md5) && KeptFrom(b, c, mid, md5)
    ensures KeptFrom(a, c, inbox, md5) && SuffixOf(last, inbox)
  {
    VerifiedSuffix(mid, inbox, md5);
  }

  /** The whole loop: the map only grows and keeps its entries, each new
      entry is a verified pair of a message of the connection, and the loop
      only consumes messages. */
  lemma {:induction false} LoopKeeps(chunks: Received, inbox: seq<Down>, numChunks: int, left: nat, md5: Md5,
                                     isJson: JsonCheck)
    ensures var r := ReceiveLoop(chunks, inbox, numChunks, left, md5, isJson);
      SuffixOf(r.rest, inbox) && KeptFrom(chunks, r.chunks, inbox, md5)
    decreases left, 1
  {
    if left > 0 {
      LoopKeepsStep(chunks, inbox, numChunks, left, md5, isJson);
    } else {
      assert inbox[|inbox| - |inbox|..] == inbox;
    }
  }

  /** LoopKeeps for a loop with passes left. */
  lemma {:induction false} LoopKeepsStep(chunks: Received, inbox: seq<Down>, numChunks: int, left: nat, md5: Md5,
                                         isJson: JsonCheck)
    requires left > 0
    ensures var r := ReceiveLoop(chunks, inbox, numChunks, left, md5, isJson);
      SuffixOf(r.rest, inbox) && KeptFrom(chunks, r.chunks, inbox, md5)
    decreases left, 0
  {
    var s := ChunkStep(chunks, inbox, numChunks, md5, isJson);
    StepKeeps(chunks, inbox, numChunks, md5, isJson);
    if s.exit == Next {
      var l: nat := left - 1;
      var r := ReceiveLoop(s.chunks, s.rest, numChunks, l, md5, isJson);
      LoopGoesOn(chunks, inbox, numChunks, left, md5, isJson, s, l, r);
      LoopKeeps(s.chunks, s.rest, numChunks, l, md5, isJson);
      KeptCompose(chunks, s.chunks, r.chunks, inbox, s.rest, r.rest, md5);
    } else {
      LoopStops(chunks, inbox, numChunks, left, md5, isJson, s);
    }
  }

  /** A used-up range means every pass ran, and AllReceived means the map
      has num_chunks entries. */
  lemma {:induction false} LoopRounds(chunks: Received, inbox: seq<Down>, numChunks: int, left: nat, md5: Md5,
                                      isJson: JsonCheck)
    ensures var r := ReceiveLoop(chunks, inbox, numChunks, left, md5, isJson);
      (r.exit == Next ==> r.rounds == left) && (r.exit == AllReceived ==> |r.chunks| == numChunks)
    decreases left
  {
    if left > 0 {
      var s := ChunkStep(chunks, inbox, numChunks, md5, isJson);
      StepKeeps(chunks, inbox, numChunks, md5, isJson);
      if s.exit == Next {
        var l: nat := left - 1;
        var r := ReceiveLoop(s.chunks, s.rest, numChunks, l, md5, isJson);
        LoopGoesOn(chunks, inbox, numChunks, left, md5, isJson, s, l, r);
        LoopRounds(s.chunks, s.rest, numChunks, l, md5, isJson);
      } else {
        LoopStops(chunks, inbox, numChunks, left, md5, isJson, s);
      }
    }
  }

  /** What one pass does with a (length, chunk object) pair: ask again for
      a chunk whose MD5 does not match and keep the map, acknowledge a
      verified duplicate and keep the map, and store a verified new chunk,
      leaving the loop when the map is then full. */
  lemma StepOnChunk(chunks: Received, len: int, info: ChunkInfo, rest: seq<Down>, numChunks: int,
                    md5: Md5, isJson: JsonCheck)
    requires len > 0
    ensures var s := ChunkStep(chunks, [Text(IntString(len)), ChunkJson(info)] + rest, numChunks, md5, isJson);
      s.rest == rest
      && (Hex.Decode(info.data).None? ==> s.chunks == chunks && s.sent == [OkAck, ErrorReport] && s.exit == Failed)
      && (Hex.Decode(info.data).Some? ==>
            var d := Hex.Decode(info.data).value;
            (md5(d) != info.chunkChecksum ==>
               s.chunks == chunks && s.sent == [OkAck, RetransmitRequest(info.sequence)] && s.exit == Next)
            && (md5(d) == info.chunkChecksum && info.sequence in chunks ==>
               s.chunks == chunks && s.sent == [OkAck, OkAck]
               && s.exit == (if |chunks| == numChunks then AllReceived else Next))
            && (md5(d) == info.chunkChecksum && info.sequence !in chunks ==>
               s.chunks == chunks[info.sequence := d] && s.sent == [OkAck, OkAck]
               && s.exit == (if |chunks| + 1 == numChunks then AllReceived else Next)))
  {
    var inbox := [Text(IntString(len)), ChunkJson(info)] + rest;
    LengthNotKeyword(len);
    ParseIntString(len);
    assert inbox[1..] == [ChunkJson(info)] + rest;
    assert ([ChunkJson(info)] + rest)[1..] == rest;
  }

  /** A positive length message is not TRANSFER_COMPLETE. */
  lemma LengthNotKeyword(len: int)
    requires len > 0
    ensures IntString(len) != TransferComplete
  {
    assert IntString(len) == NatString(len);
    assert IsDigit(IntString(len)[0]);
    assert TransferComplete[0] == 'T';
  }

  /** Reassembling a map that holds piece i at every i < |pieces| gives the
      pieces in order. */
  lemma {:induction false} ReassembledComplete(chunks: Received, pieces: seq<seq<byte>>)
    requires forall i | 0 <= i < |pieces| :: i in chunks && chunks[i] == pieces[i]
    ensures Reassembled(chunks, |pieces|) == Flatten(pieces)
  {
    if pieces != [] {
      var n := |pieces|;
      ReassembledComplete(chunks, pieces[..n - 1]);
      FlattenSnoc(pieces[..n - 1], pieces[n - 1]);
      assert pieces[..n - 1] + [pieces[n - 1]] == pieces;
    }
  }

  /** The verdict and the saved file: a file is written exactly when SUCCESS
      is reported, under the `_received` name, with the SHA-256 of the file
      that was sent; every report is one of SUCCESS, CHECKSUM_MISMATCH and
      ERROR and is the last message sent; an initial mismatch sends nothing
      after the file. */
  lemma UploadVerdict(path: string, file: Option<seq<byte>>, inbox: seq<Down>, sha256: Sha256, md5: Md5,
                      isJson: JsonCheck)
    ensures var run := Upload(path, file, inbox, sha256, md5, isJson);
      (run.saved.Some? <==> run.verdict == Reported(Success))
      && (run.saved.Some? ==> file.Some? && run.saved.value.0 == PathNames.ReceivedPath(path)
                              && sha256(run.saved.value.1) == sha256(file.value))
      && (run.verdict.Reported? ==> run.verdict.report in {Success, ChecksumMismatch, ErrorReport}
                                    && |run.sent| > 0 && run.sent[|run.sent| - 1] == UpText(run.verdict.report))
      && (run.verdict == InitialMismatch ==> run.sent == [UpText(IntString(|file.value|)), UpBytes(file.value)])
      && (file.None? <==> run.verdict == NoFile)
  {
  }

  /** The corrected client differs from the code as written only when the
      loop ended on TRANSFER_COMPLETE. */
  lemma CorrectionOnlyAfterComplete(path: string, file: Option<seq<byte>>, inbox: seq<Down>, sha256: Sha256,
                                    md5: Md5, isJson: JsonCheck)
    requires file.Some? && Prelude(file.value, inbox, sha256, md5, isJson).Looped?
             ==> Prelude(file.value, inbox, sha256, md5, isJson).loop.exit != Complete
    ensures Upload(path, file, inbox, sha256, md5, isJson) == UploadAsWritten(path, file, inbox, sha256, md5, isJson)
  {
  }
}

/** `upload_file` of the framed-JSON client: send the file, read the
    metadata, collect chunk messages into the dict until the end message,
    check the count, write the chunks out in key order and compare digests,
    retrying the whole transfer while the retry budget lasts. The socket is
    replaced by the queue of server messages still to be read and the list
    of requests sent. */
module FramedClient {
  import opened Results
  import opened Bytes
  import opened Digests
  import Hex
  import Latin1
  import opened FramedWire
  import opened FramedReassembly

  /** Why the chunk loop stopped: the connection ended, a payload was not
      valid base16 (`bytes.fromhex` raises), or the end message arrived. */
  datatype Stop = Closed | BadHex | EndSeen

  datatype Collected = Collected(stop: Stop, rest: seq<Response>, chunks: Chunks)

  /** The chunk loop as a function of the unread messages and the dict:
      every decodable chunk message is stored under its sequence number,
      anything that is neither a chunk nor the end is skipped. */
  function Collect(inbox: seq<Response>, chunks: Chunks): (r: Collected)
    ensures |r.rest| <= |inbox|
    ensures r.stop == Closed ==> r.rest == []
    decreases |inbox|
  {
    if inbox == [] then Collected(Closed, [], chunks)
    else match inbox[0]
      case End(_) => Collected(EndSeen, inbox[1..], chunks)
      case ChunkMsg(s, d) =>
        (match Hex.Decode(d)
         case None => Collected(BadHex, inbox[1..], chunks)
         case Some(b) => Collect(inbox[1..], chunks[s := b]))
      case _ => Collect(inbox[1..], chunks)
  }

  /** A chunk message whose payload decodes. */
  predicate Decodable(m: Response)
  {
    m.ChunkMsg? && Hex.Decode(m.data).Some?
  }

  /** The dict after storing a run of decodable chunk messages. */
  function StoreAll(msgs: seq<Response>, chunks: Chunks): (r: Chunks)
    requires forall j | 0 <= j < |msgs| :: Decodable(msgs[j])
    decreases |msgs|
  {
    if msgs == [] then chunks
    else
      assert Decodable(msgs[0]);
      StoreAll(msgs[1..], chunks[msgs[0].sequence := Hex.Decode(msgs[0].data).value])
  }

  /** The position of the last chunk message with sequence number k. */
  function LastWith(msgs: seq<Response>, k: nat): (r: Option<nat>)
    ensures r.Some? ==> r.value < |msgs| && msgs[r.value].ChunkMsg? && msgs[r.value].sequence == k
    ensures r.Some? ==> forall j | r.value < j < |msgs| :: !(msgs[j].ChunkMsg? && msgs[j].sequence == k)
    ensures r.None? ==> forall j | 0 <= j < |msgs| :: !(msgs[j].ChunkMsg? && msgs[j].sequence == k)
    decreases |msgs|
  {
    if msgs == [] then None
    else match LastWith(msgs[1..], k)
      case Some(j) => Some(j + 1)
      case None => if msgs[0].ChunkMsg? && msgs[0].sequence == k then Some(0) else None
  }

  /** A run of decodable chunk messages followed by the end message leaves
      the loop with the dict StoreAll builds and the messages after the end
      unread. */
  lemma {:induction false} CollectRun(msgs: seq<Response>, text: string, rest: seq<Response>, chunks: Chunks)
    requires forall j | 0 <= j < |msgs| :: Decodable(msgs[j])
    ensures Collect(msgs + [End(text)] + rest, chunks) == Collected(EndSeen, rest, StoreAll(msgs, chunks))
    decreases |msgs|
  {
    var inbox := msgs + [End(text)] + rest;
    if msgs == [] {
      assert inbox == [End(text)] + rest;
    } else {
      assert inbox[0] == msgs[0];
      assert inbox[1..] == msgs[1..] + [End(text)] + rest;
      CollectRun(msgs[1..], text, rest, chunks[msgs[0].sequence := Hex.Decode(msgs[0].data).value]);
    }
  }

  /** Last write wins: a key holds the payload of the last chunk message
      that carried it, and a key no message carried keeps its old entry. */
  lemma {:induction false} StoreAllLastWins(msgs: seq<Response>, chunks: Chunks, k: nat)
    requires forall j | 0 <= j < |msgs| :: Decodable(msgs[j])
    ensures var r := StoreAll(msgs, chunks);
      match LastWith(msgs, k)
      case Some(j) => k in r && r[k] == Hex.Decode(msgs[j].data).value
      case None => (k in r <==> k in chunks) && (k in chunks ==> r[k] == chunks[k])
    decreases |msgs|
  {
    if msgs != [] {
      var next := chunks[msgs[0].sequence := Hex.Decode(msgs[0].data).value];
      StoreAllLastWins(msgs[1..], next, k);
      match LastWith(msgs[1..], k)
      case Some(j) =>
        assert msgs[1..][j] == msgs[j + 1];
      case None =>
    }
  }

  /** What one pass of `upload_file` ended in. */
  datatype Outcome = NotFound | Aborted | Incomplete | Mismatch | Verified

  /** One pass: the outcome, the unread messages, the dict, and the
      checksum and chunk count the server declared ("" and 0 before any
      metadata). */
  datatype Attempt = Attempt(outcome: Outcome, rest: seq<Response>, chunks: Chunks, declared: string, total: nat)

  /** One pass after the request is sent: a missing or non-"ready" first
      reply aborts, the dict is reset and filled by the chunk loop, then
      the count is checked and the digest of the written file compared. */
  function RunAttempt(inbox: seq<Response>, chunks: Chunks, sha256: Sha256): (a: Attempt)
    ensures a.outcome != NotFound
    ensures a.outcome == Incomplete ==> |a.chunks| != a.total
    ensures a.outcome == Verified || a.outcome == Mismatch ==> |a.chunks| == a.total
    ensures a.outcome == Verified ==> sha256(Assemble(a.chunks)) == a.declared
    ensures a.outcome == Mismatch ==> sha256(Assemble(a.chunks)) != a.declared
    ensures |a.rest| <= |inbox|
  {
    if inbox == [] then Attempt(Aborted, [], chunks, "", 0)
    else match inbox[0]
      case Ready(checksum, total, _) =>
        var c := Collect(inbox[1..], map[]);
        if c.stop != EndSeen then Attempt(Aborted, c.rest, c.chunks, checksum, total)
        else if |c.chunks| != total then Attempt(Incomplete, c.rest, c.chunks, checksum, total)
        else if sha256(Assemble(c.chunks)) == checksum then Attempt(Verified, c.rest, c.chunks, checksum, total)
        else Attempt(Mismatch, c.rest, c.chunks, checksum, total)
      case _ => Attempt(Aborted, inbox[1..], chunks, "", 0)
  }

  /** A whole `upload_file` call, its retries included. */
  datatype Run = Run(ok: bool, rest: seq<Response>, retries: int, chunks: Chunks,
                     attempts: nat, last: Outcome, declared: string)

  function UploadRun(inbox: seq<Response>, file: Option<seq<byte>>, retries: int, maxRetries: int,
                     chunks: Chunks, sha256: Sha256): (r: Run)
    decreases if retries < maxRetries then maxRetries - retries else 0
  {
    if file.None? then Run(false, inbox, retries, chunks, 0, NotFound, "")
    else
      var a := RunAttempt(inbox, chunks, sha256);
      if a.outcome == Verified then Run(true, a.rest, retries, a.chunks, 1, Verified, a.declared)
      else if a.outcome == Aborted || retries >= maxRetries then
        Run(false, a.rest, retries, a.chunks, 1, a.outcome, a.declared)
      else
        var r := UploadRun(a.rest, file, retries + 1, maxRetries, a.chunks, sha256);
        r.(attempts := r.attempts + 1)
  }

  /** The retry budget: the counter only grows, it grows by one per retry,
      and it never passes max_retries, so a fresh client makes at most
      max_retries + 1 attempts. */
  lemma {:induction false} UploadRunBudget(inbox: seq<Response>, file: Option<seq<byte>>, retries: int,
                                           maxRetries: int, chunks: Chunks, sha256: Sha256)
    ensures var r := UploadRun(inbox, file, retries, maxRetries, chunks, sha256);
      retries <= r.retries
      && (file.Some? ==> r.attempts == 1 + r.retries - retries)
      && (file.None? ==> r.attempts == 0)
      && (r.retries == retries || r.retries <= maxRetries)
    decreases if retries < maxRetries then maxRetries - retries else 0
  {
    if file.Some? {
      var a := RunAttempt(inbox, chunks, sha256);
      if a.outcome != Verified && a.outcome != Aborted && retries < maxRetries {
        UploadRunBudget(a.rest, file, retries + 1, maxRetries, a.chunks, sha256);
      }
    }
  }

  /** The verdict: True exactly when the last pass found the count right
      and the digest of the written file equal to the declared checksum;
      a count or digest failure ends in False only once the budget is
      spent. */
  lemma {:induction false} UploadRunVerdict(inbox: seq<Response>, file: Option<seq<byte>>, retries: int,
                                            maxRetries: int, chunks: Chunks, sha256: Sha256)
    ensures var r := UploadRun(inbox, file, retries, maxRetries, chunks, sha256);
      (r.ok <==> r.last == Verified)
      && (r.ok <==> file.Some? && sha256(Assemble(r.chunks)) == r.declared
                    && (r.last == Verified || r.last == Mismatch))
      && (r.last == Incomplete || r.last == Mismatch ==> r.retries >= maxRetries)
    decreases if retries < maxRetries then maxRetries - retries else 0
  {
    if file.Some? {
      var a := RunAttempt(inbox, chunks, sha256);
      if a.outcome != Verified && a.outcome != Aborted && retries < maxRetries {
        UploadRunVerdict(a.rest, file, retries + 1, maxRetries, a.chunks, sha256);
      }
    }
  }

  /** n copies of one request. */
  function Repeat(req: Request, n: nat): (rs: seq<Request>)
    ensures |rs| == n && forall i | 0 <= i < n :: rs[i] == req
  {
    if n == 0 then [] else [req] + Repeat(req, n - 1)
  }

  /** A failed attempt with retries left: the run is the retry's run and one attempt more. */
  lemma UploadRunRetries(inbox: seq<Response>, file: Option<seq<byte>>, retries: int, maxRetries: int,
                         chunks: Chunks, sha256: Sha256)
    requires file.Some? && retries < maxRetries
    requires RunAttempt(inbox, chunks, sha256).outcome != Verified
    requires RunAttempt(inbox, chunks, sha256).outcome != Aborted
    ensures var a := RunAttempt(inbox, chunks, sha256);
      var r := UploadRun(a.rest, file, retries + 1, maxRetries, a.chunks, sha256);
      var run := UploadRun(inbox, file, retries, maxRetries, chunks, sha256);
      run.ok == r.ok && run.rest == r.rest && run.retries == r.retries && run.chunks == r.chunks
      && run.attempts == r.attempts + 1
  {
  }

  lemma RepeatAfter(sent: seq<Request>, req: Request, n: nat)
    ensures sent + [req] + Repeat(req, n) == sent + Repeat(req, n + 1)
  {
    assert Repeat(req, n + 1) == [req] + Repeat(req, n);
    AppendAssoc3(sent, [req], Repeat(req, n));
  }

  class FileTransferClient {
    const maxRetries: int
    var receivedChunks: Chunks
    var retryCount: int
    /** Messages the server has sent that the client has not read yet. */
    var inbox: seq<Response>
    /** Requests the client has sent, oldest first. */
    var outbox: seq<Request>

    constructor (maxRetries: int, inbox: seq<Response>)
      ensures this.maxRetries == maxRetries && this.inbox == inbox
      ensures receivedChunks == map[] && retryCount == 0 && outbox == []
    {
      this.maxRetries := maxRetries;
      this.inbox := inbox;
      receivedChunks := map[];
      retryCount := 0;
      outbox := [];
    }

    method SendRequest(req: Request)
      modifies this
      ensures outbox == old(outbox) + [req]
      ensures inbox == old(inbox) && receivedChunks == old(receivedChunks) && retryCount == old(retryCount)
    {
      outbox := outbox + [req];
    }

    /** `receive_response`: None where Python raises ConnectionError. */
    method ReceiveResponse() returns (r: Option<Response>)
      modifies this
      ensures old(inbox) == [] ==> r.None? && inbox == []
      ensures old(inbox) != [] ==> r == Some(old(inbox)[0]) && inbox == old(inbox)[1..]
      ensures outbox == old(outbox) && receivedChunks == old(receivedChunks) && retryCount == old(retryCount)
    {
      if inbox == [] {
        return None;
      }
      r := Some(inbox[0]);
      inbox := inbox[1..];
    }

    /** The `while True` chunk loop. */
    method CollectChunks() returns (stop: Stop)
      modifies this
      ensures var c := Collect(old(inbox), old(receivedChunks));
        stop == c.stop && inbox == c.rest && receivedChunks == c.chunks
      ensures outbox == old(outbox) && retryCount == old(retryCount)
    {
      ghost var goal := Collect(inbox, receivedChunks);
      while true
        invariant Collect(inbox, receivedChunks) == goal
        invariant outbox == old(outbox) && retryCount == old(retryCount)
        decreases |inbox|
      {
        var response := ReceiveResponse();
        if response.None? {
          return Closed;
        }
        match response.value
        case End(_) =>
          return EndSeen;
        case ChunkMsg(s, d) =>
          var data := Hex.Decode(d);
          if data.None? {
            return BadHex;
          }
          receivedChunks := receivedChunks[s := data.value];
        case _ =>
      }
    }

    /** `save_file`: the bytes written to the output file. */
    method SaveFile() returns (written: seq<byte>)
      ensures written == Assemble(receivedChunks)
    {
      written := WriteInKeyOrder(receivedChunks);
    }

    /** `calculate_checksum_from_chunks`: the digest of the payloads fed in
        ascending key order. */
    method CalculateChecksumFromChunks(chunks: Chunks, sha256: Sha256) returns (digest: Sha256Hex)
      ensures digest == sha256(Assemble(chunks))
    {
      var fed := WriteInKeyOrder(chunks);
      digest := sha256(fed);
    }

    /** `calculate_checksum_from_memory`: the same digest over the dict;
        it is the digest of what `save_file` writes. */
    method CalculateChecksumFromMemory(sha256: Sha256) returns (digest: Sha256Hex)
      ensures digest == sha256(Assemble(receivedChunks))
    {
      var fed := WriteInKeyOrder(receivedChunks);
      digest := sha256(fed);
    }

    /** One pass of `upload_file` after its request went out. */
    method Attempt(sha256: Sha256) returns (outcome: Outcome, ghost declared: string, ghost total: nat)
      modifies this
      ensures var a := RunAttempt(old(inbox), old(receivedChunks), sha256);
        outcome == a.outcome && inbox == a.rest && receivedChunks == a.chunks
        && declared == a.declared && total == a.total
      ensures outbox == old(outbox) && retryCount == old(retryCount)
    {
      var response := ReceiveResponse();
      if response.None? {
        return Aborted, "", 0;
      }
      if !response.value.Ready? {
        return Aborted, "", 0;
      }
      var serverChecksum := response.value.checksum;
      var totalChunks := response.value.totalChunks;
      declared, total := serverChecksum, totalChunks;
      receivedChunks := map[];
      var stop := CollectChunks();
      if stop != EndSeen {
        return Aborted, declared, total;
      }
      if |receivedChunks| != totalChunks {
        var missing := Missing(totalChunks, receivedChunks.Keys);
        return Incomplete, declared, total;
      }
      var written := SaveFile();
      var reassembledChecksum := sha256(written);
      if reassembledChecksum == serverChecksum {
        return Verified, declared, total;
      }
      return Mismatch, declared, total;
    }

    /** `upload_file(path)`; file is the content found at path, None when
        the path does not exist. */
    method UploadFile(path: string, file: Option<seq<byte>>, sha256: Sha256) returns (ok: bool)
      modifies this
      ensures var r := UploadRun(old(inbox), file, old(retryCount), maxRetries, old(receivedChunks), sha256);
        ok == r.ok && inbox == r.rest && retryCount == r.retries && receivedChunks == r.chunks
        && outbox == old(outbox) + (if file.Some? then Repeat(UploadRequest(path, Latin1.Decode(file.value)), r.attempts) else [])
      decreases if retryCount < maxRetries then maxRetries - retryCount else 0
    {
      if file.None? {
        return false;
      }
      var request := UploadRequest(path, Latin1.Decode(file.value));
      SendRequest(request);
      ghost var start, chunks0, retries0 := inbox, receivedChunks, retryCount;
      var outcome, declared, total := Attempt(sha256);
      RepeatAfter(old(outbox), request, 0);
      if outcome == Verified {
        return true;
      }
      if outcome == Aborted {
        return false;
      }
      if retryCount < maxRetries {
        UploadRunRetries(start, file, retries0, maxRetries, chunks0, sha256);
        ghost var a := RunAttempt(start, chunks0, sha256);
        ghost var next := UploadRun(a.rest, file, retries0 + 1, maxRetries, a.chunks, sha256);
        retryCount := retryCount + 1;
        ok := UploadFile(path, file, sha256);
        RepeatAfter(old(outbox), request, next.attempts);
        return ok;
      }
      return false;
    }
  }
}

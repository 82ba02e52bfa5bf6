/** The framed variant end to end: what the client makes of everything the
    server sends for its own upload request. */
module FramedTransfer {
  import opened Results
  import opened Bytes
  import opened Digests
  import opened Chunking
  import Hex
  import Latin1
  import opened Splitter
  import opened Faults
  import opened FramedWire
  import opened FramedServer
  import opened FramedReassembly
  import opened FramedClient

  /** The chunk messages of a fault-free transfer, in shuffled order. */
  function CleanMessages(chunks: seq<Chunk>): (msgs: seq<Response>)
    ensures |msgs| == |chunks|
  {
    MapSeq((c: Chunk) => ChunkMsg(c.sequence, Hex.Encode(c.data)), chunks)
  }

  lemma CleanDecodable(chunks: seq<Chunk>, j: nat)
    requires j < |chunks|
    ensures var m := CleanMessages(chunks)[j];
      Decodable(m) && m.sequence == chunks[j].sequence && Hex.Decode(m.data).value == chunks[j].data
  {
    Hex.DecodeEncode(chunks[j].data);
  }

  /** Whatever the shuffle, storing the fault-free chunk messages of a list
      numbered 0 .. n-1 fills the dict with exactly the keys 0 .. n-1, key i
      holding chunk i's payload. */
  lemma StoreShuffled(split: seq<Chunk>, draw: nat -> nat, k: nat)
    requires forall i | 0 <= i < |split| :: split[i].sequence == i
    ensures var msgs := CleanMessages(Shuffled(split, draw));
      (forall j | 0 <= j < |msgs| :: Decodable(msgs[j]))
      && var stored := StoreAll(msgs, map[]);
      (k in stored <==> k < |split|)
      && (k < |split| ==> stored[k] == split[k].data)
  {
    var shuffled := Shuffled(split, draw);
    var msgs := CleanMessages(shuffled);
    ShuffledPermutes(split, draw);
    forall j | 0 <= j < |msgs| ensures Decodable(msgs[j]) {
      CleanDecodable(shuffled, j);
    }
    StoreAllLastWins(msgs, map[], k);
    match LastWith(msgs, k)
    case Some(j) =>
      CleanDecodable(shuffled, j);
      assert shuffled[j] in multiset(split);
      var i :| 0 <= i < |split| && split[i] == shuffled[j];
    case None =>
      if k < |split| {
        assert split[k] in multiset(shuffled);
        var j :| 0 <= j < |shuffled| && shuffled[j] == split[k];
        CleanDecodable(shuffled, j);
        assert false;
      }
  }

  /** The dict built from the fault-free chunk messages reassembles to the
      split file. */
  lemma AssembleShuffledSplit(data: seq<byte>, size: int, draw: nat -> nat)
    requires size != 0
    ensures var split := Split(data, size);
      var msgs := CleanMessages(Shuffled(split, draw));
      (forall j | 0 <= j < |msgs| :: Decodable(msgs[j]))
      && |StoreAll(msgs, map[])| == |split|
      && Assemble(StoreAll(msgs, map[])) == data
  {
    var split := Split(data, size);
    var n := |split|;
    var msgs := CleanMessages(Shuffled(split, draw));
    SplitNumbered(data, size);
    StoreShuffled(split, draw, 0);
    var stored := StoreAll(msgs, map[]);
    forall k: nat ensures (k in stored <==> k < n) && (k < n ==> stored[k] == split[k].data) {
      StoreShuffled(split, draw, k);
    }
    assert stored.Keys == UpTo(n);
    AssembleComplete(stored, Payloads(split));
    SplitFlatten(data, size);
  }

  /** Without simulated errors the first attempt succeeds, for every
      shuffle: the count matches, the dict reassembles to the uploaded file,
      and the digest equals the one the server declared. */
  lemma FaultFreeTransfer(path: string, file: seq<byte>, chunkSize: int, draw: nat -> nat,
                          decide: nat -> Fault, errorText: string, sha256: Sha256,
                          rest: seq<Response>, retries: int, maxRetries: int, chunks: Chunks)
    requires path != "" && file != [] && chunkSize != 0
    ensures var req := UploadRequest(path, Latin1.Decode(file));
      var inbox := UploadReplies(req, Config(chunkSize, false), sha256, draw, decide, errorText) + rest;
      var r := UploadRun(inbox, Some(file), retries, maxRetries, chunks, sha256);
      r.ok && r.attempts == 1 && r.retries == retries && r.rest == rest && Assemble(r.chunks) == file
  {
    var req := UploadRequest(path, Latin1.Decode(file));
    var config := Config(chunkSize, false);
    Latin1.EncodeDecode(file);
    assert FieldOr(req.fileData) == Latin1.Decode(file);
    var split := Split(file, chunkSize);
    var msgs := CleanMessages(Shuffled(split, draw));
    UploadFaultFree(req, config, sha256, draw, decide, errorText);
    var inbox := UploadReplies(req, config, sha256, draw, decide, errorText) + rest;
    assert inbox == [Ready(sha256(file), |split|, path)] + (msgs + [End(TransmissionComplete)] + rest);
    AssembleShuffledSplit(file, chunkSize, draw);
    CollectRun(msgs, TransmissionComplete, rest, map[]);
    var stored := StoreAll(msgs, map[]);
    assert Collect(inbox[1..], map[]) == Collected(EndSeen, rest, stored);
    assert RunAttempt(inbox, chunks, sha256) == Attempt(Verified, rest, stored, sha256(file), |split|);
  }
}

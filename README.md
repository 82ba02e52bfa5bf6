# Chunked file transfer, modelled and verified in Dafny

This project models the core of a small Python repository that sends a file
to a server and gets it back in chunks. The repository has two variants of
the protocol.

- **Framed-JSON variant** (`server.py`, `client.py`). Every message is a JSON
  object preceded by its length as 4 big-endian bytes.
  - The client uploads the file as a Latin-1 string.
  - The server answers with a metadata message: the SHA-256 and the chunk
    count. It then sends the chunks in shuffled order, each payload in
    lowercase base16 (section 8 of RFC 4648). It may drop a chunk or flip up
    to 10 of its bytes. An end message closes the transfer.
  - The client collects the chunks into a dict keyed by sequence number. It
    checks the count, writes the payloads in ascending key order and
    compares digests. On failure it retries the whole transfer while its
    retry budget lasts.
  - `first_task/server.py` and `first_task/client.py` are byte-identical
    copies of these two files. They are modelled once. Every citation of
    `server.py:N` or `client.py:N` applies to the same line of the copy, and
    the model's rows cite the top-level files only.
- **Multi-Client-Mayhem variant** (`The-Multi-Client-Mayhem/server.py`,
  `The-Multi-Client-Mayhem/client.py`).
  - The client sends the size as decimal text, then the raw bytes.
  - The server echoes the SHA-256 and the count of 1024-byte chunks.
  - Each chunk travels as a length message followed by a JSON object. The
    object carries the chunk's number, its base16 and its MD5. The server
    may drop a chunk, or replace its MD5 with `"corrupted_checksum"`.
  - The client keeps the first copy of every chunk whose MD5 verifies. It
    asks for the others again with `RETRANSMIT:<k>`, and the server resends
    those untouched.
  - After at most `2 * num_chunks` exchanges, the client reassembles the
    chunks in ascending order and reports `SUCCESS`, `CHECKSUM_MISMATCH` or
    `ERROR`.

The model keeps the source's imperative form.

- The splitting loops, the receive loops, the in-place shuffle and the
  in-place corruption are methods with loop invariants. Each is proved
  equal to a specification function.
- The framed client is a class whose fields are the ones `upload_file`
  mutates: `received_chunks`, `retry_count`, the unread messages and the
  requests it has sent.
- Lemmas about the specification functions state the properties. These
  include the round trips (split, shuffle and reassemble; base16; Latin-1;
  framing; decimal text; `RETRANSMIT:<k>`), the receiver's invariants, the
  retry budget and the verdicts.
- End-to-end lemmas compose both ends of each variant.

The following are parameters of the model:

- **Digests.** Functions from bytes to a 64-character (SHA-256) or
  32-character (MD5) string.
- **Randomness.** The Fisher-Yates draws, the per-chunk fault decisions, and
  the corruption positions and masks.
- **Mayhem inputs.** The client tag, the byte length of a JSON text, and
  whether a text message parses as JSON.
- **Exception text.** The text of a Python exception.

The two byte streams differ in how far down they go.

- **Framed variant.** The byte stream is modelled as a socket whose `recv`
  may return any non-empty prefix of what is pending. No claim depends on
  how the network splits the stream.
- **Mayhem variant.** Each `recv` returns exactly one message of the peer,
  and a read from an exhausted connection blocks forever.

The framed server rejects an empty `file_data` with an error reply
(`server.py:187-192`), so an empty upload never reaches `split_file`.
`Splitter.SplitBoundary` proves that `split_file` itself makes no chunk from
empty input.

## Model

| member | source | states |
|---|---|---|
| Bytes.XorNonZeroChanges | server.py:234 | XOR with a mask from `randint(1, 255)` always changes the byte, so a position flipped once never keeps its value |
| Chunking.NumChunksBounds | The-Multi-Client-Mayhem/server.py:69-71 | the chunk count n is ceil(len/size): zero exactly for empty input, n*size covers the input and (n-1)*size does not |
| Chunking.NumChunksUnique | The-Multi-Client-Mayhem/server.py:69-71 | the count is the only n with those bounds |
| Chunking.Pieces | The-Multi-Client-Mayhem/server.py:69-71 | cutting the data into size-byte slices gives ceil(len/size) pieces |
| Chunking.PieceShape | The-Multi-Client-Mayhem/server.py:69-71 | every piece has 1..size bytes, and every piece but the last has exactly size bytes |
| Chunking.PiecesShift | The-Multi-Client-Mayhem/server.py:70-71 | removing the first size bytes removes the first piece and renumbers the rest |
| Chunking.PiecesFlatten | The-Multi-Client-Mayhem/server.py:69-71 | the pieces concatenated in order give back the data |
| Chunking.PiecesBoundary | The-Multi-Client-Mayhem/server.py:69-71 | empty data has no pieces; data of exactly one size is one piece |
| Decimal.NatString | The-Multi-Client-Mayhem/client.py:41 | `str(n)` of a non-negative number is a non-empty run of digits |
| Decimal.IntString | The-Multi-Client-Mayhem/server.py:74 | `str(n)` is never empty |
| Decimal.ParseInt | The-Multi-Client-Mayhem/server.py:36 | `int(s)` accepts only a non-empty string; it fails (None) where Python raises ValueError |
| Decimal.NatStringValue | The-Multi-Client-Mayhem/client.py:41 | the digits of `str(n)` have the value n |
| Decimal.ParseIntString | The-Multi-Client-Mayhem/server.py:36 | `int(str(n)) == n` for every integer: the size the client sends and the count the server sends are read back exactly |
| Decimal.ParseIntRejects | The-Multi-Client-Mayhem/client.py:78 | a character that is neither a digit nor a leading sign makes `int` fail |
| Hex.Encode | server.py:244 | `.hex()` writes two digits per byte |
| Hex.DigitValue | client.py:203 | a hexadecimal digit of either case has a value below 16 |
| Hex.Unspaced | client.py:203 | the characters `bytes.fromhex` reads as digits: every ASCII whitespace character is removed, and no more characters remain than were given |
| Hex.Decode | client.py:203 | `bytes.fromhex` skips ASCII whitespace before each digit pair and returns half as many bytes as there are non-whitespace characters, or fails |
| Hex.DecodeSkipsSpaces | client.py:203 | `bytes.fromhex("41 42\n")` is `b'AB'`, the same as `bytes.fromhex("4142")` |
| Hex.DecodeRejects | client.py:203 | whitespace inside a digit pair, a non-digit, or an odd digit count makes `bytes.fromhex` fail |
| Hex.DecodeOnlyDigits | client.py:203 | any character that is neither whitespace nor a hexadecimal digit makes `bytes.fromhex` fail, wherever it stands |
| Hex.DecodeEncode | client.py:203 | `bytes.fromhex(c.hex()) == c` for every payload |
| Hex.EncodeDecode | server.py:244 | a lowercase even-length digit string decodes, and re-encoding it gives the same string |
| Hex.EncodeIsLowerHex | server.py:244 | `.hex()` emits only the lowercase alphabet of section 8 of RFC 4648 |
| Latin1.Decode | client.py:169 | `decode('latin1')` maps every byte to the character with that code point |
| Latin1.Encode | server.py:197 | `encode('latin1')` succeeds exactly when every character is below U+0100, giving the code points as bytes |
| Latin1.EncodeDecode | server.py:197 | the server recovers exactly the bytes the client decoded (client.py:169) |
| Latin1.DecodeEncode | server.py:197 | a string the server can encode is the decoding of the bytes it yields |
| Faults.Shuffle | server.py:218 | the in-place Fisher-Yates shuffle of the array leaves it equal to `Shuffled` of its old contents |
| Faults.ShuffledPermutes | server.py:218 | a shuffle keeps the length and the multiset of elements |
| Faults.ShuffledMap | server.py:218 | a shuffle moves elements by position only, so it commutes with taking an elementwise image |
| Faults.ApplyFlips | server.py:232-234 | corruption steps keep the chunk length |
| Faults.FlipCount | server.py:232 | the corruption loop runs min(10, len) times: at most 10, at most len, and at least once for a non-empty chunk |
| Faults.CorruptInPlace | server.py:230-235 | mutating the bytearray in place gives exactly `Corrupted` of the old bytes |
| Faults.Touched | server.py:233 | every position drawn by `randint(0, len - 1)` lies inside the chunk |
| Faults.TouchedSize | server.py:232-233 | k corruption steps touch at most k distinct positions |
| Faults.ApplyFlipsUntouched | server.py:232-234 | a position the steps never drew keeps its byte |
| Faults.CorruptedFrame | server.py:230-235 | corruption keeps the length, touches at most min(10, len) positions, and leaves every other byte unchanged |
| Faults.ApplyFlipsHitOnce | server.py:233-234 | a position drawn exactly once is always changed |
| Splitter.BlockLength | server.py:97 | the effective block length is positive, and a negative `chunk_size` reads the whole rest of the file |
| Splitter.ReadBlockIsPiece | server.py:97 | the block `f.read(chunk_size)` returns at chunk n's offset is piece n of the file |
| Splitter.SplitFile | server.py:82-103 | the read-and-append loop returns exactly `Split`, the closed-form chunk list |
| Splitter.SplitStep | server.py:96-101 | one pass reads a non-empty block, appends chunk n, and moves the position to the next chunk's offset or to the end |
| Splitter.SplitShape | server.py:96-100 | there are ceil(len/size) chunks; chunk i has number i; every chunk is non-empty; all but the last have exactly `chunk_size` bytes |
| Splitter.SplitNumbered | server.py:92-101 | sequence numbers are 0, 1, ..., n-1 in list order, for every `chunk_size` |
| Splitter.SplitFlatten | server.py:95-103 | the payloads concatenated in list order give back the file, for every `chunk_size` but 0 |
| Splitter.SplitBoundary | server.py:96-99 | an empty file gives no chunks; a file of exactly one chunk size gives one chunk |
| PathNames.RFind | The-Multi-Client-Mayhem/client.py:141 | the index of the last occurrence, or -1 when there is none |
| PathNames.SplitExtParts | The-Multi-Client-Mayhem/client.py:141 | `splitext` cuts the path into two parts that concatenate back to it; the extension is empty or one dot followed by neither a dot nor '/' |
| PathNames.ReceivedPathInsertsSuffix | The-Multi-Client-Mayhem/client.py:141-142 | the output path is the input path with `_received` inserted where its extension starts |
| PathNames.ReceivedPathPlain | The-Multi-Client-Mayhem/client.py:141-142 | "x.bin" becomes "x_received.bin" |
| PathNames.ReceivedPathLastExtension | The-Multi-Client-Mayhem/client.py:141-142 | only the last extension is split off: "data/archive.tar.gz" becomes "data/archive.tar_received.gz" |
| PathNames.ReceivedPathDotfile | The-Multi-Client-Mayhem/client.py:141-142 | a leading dot does not start an extension: ".bashrc" becomes ".bashrc_received" |
| PathNames.ReceivedPathDottedDirectory | The-Multi-Client-Mayhem/client.py:141-142 | a dot in a directory name does not start an extension |
| Net.Socket.Recv | client.py:91 | `recv(bufsize)` takes a prefix of at most bufsize pending bytes, non-empty while bytes are pending, and leaves the rest pending |
| Net.Socket.SendAll | client.py:71-72 | `sendall` appends the bytes to what was sent and reads nothing |
| Framing.LengthPrefix | client.py:71 | `to_bytes(4, 'big')` gives 4 bytes |
| Framing.PrefixValue | client.py:85 | `from_bytes` of the 4-byte prefix gives back the length |
| Framing.SendFrame | client.py:70-72 | for `send_request`, and `send_response` at server.py:113-115 alike: the frame goes out exactly when the length is below 2^32: the 4-byte big-endian length, then the payload; otherwise OverflowError and nothing is sent |
| Framing.ReadExactly | server.py:130-138 | the body loop succeeds exactly when n bytes are available, returns exactly those n bytes and reads nothing beyond them; otherwise ConnectionError, with the stream used up |
| Framing.ReceiveFrame | client.py:81-98 | a reader that loops for the prefix too returns the payload `DecodeFrame` gives, whatever the split of the stream, and raises ConnectionError exactly when the stream ends inside a frame |
| Framing.ReceiveResponseAsWritten | client.py:81-98 | `receive_response` as written takes its prefix from one `recv(4)` of 1 to 4 bytes; an empty read raises; the body is what that prefix declares |
| Framing.ReceiveRequestAsWritten | server.py:127-141 | `receive_request` as written does the same, but b'' decodes as length 0 and yields an empty body |
| Framing.FrameRoundTrip | client.py:70-98 | decoding a sent frame gives back the payload and the rest of the stream |
| Framing.TruncatedFrameFails | client.py:90-93 | a stream that ends inside a frame, prefix included, gives ConnectionError |
| Framing.FullHeaderReadAgrees | client.py:81-85 | when the first `recv(4)` returns all four bytes, the readers as written agree with the correct decoding |
| Framing.ReadAfterHeader | client.py:85-98 | once the first k bytes have been read as the prefix, the body is the next n bytes, n being `from_bytes` of the prefix: Ok exactly when that many bytes follow, the prefix, body and rest making up the stream, and ConnectionError otherwise (the same at server.py:128-141) |
| Framing.ShortHeaderReadMisframes | client.py:81-85 | when the first `recv(4)` returns 2 bytes of the frame for [65], the reader as written reads length 0 and misframes the rest |
| FramedReassembly.SortedKeysSpec | client.py:261 | `sorted(keys)` lists every key exactly once, in strictly ascending order |
| FramedReassembly.WriteInKeyOrder | client.py:261-265 | the loop over the sorted keys writes exactly `Assemble` of the dict |
| FramedReassembly.KeysPresent | client.py:264-265 | part i written is the payload stored under the i-th smallest key |
| FramedReassembly.Missing | client.py:210 | the missing list holds exactly the numbers below `total_chunks` that are not keys |
| FramedReassembly.MissingIncreasing | client.py:210 | the missing list is in ascending order |
| FramedReassembly.CountCheck | client.py:208-211 | when every key is below the total, the count matches exactly when the keys are 0..total-1, and exactly when nothing is missing |
| FramedReassembly.CountCheckNeedsRange | client.py:208 | without that range condition the count can match while a chunk is missing: keys {0, 5} against a total of 2 |
| FramedReassembly.SortedUpTo | client.py:261 | the sorted keys of a complete transfer are 0, 1, ..., n-1 |
| FramedReassembly.AssembleComplete | client.py:253-265 | a dict with keys 0..n-1 holding piece i under key i writes the pieces concatenated in order |
| FramedServer.Payload | server.py:228-235 | the payload sent keeps the chunk's length, and it is the chunk itself unless errors are simulated and the chunk is corrupted |
| FramedServer.Transmit | server.py:220-246 | the chunk loop sends at most one message per chunk |
| FramedServer.ShuffleChunks | server.py:218 | `random.shuffle(chunks)` gives `Shuffled` of the list |
| FramedServer.PerturbPayload | server.py:228-235 | the copy-and-flip code gives exactly `Payload` |
| FramedServer.SendChunks | server.py:220-246 | the loop sends exactly `Transmit` of the shuffled list |
| FramedServer.HandleUpload | server.py:175-263 | the handler sends exactly `UploadReplies`, including the error replies and the exception path |
| FramedServer.TransmitFaithful | server.py:220-246 | every message of the loop is the chunk message of some chunk that was not dropped: its own sequence number and the base16 of its payload after the injector |
| FramedServer.TransmitSequences | server.py:220-246 | the sequence numbers sent are a sub-multiset of those of the list |
| FramedServer.TransmitFaultFree | server.py:220-246 | without simulated errors every chunk goes out once, intact, in list order |
| FramedServer.UploadOutcome | server.py:183-263 | an empty or absent path or data gets exactly the one "Missing file path or file data" error; otherwise the first reply is "ready" exactly when the data is Latin-1 encodable, and any other outcome is one error reply |
| FramedServer.BodySequences | server.py:218-246 | after shuffling and fault injection no chunk number is sent more often than the split holds it |
| FramedServer.TransmitInRange | server.py:218-246 | a shuffle of chunks numbered below their count sends only chunk messages numbered below that count |
| FramedServer.UploadAccepted | server.py:206-252 | an accepted upload sends the metadata first, with the digest of the recovered bytes and the split's chunk count (ceil(len/size)), and the end message last; everything in between is a chunk message shown to be in range, and each number is sent at most once |
| FramedServer.UploadFaultFree | server.py:210-252 | without simulated errors the replies are the metadata, every chunk intact in shuffled order, and the end message |
| FramedTransfer.CleanDecodable | server.py:241-246 | a fault-free chunk message decodes to its chunk's payload under its chunk's number |
| FramedTransfer.StoreShuffled | client.py:194-205 | whatever the shuffle, storing the fault-free chunk messages fills the dict with exactly the keys 0..n-1, key i holding payload i |
| FramedTransfer.AssembleShuffledSplit | client.py:253-265 | the dict built from a shuffled fault-free transfer has as many entries as the split and writes back exactly the file |
| FramedTransfer.FaultFreeTransfer | client.py:142-244 | without simulated errors the first attempt succeeds for every shuffle: one attempt, no retry, and the reassembled bytes are the uploaded file |
| FramedClient.Collect | client.py:194-205 | the chunk loop only consumes messages, and a closed connection leaves none |
| FramedClient.CollectRun | client.py:194-205 | decodable chunk messages followed by the end message leave the loop at the end message, with the dict `StoreAll` builds |
| FramedClient.StoreAllLastWins | client.py:204 | a key holds the payload of the last chunk message that carried it; a key no message carried keeps its old entry |
| FramedClient.RunAttempt | client.py:174-244 | one pass ends Incomplete only when the count differs, and Verified or Mismatch only when it matches; Verified exactly when the digest of the written bytes equals the declared checksum |
| FramedClient.UploadRunBudget | client.py:214-220 | the retry counter only grows, by one per retry, and never passes `max_retries`, so there are at most `max_retries` + 1 attempts |
| FramedClient.UploadRunVerdict | client.py:231-244 | `upload_file` returns True exactly when the last pass found the count right and the digest equal to the declared checksum; a count or digest failure returns False only once the budget is spent |
| FramedClient.UploadRunRetries | client.py:214-217 | a failed pass with budget left makes the run the retry's run plus one attempt |
| FramedClient.FileTransferClient.constructor | client.py:19-33 | a new client has an empty dict, a retry counter of 0, and nothing sent |
| FramedClient.FileTransferClient.SendRequest | client.py:63-72 | the request is appended to what was sent, and nothing else changes |
| FramedClient.FileTransferClient.ReceiveResponse | client.py:74-98 | the next server message is taken, or ConnectionError when none is left |
| FramedClient.FileTransferClient.CollectChunks | client.py:194-205 | the loop leaves the dict and the unread messages as `Collect` says |
| FramedClient.FileTransferClient.SaveFile | client.py:253-267 | the bytes written are the payloads in ascending key order |
| FramedClient.FileTransferClient.CalculateChecksumFromChunks | client.py:121-140 | the digest of the payloads in ascending key order, the same bytes `save_file` writes |
| FramedClient.FileTransferClient.CalculateChecksumFromMemory | client.py:269-285 | the digest of the bytes `save_file` writes |
| FramedClient.FileTransferClient.Attempt | client.py:174-244 | one pass updates the dict and the unread messages as `RunAttempt` says |
| FramedClient.FileTransferClient.UploadFile | client.py:142-251 | the result, the dict, the retry counter and the unread messages are those of `UploadRun`; one upload request is sent per attempt |
| MayhemWire.SecondField | The-Multi-Client-Mayhem/server.py:122 | `split(":")[1]` has no colon, and fails when there is no colon |
| MayhemWire.SecondFieldOf | The-Multi-Client-Mayhem/server.py:122 | the second field of `head:field` is field, for colon-free head and field |
| MayhemWire.RetransmitRoundTrip | The-Multi-Client-Mayhem/server.py:121-122 | `RETRANSMIT:<k>`, as the client writes it (client.py:97), enters the resend loop, and the server reads back exactly k |
| MayhemWire.RetransmitLastFails | The-Multi-Client-Mayhem/server.py:121-122 | `RETRANSMIT:LAST` (client.py:115) enters the resend loop but fails to parse |
| MayhemServer.Expected | The-Multi-Client-Mayhem/server.py:46-51 | the receive loop keeps no more bytes than were offered or than the announced size |
| MayhemServer.ReceiveFileData | The-Multi-Client-Mayhem/server.py:43-51 | the loop takes exactly min(size, available) bytes off the stream, leaves the rest unread and sends nothing |
| MayhemServer.SplitBySlicing | The-Multi-Client-Mayhem/server.py:69-71 | `file_data[i:i+1024]` for i in `range(0, len, 1024)` gives exactly the 1024-byte pieces |
| MayhemServer.PyIndex | The-Multi-Client-Mayhem/server.py:126 | a Python index from -n to n-1 names a position of the list |
| MayhemServer.NextAck | The-Multi-Client-Mayhem/server.py:118 | each `recv` takes the next acknowledgement, and gives "" once the client is gone |
| MayhemServer.Resend | The-Multi-Client-Mayhem/server.py:121-146 | the resend loop only consumes acknowledgements |
| MayhemServer.ResendUnfold | The-Multi-Client-Mayhem/server.py:121-146 | a parsed in-range `RETRANSMIT:<k>` sends chunk k's length and object, reads two acknowledgements and goes on |
| MayhemServer.ResendLoop | The-Multi-Client-Mayhem/server.py:121-146 | the `while` loop computes exactly `Resend` |
| MayhemServer.ServeUnfold | The-Multi-Client-Mayhem/server.py:80-146 | a chunk that is not dropped sends its pair, runs the resend loop, and goes on with the next chunk unless that loop failed |
| MayhemServer.ServeChunks | The-Multi-Client-Mayhem/server.py:80-146 | the chunk loop computes exactly `Serve` |
| MayhemServer.HandleClient | The-Multi-Client-Mayhem/server.py:23-156 | the handler computes exactly `HandleClientSpec` |
| MayhemServer.ResendCarried | The-Multi-Client-Mayhem/server.py:121-146 | every retransmission carries the requested chunk, its own base16 and its true MD5 |
| MayhemServer.ServeCarried | The-Multi-Client-Mayhem/server.py:80-146 | everything the chunk loop sends is (length, object) pairs in which the number names the chunk whose base16 is sent, tagged with its MD5 or the corruption marker |
| MayhemServer.CorruptTagNeverVerifies | The-Multi-Client-Mayhem/server.py:105 | "corrupted_checksum" (18 characters) never equals an MD5 hexdigest (32), so a corrupted chunk never verifies |
| MayhemServer.RetransmitResends | The-Multi-Client-Mayhem/server.py:121-146 | `RETRANSMIT:<k>` for an in-range k >= 0 is answered with chunk k, its true MD5 and no fault |
| MayhemServer.RetransmitLastAborts | The-Multi-Client-Mayhem/server.py:155-156 | `RETRANSMIT:LAST` sends nothing more and ends in the exception handler |
| MayhemServer.CarryAll | The-Multi-Client-Mayhem/server.py:109-115 | two messages go out per chunk object: its length, then the object |
| MayhemServer.ChunkMessage | The-Multi-Client-Mayhem/server.py:82-87 | the chunk object for chunk i carries i, the connection tag, the chunk's MD5 and a base16 text of twice its length |
| MayhemServer.ChunkMessageDecodes | The-Multi-Client-Mayhem/server.py:85 | the base16 text in a chunk object is one that `bytes.fromhex` turns back into the chunk |
| MayhemServer.Perturbed | The-Multi-Client-Mayhem/server.py:92-106 | a corrupted chunk object differs from the original only in its checksum, which becomes `"corrupted_checksum"`; any other object goes out unchanged |
| MayhemServer.FirstPassSpec | The-Multi-Client-Mayhem/server.py:80-118 | the first pass sends, in increasing order, exactly the chunks that were not dropped; each carries its own number, base16 and MD5, and a corrupted one carries the marker instead |
| MayhemServer.FirstPassDelivered | The-Multi-Client-Mayhem/server.py:82-87 | with nothing dropped or corrupted, object i is chunk i with its true MD5 |
| MayhemServer.QuietServe | The-Multi-Client-Mayhem/server.py:80-146 | when no acknowledgement asks for a retransmission, the loop sends the first pass and nothing else, reads two acknowledgements per chunk sent, and never fails |
| MayhemServer.UploadRecovered | The-Multi-Client-Mayhem/server.py:32-74 | given the decimal size and at least the file's bytes, the server keeps exactly the file and announces OK, its SHA-256 and its number of 1024-byte chunks |
| MayhemClient.ReceiveLoop | The-Multi-Client-Mayhem/client.py:71 | the receive loop makes at most `num_chunks * 2` passes |
| MayhemClient.ReceiveChunk | The-Multi-Client-Mayhem/client.py:72-121 | one pass of the loop body computes exactly `ChunkStep` |
| MayhemClient.ReceiveChunks | The-Multi-Client-Mayhem/client.py:69-121 | the `for` loop with its breaks computes exactly `ReceiveLoop` from the empty dict |
| MayhemClient.Reassemble | The-Multi-Client-Mayhem/client.py:127-130 | the `+=` loop computes exactly `Reassembled` |
| MayhemClient.UploadFile | The-Multi-Client-Mayhem/client.py:18-160 | the corrected `upload_file` computes exactly `Upload` |
| MayhemClient.AcceptKeeps | The-Multi-Client-Mayhem/client.py:95-111 | the dict changes only by adding the chunk just read, only when its number is new and its MD5 verifies; the loop ends full only with `num_chunks` entries |
| MayhemClient.StepKeeps | The-Multi-Client-Mayhem/client.py:72-121 | one pass never drops or rewrites an entry, adds at most one, and adds it only when a message it read vouches for it |
| MayhemClient.LoopKeeps | The-Multi-Client-Mayhem/client.py:69-121 | over the whole loop the key set only grows, no entry changes, every new entry is a verified (number, payload) pair that arrived, and the loop only consumes messages |
| MayhemClient.LoopRounds | The-Multi-Client-Mayhem/client.py:109-111 | a loop that used up its range ran every pass, and the early exit on completeness happens only with `num_chunks` entries |
| MayhemClient.StepOnChunk | The-Multi-Client-Mayhem/client.py:78-111 | for a (length, object) pair: bad base16 sends ERROR and leaves the loop; an MD5 mismatch sends `RETRANSMIT:<seq>` and keeps the dict; a verified duplicate is acknowledged OK with the dict unchanged; a verified new chunk is stored, and the loop ends when the dict is full |
| MayhemClient.LengthNotKeyword | The-Multi-Client-Mayhem/client.py:75-78 | a length message is never taken for TRANSFER_COMPLETE |
| MayhemClient.ReassembledComplete | The-Multi-Client-Mayhem/client.py:127-130 | a dict holding piece i at every i < n reassembles to the pieces in order |
| MayhemClient.UploadVerdict | The-Multi-Client-Mayhem/client.py:124-154 | a file is saved exactly when SUCCESS is reported, under the `_received` name, with the SHA-256 of the file sent; every report is SUCCESS, CHECKSUM_MISMATCH or ERROR and is the last message sent; an initial checksum mismatch sends nothing after the file |
| MayhemClient.Conclude | The-Multi-Client-Mayhem/client.py:124-154 | the final read: no message means the client hangs and sends nothing more; a message other than TRANSFER_COMPLETE is answered with ERROR; otherwise one report is sent last, and a file is saved exactly on SUCCESS, under the `_received` name, holding the reassembled chunks, whose SHA-256 is the file's |
| MayhemClient.UploadAsWritten | The-Multi-Client-Mayhem/client.py:18-160 | `upload_file` as written: NoFile exactly when the file is missing; a file is saved exactly on SUCCESS, under the `_received` name with the file's SHA-256; every report is the last message sent |
| MayhemClient.CorrectionOnlyAfterComplete | The-Multi-Client-Mayhem/client.py:71-124 | the corrected client behaves as the code as written whenever the loop did not end on TRANSFER_COMPLETE |
| MayhemTransfer.Transcript | The-Multi-Client-Mayhem/server.py:40-149 | the server's messages to a quiet client end with TRANSFER_COMPLETE after at least three others |
| MayhemTransfer.FirstPassHonest | The-Multi-Client-Mayhem/server.py:80-118 | without corruption the first pass names each chunk at most once, with its own base16 and MD5, in increasing order; a dropped chunk leaves it short |
| MayhemTransfer.DeliveredHolds | The-Multi-Client-Mayhem/client.py:101-102 | storing an honest first pass holds every chunk it named |
| MayhemTransfer.HonestStep | The-Multi-Client-Mayhem/client.py:72-111 | the client stores the next honest pair, answers OK twice, and leaves the loop exactly when the dict is full |
| MayhemTransfer.HonestLoop | The-Multi-Client-Mayhem/client.py:71-121 | fed an honest first pass and TRANSFER_COMPLETE, the loop stores every chunk and acknowledges every pair; it ends full before TRANSFER_COMPLETE when nothing was dropped, otherwise it consumes TRANSFER_COMPLETE; the range always lasts long enough |
| MayhemTransfer.PreludeHeader | The-Multi-Client-Mayhem/client.py:41-66 | the client sends the size and the file, checks the SHA-256, reads the count and answers OK before its loop |
| MayhemTransfer.QuietSession | The-Multi-Client-Mayhem/server.py:80-152 | acknowledgements that ask for nothing again get the first pass followed by TRANSFER_COMPLETE, and the next acknowledgement is taken as the result |
| MayhemTransfer.MainLoop | The-Multi-Client-Mayhem/client.py:71-121 | the whole loop on an honest first pass: the dict is what was delivered, two OKs per object, and the loop consumes TRANSFER_COMPLETE exactly when a chunk was dropped |
| MayhemTransfer.UploadAfterLoop | The-Multi-Client-Mayhem/client.py:124-154 | after such a loop the corrected client reassembles and reports SUCCESS, saving the file, exactly when the SHA-256 matches, and CHECKSUM_MISMATCH otherwise |
| MayhemTransfer.ClientRun | The-Multi-Client-Mayhem/client.py:18-154 | what the corrected client sends and saves for the transcript of an honest first pass |
| MayhemTransfer.ClientHangs | The-Multi-Client-Mayhem/client.py:71-124 | the client as written, given an honest first pass that misses a chunk, acknowledges every pair and then waits forever for a second TRANSFER_COMPLETE |
| MayhemTransfer.AsWrittenAfterComplete | The-Multi-Client-Mayhem/client.py:124 | once the loop consumed TRANSFER_COMPLETE and nothing follows, the final read of the client as written blocks |
| MayhemTransfer.ServerSide | The-Multi-Client-Mayhem/server.py:149-152 | OKs for every pair followed by a report make the server send the transcript and take the report as its result |
| MayhemTransfer.AllDelivered | The-Multi-Client-Mayhem/client.py:127-130 | when every chunk is delivered, reassembly gives exactly the file |
| MayhemTransfer.HonestTransfer | The-Multi-Client-Mayhem/client.py:18-154 | with nothing corrupted, the corrected client and the server form one consistent exchange: the client acknowledges every pair and reports, and the server takes that report as its result; SUCCESS exactly when the reassembled bytes have the file's SHA-256, CHECKSUM_MISMATCH otherwise; when nothing is dropped both sides conclude SUCCESS and the file is saved intact |
| MayhemTransfer.DroppedChunkHangs | The-Multi-Client-Mayhem/client.py:71-124 | when a chunk is dropped and none is corrupted, the client as written never reports; the server has sent everything and waits for the report at server.py:152 |
| MayhemTransfer.ServerUnanswered | The-Multi-Client-Mayhem/server.py:80-149 | a server fed only OKs sends the whole transcript |
| MayhemTransfer.OneByteDropHangs | The-Multi-Client-Mayhem/client.py:71-124 | a one-byte file whose only chunk is dropped: the server sends OK, the SHA-256, "1" and TRANSFER_COMPLETE; the client as written answers OK and waits forever, while the corrected client reports |

## Left out

- Sockets themselves are not modelled: `connect`, `accept`, `close`, timeouts, and failures of `sendall`.
  - In the framed variant a socket is a pending byte stream with arbitrary splits.
  - In the Mayhem variant one `recv` is one message. TCP coalescing or splitting of its messages is a transport assumption of that code. So is the truncation that `recv(chunk_len)` (client.py:84) or `recv(1024)` would cause on a longer message.
- The framed server's `handle_client` command dispatch (server.py:143-173) is not modelled. Neither is the client's `connect`/`disconnect` (client.py:35-61). Both are connection handling around the upload exchange. The upload handler and the client's `upload_file` are modelled from the point a request has been read or sent.
- JSON text is not modelled.
  - Messages are datatypes.
  - The byte length of a Mayhem chunk object's JSON is a parameter.
  - Whether a Mayhem text message parses as JSON is a parameter.
  - A Mayhem object that lacks one of its keys is not modelled.
  - In the framed variant, the UTF-8 encoding of the JSON text is not modelled.
- SHA-256 (FIPS 180-4) and MD5 (RFC 1321) are parameters. Only the length of their hexdigests is used, and nothing relies on collision freedom.
  - The 8 KB block reading of `calculate_checksum` (server.py:61-80, client.py:100-119) is taken to hash the whole byte string.
- Randomness is a parameter: `random.random`, `random.shuffle`, `random.choice`, `random.randint` and the float error rate. Nothing probabilistic is claimed.
- File I/O is not modelled.
  - File existence is an optional file content.
  - Not modelled: the `server_` temporary file and its removal (server.py:195-197, 255), and the `received_` output name (client.py:223).
- Logging, `print`, `time.sleep`, threads and throughput are not modelled. Neither are the Mayhem server's `client_data` store and its cleanup thread (The-Multi-Client-Mayhem/server.py:17, 58-63, 157-165). The client tag built from the address and the clock is a parameter.
- The framed client's warning when the server's checksum differs from the local one (client.py:186-188) is only a log line.
- Decimal.ParseInt: stricter than Python's `int()`. It rejects surrounding whitespace and digit-separating underscores, which `int()` accepts. The texts the two Mayhem programs exchange are produced by `str()`, which never emits either.
- MayhemTransfer.HonestTransfer: covers only runs in which the server corrupts nothing; it may still drop chunks. With corruption, one pass of the retransmission exchange is proved by MayhemClient.StepOnChunk and MayhemServer.RetransmitResends, but the whole exchange is not composed end to end.
- FramedTransfer.FaultFreeTransfer: covers only runs without simulated errors. With errors, the client's outcome is stated for every input by FramedClient.UploadRunVerdict and FramedReassembly.CountCheck.

## Findings

| source | as written | input that shows it | evidently intended | confidence | as-written member | corrected member |
|---|---|---|---|---|---|---|
| client.py:81 | The length prefix is read with a single `recv(4)`, which may return fewer than 4 bytes (the same at server.py:127). | The frame [0, 0, 0, 1, 65] of payload [65], delivered as a first read of 2 bytes: the reader decodes length 0 and returns an empty payload, leaving [0, 1, 65] unread. In the program, `json.loads('')` then raises: the client's `upload_file` returns False (client.py:248-251), and the server's `handle_client` closes the connection (server.py:166-171). | Read the prefix with the same exact-count loop as the body. | not executed | Framing.ShortHeaderReadMisframes | Framing.ReceiveFrame |
| The-Multi-Client-Mayhem/client.py:75 | The receive loop consumes "TRANSFER_COMPLETE" and breaks, then line 124 reads the final message again, while the server waits for the result at server.py:152. | A one-byte file whose only chunk the server drops: the server sends OK, the SHA-256, "1" and TRANSFER_COMPLETE, and the client answers OK and then blocks forever. | Read a final message only when the loop has not already seen TRANSFER_COMPLETE. | not executed | MayhemTransfer.OneByteDropHangs | MayhemTransfer.HonestTransfer |

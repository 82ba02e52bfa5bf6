/** `split_file` of the framed-JSON server: the file is read block by block
    with `f.read(chunk_size)` and each non-empty block becomes the pair
    (sequence_number, block), numbered from 0. */
module Splitter {
  import opened Bytes
  import opened Chunking

  datatype Chunk = Chunk(sequence: nat, data: seq<byte>)

  /** `f.read(size)` with the file position at pos: a negative size reads to
      the end, size 0 reads nothing. */
  function ReadBlock(file: seq<byte>, pos: nat, size: int): (r: seq<byte>)
    requires pos <= |file|
  {
    if size < 0 then file[pos..] else file[pos..Min(pos + size, |file|)]
  }

  /** The block length the loop effectively uses for a chunk_size other than 0. */
  function BlockLength(len: nat, size: int): (e: nat)
    requires size != 0
    ensures e > 0
    ensures size < 0 ==> len <= e
  {
    if size > 0 then size else if len > 0 then len else 1
  }

  /** The chunks split_file returns, in closed form: chunk i is piece i of
      the file (no chunks at all for chunk_size 0, where the first read is
      already empty). */
  function Split(file: seq<byte>, size: int): (chunks: seq<Chunk>)
  {
    if size == 0 then []
    else
      var e := BlockLength(|file|, size);
      seq(NumChunks(|file|, e), i requires 0 <= i < NumChunks(|file|, e) => Chunk(i, Piece(file, e, i)))
  }

  /** The payloads of a chunk list in list order. */
  function Payloads(chunks: seq<Chunk>): (ps: seq<seq<byte>>)
    ensures |ps| == |chunks|
  {
    seq(|chunks|, i requires 0 <= i < |chunks| => chunks[i].data)
  }

  lemma ReadBlockIsPiece(file: seq<byte>, size: int, n: nat, pos: nat)
    requires size != 0 && pos <= |file|
    requires var e := BlockLength(|file|, size); n < NumChunks(|file|, e) && pos == n * e
    ensures ReadBlock(file, pos, size) == Piece(file, BlockLength(|file|, size), n)
  {
    var e := BlockLength(|file|, size);
    PieceStart(file, e, n);
    assert (n + 1) * e == pos + e;
  }

  method SplitFile(file: seq<byte>, chunkSize: int) returns (chunks: seq<Chunk>)
    ensures chunks == Split(file, chunkSize)
  {
    chunks := [];
    var sequenceNumber: nat := 0;
    var pos: nat := 0;
    ghost var e := if chunkSize == 0 then 1 else BlockLength(|file|, chunkSize);
    ghost var total := if chunkSize == 0 then 0 else NumChunks(|file|, e);
    if chunkSize != 0 {
      NumChunksBounds(|file|, e);
    }
    while true
      invariant pos <= |file| && sequenceNumber <= total
      invariant chunkSize == 0 ==> chunks == [] && pos == 0
      invariant chunkSize != 0 ==> chunks == Split(file, chunkSize)[..sequenceNumber]
      invariant chunkSize != 0 && sequenceNumber < total ==> pos == sequenceNumber * e
      invariant chunkSize != 0 && sequenceNumber == total ==> pos == |file|
      decreases |file| - pos
    {
      var chunk := ReadBlock(file, pos, chunkSize);
      if chunkSize != 0 && sequenceNumber < total {
        SplitStep(file, chunkSize, sequenceNumber, pos);
      }
      if chunk == [] {
        break;
      }
      chunks := chunks + [Chunk(sequenceNumber, chunk)];
      sequenceNumber := sequenceNumber + 1;
      pos := pos + |chunk|;
    }
  }

  /** One pass of the loop: the block read at chunk n's offset is chunk n,
      and the position moves to the next chunk's offset, or to the end
      after the last chunk. */
  lemma SplitStep(file: seq<byte>, size: int, n: nat, pos: nat)
    requires size != 0
    requires var e := BlockLength(|file|, size); n < NumChunks(|file|, e) && pos == n * e && pos <= |file|
    ensures var e := BlockLength(|file|, size);
      var chunk := ReadBlock(file, pos, size);
      chunk != [] && pos + |chunk| <= |file|
      && Split(file, size)[..n] + [Chunk(n, chunk)] == Split(file, size)[..n + 1]
      && (n + 1 < NumChunks(|file|, e) ==> pos + |chunk| == (n + 1) * e)
      && (n + 1 == NumChunks(|file|, e) ==> pos + |chunk| == |file|)
  {
    var e := BlockLength(|file|, size);
    ReadBlockIsPiece(file, size, n, pos);
    PieceShape(file, e, n);
    SplitAdvance(file, e, n, pos);
    SplitSnoc(file, size, n);
  }

  /** Where chunk n ends. */
  lemma SplitAdvance(file: seq<byte>, e: nat, n: nat, pos: nat)
    requires e > 0 && n < NumChunks(|file|, e) && pos == n * e
    ensures pos + |Piece(file, e, n)| <= |file|
    ensures n + 1 < NumChunks(|file|, e) ==> pos + |Piece(file, e, n)| == (n + 1) * e
    ensures n + 1 == NumChunks(|file|, e) ==> pos + |Piece(file, e, n)| == |file|
  {
    PieceStart(file, e, n);
    var last := Min((n + 1) * e, |file|);
    assert |Piece(file, e, n)| == last - pos;
    if n + 1 < NumChunks(|file|, e) {
      PieceStart(file, e, n + 1);
    } else {
      NumChunksBounds(|file|, e);
    }
  }

  /** The chunks up to n, then chunk n. */
  lemma SplitSnoc(file: seq<byte>, size: int, n: nat)
    requires size != 0 && n < NumChunks(|file|, BlockLength(|file|, size))
    ensures Split(file, size)[..n] + [Chunk(n, Piece(file, BlockLength(|file|, size), n))]
      == Split(file, size)[..n + 1]
  {
    assert Split(file, size)[n] == Chunk(n, Piece(file, BlockLength(|file|, size), n));
  }

  /** Sequence numbers run 0, 1, ..., n-1 in list order, with n = ceil(len/size);
      every chunk is non-empty; all but the last hold exactly size bytes and
      the last holds 1..size bytes. */
  lemma SplitShape(file: seq<byte>, size: int, i: nat)
    requires size > 0 && i < |Split(file, size)|
    ensures |Split(file, size)| == NumChunks(|file|, size)
    ensures Split(file, size)[i].sequence == i
    ensures 1 <= |Split(file, size)[i].data| <= size
    ensures i < |Split(file, size)| - 1 ==> |Split(file, size)[i].data| == size
  {
    PieceShape(file, size, i);
  }

  /** Chunk i carries sequence number i, whatever the chunk size. */
  lemma SplitNumbered(file: seq<byte>, size: int)
    ensures forall i | 0 <= i < |Split(file, size)| :: Split(file, size)[i].sequence == i
  {
  }

  /** The payloads concatenate back to the file, for any chunk_size but 0. */
  lemma SplitFlatten(file: seq<byte>, size: int)
    requires size != 0
    ensures Flatten(Payloads(Split(file, size))) == file
  {
    var e := BlockLength(|file|, size);
    assert Payloads(Split(file, size)) == Pieces(file, e);
    PiecesFlatten(file, e);
  }

  /** An empty file gives no chunks, a file of exactly one chunk size gives
      one chunk and no remainder. */
  lemma SplitBoundary(file: seq<byte>, size: int)
    requires size > 0
    ensures |file| == 0 ==> Split(file, size) == []
    ensures |file| == size ==> Split(file, size) == [Chunk(0, file)]
  {
    PiecesBoundary(file, size);
    if |file| == size {
      assert Pieces(file, size)[0] == file;
    }
  }
}

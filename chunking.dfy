/** Cutting a byte string into consecutive fixed-size pieces, in the closed
    form both variants' splitting loops are proved against: piece i is
    data[i*size .. min((i+1)*size, |data|)], and there are ceil(|data|/size)
    of them. */
module Chunking {
  import opened Bytes

  function Min(a: int, b: int): int
  {
    if a < b then a else b
  }

  /** ceil(len / size). */
  function NumChunks(len: nat, size: nat): nat
    requires size > 0
  {
    (len + size - 1) / size
  }

  /** n = NumChunks(len, size) is the one count with (n-1)*size < len <= n*size
      (and n = 0 exactly when len = 0). */
  lemma NumChunksBounds(len: nat, size: nat)
    requires size > 0
    ensures var n := NumChunks(len, size);
      (len == 0 <==> n == 0) && len <= n * size && (n > 0 ==> (n - 1) * size < len)
  {
    var n := NumChunks(len, size);
    var q, r := (len + size - 1) / size, (len + size - 1) % size;
    assert len + size - 1 == q * size + r;
    assert (q - 1) * size == q * size - size;
  }

  lemma MulCancel(a: int, b: int, c: nat)
    requires c > 0 && a * c < b * c
    ensures a < b
  {
  }

  lemma NumChunksUnique(len: nat, size: nat, n: nat)
    requires size > 0
    requires len <= n * size && (n > 0 ==> (n - 1) * size < len) && (len == 0 ==> n == 0)
    ensures n == NumChunks(len, size)
  {
    NumChunksBounds(len, size);
    var m := NumChunks(len, size);
    if len > 0 {
      MulCancel(n - 1, m, size);
      MulCancel(m - 1, n, size);
    }
  }

  lemma PieceStart(data: seq<byte>, size: nat, i: nat)
    requires size > 0 && i < NumChunks(|data|, size)
    ensures i * size < |data|
  {
    NumChunksBounds(|data|, size);
    var n := NumChunks(|data|, size);
    assert i <= n - 1;
    assert i * size <= (n - 1) * size;
  }

  function Piece(data: seq<byte>, size: nat, i: nat): (p: seq<byte>)
    requires size > 0 && i < NumChunks(|data|, size)
  {
    PieceStart(data, size, i);
    data[i * size .. Min((i + 1) * size, |data|)]
  }

  function Pieces(data: seq<byte>, size: nat): (ps: seq<seq<byte>>)
    requires size > 0
    ensures |ps| == NumChunks(|data|, size)
  {
    seq(NumChunks(|data|, size), i requires 0 <= i < NumChunks(|data|, size) => Piece(data, size, i))
  }

  /** Every piece is non-empty, every piece but the last is exactly size
      bytes, and the last is 1..size bytes. */
  lemma PieceShape(data: seq<byte>, size: nat, i: nat)
    requires size > 0 && i < NumChunks(|data|, size)
    ensures 1 <= |Piece(data, size, i)| <= size
    ensures i < NumChunks(|data|, size) - 1 ==> |Piece(data, size, i)| == size
  {
    PieceStart(data, size, i);
    NumChunksBounds(|data|, size);
    var n := NumChunks(|data|, size);
    assert (i + 1) * size == i * size + size;
    if i < n - 1 {
      assert i + 1 <= n - 1;
      assert (i + 1) * size <= (n - 1) * size;
    }
  }

  /** Removing the first size bytes drops the first piece and renumbers the rest. */
  lemma PiecesShift(data: seq<byte>, size: nat)
    requires size > 0 && |data| > size
    ensures NumChunks(|data|, size) == 1 + NumChunks(|data| - size, size)
    ensures Pieces(data, size) == [data[..size]] + Pieces(data[size..], size)
  {
    var rest := data[size..];
    var n := NumChunks(|rest|, size);
    ShiftCount(|data|, size);
    var lhs, rhs := Pieces(data, size), [data[..size]] + Pieces(rest, size);
    forall i | 0 <= i < n + 1 ensures lhs[i] == rhs[i] {
      if i > 0 {
        PieceShifted(data, size, i);
      }
    }
  }

  /** Dropping the first size bytes drops one chunk. */
  lemma ShiftCount(len: nat, size: nat)
    requires size > 0 && len > size
    ensures NumChunks(len, size) == 1 + NumChunks(len - size, size)
  {
    var n := NumChunks(len - size, size);
    NumChunksBounds(len - size, size);
    assert (n + 1) * size == n * size + size;
    assert n * size == (n + 1 - 1) * size;
    NumChunksUnique(len, size, n + 1);
  }

  /** Piece i of the data is piece i - 1 of what follows its first piece. */
  lemma PieceShifted(data: seq<byte>, size: nat, i: nat)
    requires size > 0 && |data| > size && 0 < i < NumChunks(|data|, size)
    ensures i - 1 < NumChunks(|data| - size, size)
    ensures Piece(data, size, i) == Piece(data[size..], size, i - 1)
  {
    ShiftCount(|data|, size);
    var rest := data[size..];
    var j := i - 1;
    assert i * size == j * size + size;
    assert (i + 1) * size == (j + 1) * size + size;
    PieceStart(rest, size, j);
    var lo, hi := j * size, Min((j + 1) * size, |rest|);
    assert i * size == size + lo;
    assert Min((i + 1) * size, |data|) == size + hi;
    assert rest[lo..hi] == data[size + lo .. size + hi];
  }

  /** Concatenating the pieces in order gives back the data. */
  lemma {:induction false} PiecesFlatten(data: seq<byte>, size: nat)
    requires size > 0
    ensures Flatten(Pieces(data, size)) == data
    decreases |data|
  {
    if |data| == 0 {
      NumChunksBounds(0, size);
    } else if |data| <= size {
      NumChunksUnique(|data|, size, 1);
      assert Piece(data, size, 0) == data;
      assert Pieces(data, size) == [data];
      assert Flatten([data]) == data + Flatten([]);
    } else {
      PiecesShift(data, size);
      PiecesFlatten(data[size..], size);
      assert Flatten([data[..size]] + Pieces(data[size..], size)) == data[..size] + Flatten(Pieces(data[size..], size));
      assert data[..size] + data[size..] == data;
    }
  }

  /** An empty input has no pieces; an input of exactly size bytes has one. */
  lemma PiecesBoundary(data: seq<byte>, size: nat)
    requires size > 0
    ensures |data| == 0 ==> Pieces(data, size) == []
    ensures |data| == size ==> Pieces(data, size) == [data]
  {
    NumChunksBounds(|data|, size);
    if |data| == size {
      NumChunksUnique(|data|, size, 1);
      assert Piece(data, size, 0) == data;
    }
  }
}

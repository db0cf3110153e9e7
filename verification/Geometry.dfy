/** Chunks, pieces and byte positions of a torrent (src/torrent/torrent_data.c). */
module Geometry {

  lemma MulMonotone(d: int, a: int, b: int)
    requires d >= 0 && a <= b
    ensures d * a <= d * b
  {
  }

  lemma MulSum(d: int, a: int, b: int)
    ensures d * (a + b) == d * a + d * b
  {
  }

  lemma MulAssociates(a: int, b: int, c: int)
    ensures a * (b * c) == (a * b) * c
  {
  }

  /** Quotient and remainder are the only pair that fits. */
  lemma DivUnique(x: int, d: int, q: int, r: int)
    requires d > 0 && x == d * q + r && 0 <= r < d
    ensures x / d == q && x % d == r
  {
    DivParts(x, d);
    var q' := x / d;
    if q' < q {
      MulMonotone(d, q' + 1, q);
      MulSum(d, q', 1);
      assert false;
    }
    if q < q' {
      MulMonotone(d, q + 1, q');
      MulSum(d, q, 1);
      assert false;
    }
  }

  lemma DivParts(x: int, d: int)
    requires d > 0
    ensures x == d * (x / d) + x % d && 0 <= x % d < d
  {
  }

  /** Dividing by a product is dividing twice. */
  lemma DivDiv(x: int, d: int, k: int)
    requires d > 0 && k > 0
    ensures d * k > 0 && x / (d * k) == x / d / k
  {
    var q, r := x / d, x % d;
    var q2, r2 := q / k, q % k;
    DivParts(x, d);
    DivParts(q, k);
    MulSum(d, k * q2, r2);
    MulAssociates(d, k, q2);
    MulMonotone(d, 0, r2);
    MulMonotone(d, r2, k - 1);
    MulSum(d, k - 1, 1);
    var rest := d * r2 + r;
    DivUnique(x, d * k, q2, rest);
  }

  /** piece_size, chunk_size and data_size. */
  datatype Config = Config(pieceSize: nat, chunkSize: nat, dataSize: nat) {
    ghost predicate Valid() {
      chunkSize > 0 && pieceSize > 0 && pieceSize % chunkSize == 0
    }

    /** The condition under which a piece is a whole number of bytes of the chunk bitfield. */
    ghost predicate Aligned() {
      Valid() && pieceSize % (8 * chunkSize) == 0
    }

    function ChunkCount(): nat
      requires chunkSize > 0
    {
      (dataSize + (chunkSize - 1)) / chunkSize
    }

    function PieceCount(): nat
      requires pieceSize > 0
    {
      (dataSize + (pieceSize - 1)) / pieceSize
    }

    function ChunkOffset(chunk: nat): nat {
      chunkSize * chunk
    }

    function ChunkLength(chunk: nat): int {
      if chunkSize < dataSize - ChunkOffset(chunk) then chunkSize else dataSize - ChunkOffset(chunk)
    }

    function ChunkPiece(chunk: nat): nat
      requires pieceSize > 0
    {
      ChunkOffset(chunk) / pieceSize
    }

    function PieceOffset(piece: nat): nat {
      pieceSize * piece
    }

    function PieceLength(piece: nat): int {
      if pieceSize < dataSize - PieceOffset(piece) then pieceSize else dataSize - PieceOffset(piece)
    }

    function ChunksPerPiece(): nat
      requires chunkSize > 0
    {
      pieceSize / chunkSize
    }

    /** A chunk exists exactly when its offset lies inside the data, and then it is not empty. */
    lemma ChunkExists(chunk: nat)
      requires chunkSize > 0
      ensures chunk < ChunkCount() <==> ChunkOffset(chunk) < dataSize
      ensures chunk < ChunkCount() ==> 0 < ChunkLength(chunk) <= chunkSize
    {
      CeilDiv(dataSize, chunkSize, chunk);
    }

    lemma PieceExists(piece: nat)
      requires pieceSize > 0
      ensures piece < PieceCount() <==> PieceOffset(piece) < dataSize
      ensures piece < PieceCount() ==> 0 < PieceLength(piece) <= pieceSize
    {
      CeilDiv(dataSize, pieceSize, piece);
    }

    lemma ChunksMakePiece()
      requires Valid()
      ensures ChunksPerPiece() > 0 && pieceSize == chunkSize * ChunksPerPiece()
    {
      DivParts(pieceSize, chunkSize);
    }

    /** The chunk and the piece of a byte position. */
    lemma PositionIsIn(pos: nat)
      requires Valid()
      ensures ChunksPerPiece() > 0 && pos / pieceSize == pos / chunkSize / ChunksPerPiece()
    {
      ChunksMakePiece();
      DivDiv(pos, chunkSize, ChunksPerPiece());
    }

    lemma ChunkIsIn(chunk: nat)
      requires Valid()
      ensures ChunksPerPiece() > 0 && ChunkPiece(chunk) == chunk / ChunksPerPiece()
      ensures PieceOffset(ChunkPiece(chunk)) <= ChunkOffset(chunk)
      ensures ChunkOffset(chunk) + chunkSize <= PieceOffset(ChunkPiece(chunk)) + pieceSize
    {
      var k := ChunksPerPiece();
      PositionIsIn(ChunkOffset(chunk));
      DivUnique(ChunkOffset(chunk), chunkSize, chunk, 0);
      DivParts(chunk, k);
      ChunksMakePiece();
      ChunkWithin(chunkSize, k, chunk / k, chunk % k);
    }

    /** A chunk's piece exists when the chunk does, and the chunk ends inside the piece's data. */
    lemma ChunkInside(chunk: nat)
      requires Valid() && chunk < ChunkCount()
      ensures ChunkPiece(chunk) < PieceCount()
      ensures ChunkOffset(chunk) + ChunkLength(chunk) <= PieceOffset(ChunkPiece(chunk)) + PieceLength(ChunkPiece(chunk))
    {
      ChunkExists(chunk);
      ChunkIsIn(chunk);
      PieceExists(ChunkPiece(chunk));
    }
  }

  lemma ChunkWithin(d: nat, k: nat, p: nat, r: nat)
    requires r < k
    ensures (d * k) * p <= d * (k * p + r)
    ensures d * (k * p + r) + d <= (d * k) * p + d * k
  {
    MulSum(d, k * p, r);
    MulAssociates(d, k, p);
    MulMonotone(d, 0, r);
    MulMonotone(d, r, k - 1);
    MulSum(d, k - 1, 1);
  }

  lemma CeilDiv(n: nat, d: nat, i: nat)
    requires d > 0
    ensures i < (n + (d - 1)) / d <==> d * i < n
  {
    var q := (n + (d - 1)) / d;
    DivParts(n + (d - 1), d);
    if i < q {
      MulMonotone(d, i, q - 1);
      MulSum(d, q - 1, 1);
    } else {
      MulMonotone(d, q, i);
    }
  }
}

/** The byte-wise completion test of torrent_data_is_piece_complete (src/torrent/torrent_data.c). */
module Completion {
  import opened Bitfields
  import opened Geometry

  /** The bits of a chunk bitfield made by bitfield_new(chunk_count, 0, 0xFF): the padding of the last byte is set. */
  ghost predicate Padded(cfg: Config, bits: seq<bool>)
    requires cfg.chunkSize > 0
  {
    && |bits| == 8 * BytesFor(cfg.ChunkCount())
    && forall i :: cfg.ChunkCount() <= i < |bits| ==> bits[i]
  }

  /** A clear bit belongs to a chunk. */
  lemma PaddedBit(cfg: Config, bits: seq<bool>, i: nat)
    requires cfg.chunkSize > 0 && Padded(cfg, bits) && i < |bits| && !bits[i]
    ensures i < cfg.ChunkCount()
  {
  }

  /** Padding bits start out set because the default byte is 0xFF. */
  lemma FreshIsPadded(cfg: Config)
    requires cfg.chunkSize > 0
    ensures Padded(cfg, FreshBits(cfg.ChunkCount(), cfg.ChunkCount(), false, 0xFF))
  {
    hide Config.ChunkCount;
    assert forall k :: 0 <= k < 8 ==> 0xFF & Mask(k) != 0;
  }

  /** uints_per_piece */
  function BytesPerPiece(cfg: Config): nat
    requires cfg.chunkSize > 0
  {
    cfg.ChunksPerPiece() / 8
  }

  /** Every byte of the bitfield that belongs to the piece is 0xFF. */
  ghost predicate ByteTest(cfg: Config, bits: seq<bool>, piece: nat)
    requires cfg.chunkSize > 0
  {
    var u := BytesPerPiece(cfg);
    forall b :: piece * u <= b < piece * u + u && b < |bits| / 8 ==> ByteUniform(bits, b, true)
  }

  /** Every chunk of the piece is completed. */
  ghost predicate PieceDone(cfg: Config, bits: seq<bool>, piece: nat)
    requires cfg.chunkSize > 0 && cfg.pieceSize > 0 && |bits| >= cfg.ChunkCount()
  {
    forall c :: 0 <= c < cfg.ChunkCount() && cfg.ChunkPiece(c) == piece ==> bits[c]
  }

  lemma AlignedParts(cfg: Config)
    requires cfg.Aligned()
    ensures BytesPerPiece(cfg) > 0 && cfg.ChunksPerPiece() == 8 * BytesPerPiece(cfg)
  {
    var u := cfg.pieceSize / (8 * cfg.chunkSize);
    DivParts(cfg.pieceSize, 8 * cfg.chunkSize);
    MulAssociates(cfg.chunkSize, 8, u);
    DivUnique(cfg.pieceSize, cfg.chunkSize, 8 * u, 0);
  }

  lemma ChunkRange(chunk: int, piece: int, u: int)
    requires u > 0
    ensures chunk / (8 * u) == piece <==> 8 * (piece * u) <= chunk < 8 * (piece * u) + 8 * u
  {
    DivParts(chunk, 8 * u);
    MulAssociates(8, u, piece);
    if 8 * (piece * u) <= chunk < 8 * (piece * u) + 8 * u {
      DivUnique(chunk, 8 * u, piece, chunk - 8 * (piece * u));
    }
  }

  /** The test is true exactly when every chunk of the piece is completed, the short last piece included. */
  lemma ByteTestExact(cfg: Config, bits: seq<bool>, piece: nat)
    requires cfg.Aligned() && Padded(cfg, bits)
    ensures ByteTest(cfg, bits, piece) <==> PieceDone(cfg, bits, piece)
  {
    if ByteTest(cfg, bits, piece) {
      TestedIsDone(cfg, bits, piece);
    }
    if PieceDone(cfg, bits, piece) {
      DoneIsTested(cfg, bits, piece);
    }
  }

  lemma TestedIsDone(cfg: Config, bits: seq<bool>, piece: nat)
    requires cfg.Aligned() && Padded(cfg, bits) && ByteTest(cfg, bits, piece)
    ensures PieceDone(cfg, bits, piece)
  {
    hide Config.ChunkCount;
    hide Config.ChunkPiece;
    hide BytesPerPiece;
    forall c | 0 <= c < cfg.ChunkCount() && cfg.ChunkPiece(c) == piece
      ensures bits[c]
    {
      ByteOfChunk(cfg, c);
      assert ByteUniform(bits, c / 8, true);
    }
  }

  lemma DoneIsTested(cfg: Config, bits: seq<bool>, piece: nat)
    requires cfg.Aligned() && Padded(cfg, bits) && PieceDone(cfg, bits, piece)
    ensures ByteTest(cfg, bits, piece)
  {
    hide Config.ChunkCount;
    hide Config.ChunkPiece;
    hide BytesPerPiece;
    var u := BytesPerPiece(cfg);
    forall b | piece * u <= b < piece * u + u && b < |bits| / 8
      ensures ByteUniform(bits, b, true)
    {
      forall j | 8 * b <= j < 8 * b + 8
        ensures bits[j]
      {
        ChunkOfByte(cfg, piece, b, j);
      }
    }
  }

  /** The bit of a chunk lies in a byte of the chunk's piece. */
  lemma ByteOfChunk(cfg: Config, c: nat)
    requires cfg.Aligned()
    ensures var p, u := cfg.ChunkPiece(c), BytesPerPiece(cfg); p * u <= c / 8 < p * u + u
  {
    AlignedParts(cfg);
    cfg.ChunkIsIn(c);
    ChunkRange(c, cfg.ChunkPiece(c), BytesPerPiece(cfg));
  }

  /** The bits of a byte of a piece belong to chunks of that piece. */
  lemma ChunkOfByte(cfg: Config, piece: nat, b: nat, j: nat)
    requires cfg.Aligned() && 8 * b <= j < 8 * b + 8
    requires var u := BytesPerPiece(cfg); piece * u <= b < piece * u + u
    ensures cfg.ChunkPiece(j) == piece
  {
    AlignedParts(cfg);
    cfg.ChunkIsIn(j);
    ChunkRange(j, piece, BytesPerPiece(cfg));
  }

  /** The test agrees with the chunks for every data size, every bitfield and every piece. */
  ghost predicate ExactFor(pieceSize: nat, chunkSize: nat)
    requires pieceSize > 0 && chunkSize > 0
  {
    forall dataSize: nat, bits: seq<bool>, piece: nat :: Padded(Config(pieceSize, chunkSize, dataSize), bits) ==>
      (ByteTest(Config(pieceSize, chunkSize, dataSize), bits, piece) <==>
          PieceDone(Config(pieceSize, chunkSize, dataSize), bits, piece))
  }

  /** When a piece is not a whole number of bitfield bytes, the chunk after the last whole byte escapes the test. */
  lemma ByteTestMisses(pieceSize: nat, chunkSize: nat) returns (bits: seq<bool>)
    requires pieceSize > 0 && chunkSize > 0 && pieceSize % (8 * chunkSize) != 0
    ensures Padded(Config(pieceSize, chunkSize, pieceSize), bits)
    ensures ByteTest(Config(pieceSize, chunkSize, pieceSize), bits, 0)
    ensures !PieceDone(Config(pieceSize, chunkSize, pieceSize), bits, 0)
  {
    var cfg := Config(pieceSize, chunkSize, pieceSize);
    var u := BytesPerPiece(cfg);
    DivDiv(pieceSize, chunkSize, 8);
    DivParts(pieceSize, chunkSize * 8);
    MulAssociates(chunkSize, 8, u);
    cfg.ChunkExists(8 * u);
    bits := seq(8 * BytesFor(cfg.ChunkCount()), i => i != 8 * u);
    assert cfg.ChunkOffset(8 * u) < pieceSize;
    DivUnique(cfg.ChunkOffset(8 * u), pieceSize, 0, cfg.ChunkOffset(8 * u));
    assert !bits[8 * u] && cfg.ChunkPiece(8 * u) == 0;
  }

  /** The sizes for which the byte-wise test is exact are the positive multiples of eight chunks, and no others. */
  lemma ByteTestExactIff(pieceSize: nat, chunkSize: nat)
    requires pieceSize > 0 && chunkSize > 0
    ensures ExactFor(pieceSize, chunkSize) <==> pieceSize % (8 * chunkSize) == 0
  {
    if pieceSize % (8 * chunkSize) == 0 {
      DivParts(pieceSize, 8 * chunkSize);
      var u := pieceSize / (8 * chunkSize);
      MulAssociates(chunkSize, 8, u);
      DivUnique(pieceSize, chunkSize, 8 * u, 0);
      forall dataSize: nat, bits: seq<bool>, piece: nat | Padded(Config(pieceSize, chunkSize, dataSize), bits)
        ensures ByteTest(Config(pieceSize, chunkSize, dataSize), bits, piece) <==>
                PieceDone(Config(pieceSize, chunkSize, dataSize), bits, piece)
      {
        ByteTestExact(Config(pieceSize, chunkSize, dataSize), bits, piece);
      }
    } else {
      var bits := ByteTestMisses(pieceSize, chunkSize);
    }
  }
}

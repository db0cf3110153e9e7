/** torrent_process_data_chunk (src/torrent/torrent.c): what the receiver makes of the fields of a piece message. */
module Replies {
  import opened Bytes
  import opened Geometry
  import opened Bitfields
  import opened Store
  import opened TorrentDatas
  import opened Requests

  /** The completed bitfield has a bit for this chunk number. */
  predicate Inside(cfg: Config, chunk: int)
    requires cfg.chunkSize > 0
  {
    0 <= chunk < 8 * BytesFor(cfg.ChunkCount())
  }

  lemma CutToInt(q: nat, n: nat)
    requires n <= TWO_31
    ensures 0 <= Int32(q) < n <==> q % TWO_32 < n
    ensures q % TWO_32 < n ==> Int32(q) == q % TWO_32
  {
    DivParts(q, TWO_32);
    var r := q % TWO_32;
    if r < TWO_31 {
      DivUnique(q + TWO_31, TWO_32, q / TWO_32, r + TWO_31);
    } else {
      DivUnique(q + TWO_31, TWO_32, q / TWO_32 + 1, r - TWO_31);
    }
  }

  lemma BitsFit(cfg: Config)
    requires Fits(cfg)
    ensures cfg.ChunkCount() <= 8 * BytesFor(cfg.ChunkCount()) <= TWO_31
  {
    hide Config.ChunkCount;
  }

  /** Exactly which piece messages index inside the completed bitfield: those whose offset, counted in chunks modulo
      2^32, lies below the number of its bits. Nothing else about the fields is tested before the bit is read. */
  lemma InsideIff(cfg: Config, index: nat, begin: nat)
    requires Fits(cfg)
    ensures Inside(cfg, ChunkAt(cfg, index, begin))
       <==> WireOffset(cfg, index, begin) / cfg.chunkSize % TWO_32 < 8 * BytesFor(cfg.ChunkCount())
  {
    BitsFit(cfg);
    hide Config.ChunkCount;
    hide WireOffset;
    CutToInt(WireOffset(cfg, index, begin) / cfg.chunkSize, 8 * BytesFor(cfg.ChunkCount()));
    hide Int32;
  }

  /** For an index below 2^31 and an offset of fewer than 2^32 chunks: the offset lies below the last byte's end. */
  lemma PlainInsideIff(cfg: Config, index: nat, begin: nat)
    requires Fits(cfg) && index < TWO_31 && begin < TWO_32
    requires cfg.PieceOffset(index) + begin < cfg.chunkSize * TWO_32
    ensures Inside(cfg, ChunkAt(cfg, index, begin))
       <==> cfg.PieceOffset(index) + begin < cfg.chunkSize * (8 * BytesFor(cfg.ChunkCount()))
  {
    hide Config.ChunkCount;
    hide Config.PieceCount;
    hide Config.PieceOffset;
    hide ChunkAt;
    hide WireOffset;
    hide Inside;
    hide BytesFor;
    PlainOffset(cfg, index, begin);
    InsideIff(cfg, index, begin);
    var offset, n := cfg.PieceOffset(index) + begin, 8 * BytesFor(cfg.ChunkCount());
    BelowModulus(offset, cfg.chunkSize, n);
  }

  lemma QuotientBelow(x: nat, d: nat, n: nat)
    requires d > 0
    ensures x / d < n <==> x < d * n
  {
    DivParts(x, d);
    if x / d < n {
      MulMonotone(d, x / d + 1, n);
      MulSum(d, x / d, 1);
    } else {
      MulMonotone(d, n, x / d);
    }
  }

  lemma BelowModulus(x: nat, d: nat, n: nat)
    requires d > 0 && x < d * TWO_32
    ensures x / d % TWO_32 < n <==> x < d * n
  {
    QuotientBelow(x, d, TWO_32);
    QuotientBelow(x, d, n);
    DivUnique(x / d, TWO_32, 0, x / d);
  }

  /** A chunk of the torrent is always inside. */
  lemma ChunksAreInside(cfg: Config, chunk: nat)
    requires Fits(cfg) && chunk < cfg.ChunkCount()
    ensures var r := RequestFor(cfg, chunk); ChunkAt(cfg, r.index, r.begin) == chunk && Inside(cfg, chunk)
  {
    hide RequestFor;
    hide WireOffset;
    hide Int32;
    hide BytesFor;
    hide Config.ChunkCount;
    hide Config.PieceCount;
    hide Config.PieceOffset;
    var r := RequestFor(cfg, chunk);
    PlainOffset(cfg, r.index, r.begin);
    DivUnique(cfg.ChunkOffset(chunk), cfg.chunkSize, chunk, 0);
    BitsFit(cfg);
    CutToInt(chunk, TWO_31);
    DivUnique(chunk, TWO_32, 0, chunk);
  }

  /** A peer can send others: a block for the second piece of a torrent of one octet asks for a bit past the
      bitfield. */
  lemma MessageOutside()
    ensures var cfg := Config(262144, 16384, 1); Fits(cfg) && !Inside(cfg, ChunkAt(cfg, 1, 0))
  {
    var cfg := Config(262144, 16384, 1);
    PlainInsideIff(cfg, 1, 0);
  }

  /** And a block for a piece that does not exist can be taken for a chunk that does: the number of the chunk is cut
      to 32 bits. */
  lemma MessageAliases(size: nat)
    requires 0 < size < TWO_31
    ensures var cfg := Config(262144, 16384, size);
            Fits(cfg) && cfg.PieceCount() <= 0x1000_0000 && ChunkAt(cfg, 0x1000_0000, 0) == 0 && Inside(cfg, 0)
  {
    var cfg := Config(262144, 16384, size);
    PlainOffset(cfg, 0x1000_0000, 0);
    cfg.ChunkExists(0);
    BitsFit(cfg);
  }

  /** torrent_process_data_chunk, up to the announcement of a finished piece. */
  method ProcessDataChunk(td: TorrentData, msg: seq<byte>) returns (finished: bool)
    requires td.Valid() && |msg| >= 13 && td.cfg.pieceSize <= TWO_32 - 64
    requires var (index, begin, _) := ParsePiece(msg); Inside(td.cfg, ChunkAt(td.cfg, index, begin))
    modifies td, td.completed.bytes, td.data, td.data.buckets
    ensures td.Valid()
    ensures var (index, begin, block) := ParsePiece(msg);
            && ChunkAt(td.cfg, index, begin) < |old(td.Abs()).completed|
            && (td.Abs(), finished) == Write(td.TheSetup(), old(td.Abs()), ChunkAt(td.cfg, index, begin), block)
  {
    assert td.cfg.chunkSize > 0;
    hide TorrentData.Valid;
    hide TorrentData.Abs;
    hide Write;
    hide ParsePiece;
    var (index, begin, block) := ParsePiece(msg);
    hide ChunkAt;
    finished := td.WriteChunk(ChunkAt(td.cfg, index, begin), block);
  }

  /** The reply to a request, received: the chunk that was asked for is written with the bytes of the seeder's files. */
  lemma ReplyIsWritten(setup: Setup, s: State, disk: seq<byte>, chunk: nat, reply: seq<byte>)
    requires setup.Valid() && Fits(setup.cfg) && chunk < setup.cfg.ChunkCount() <= |s.completed|
    requires setup.cfg.dataSize <= |disk|
    requires Answers(setup.cfg, disk, RequestMessage(RequestFor(setup.cfg, chunk)), reply)
    ensures |reply| >= 13
    ensures var (index, begin, block) := ParsePiece(reply);
            && ChunkAt(setup.cfg, index, begin) == chunk && Inside(setup.cfg, chunk)
            && Write(setup, s, chunk, block) == Write(setup, s, chunk, ChunkBytes(setup.cfg, disk, chunk))
  {
    RequestReplyRoundTrip(setup.cfg, disk, chunk, reply);
    ChunksAreInside(setup.cfg, chunk);
    hide Write;
    hide ChunkBytes;
    hide ParsePiece;
    hide Answers;
    hide ChunkAt;
  }
}

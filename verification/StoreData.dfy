/** What the files hold after every sequence of operations: the torrent, piece by piece. */
module StoreData {
  import opened Bytes
  import opened Geometry
  import opened Completion
  import opened Files
  import opened Decimal
  import opened Store

  /** The data that each chunk got: the first write to it with the length that the chunk has. */
  type Accepted = map<nat, seq<byte>>

  function Accept(cfg: Config, acc: Accepted, op: Op): Accepted
    requires cfg.chunkSize > 0
  {
    if op.WriteOp? && op.chunk < cfg.ChunkCount() && |op.data| == cfg.ChunkLength(op.chunk) && op.chunk !in acc
    then acc[op.chunk := op.data]
    else acc
  }

  function FirstAccepted(cfg: Config, ops: seq<Op>): Accepted
    requires cfg.chunkSize > 0
  {
    if ops == [] then map[] else Accept(cfg, FirstAccepted(cfg, ops[..|ops| - 1]), ops[|ops| - 1])
  }

  /** The byte of the torrent at a position, zero where nothing has been accepted. */
  function ImageAt(cfg: Config, acc: Accepted, pos: nat): byte
    requires cfg.chunkSize > 0
  {
    var c := pos / cfg.chunkSize;
    if c in acc && pos % cfg.chunkSize < |acc[c]| then acc[c][pos % cfg.chunkSize] else 0
  }

  function PieceImage(cfg: Config, acc: Accepted, piece: nat): (image: seq<byte>)
    requires cfg.chunkSize > 0
    ensures |image| == cfg.pieceSize
    ensures forall i :: 0 <= i < |image| ==> image[i] == ImageAt(cfg, acc, cfg.PieceOffset(piece) + i)
  {
    seq(cfg.pieceSize, i requires 0 <= i => ImageAt(cfg, acc, cfg.PieceOffset(piece) + i))
  }

  /** Every chunk of the piece has been accepted. */
  ghost predicate Full(cfg: Config, acc: Accepted, piece: nat)
    requires cfg.Valid()
  {
    forall c :: 0 <= c < cfg.ChunkCount() && cfg.ChunkPiece(c) == piece ==> c in acc
  }

  ghost predicate Touched(cfg: Config, acc: Accepted, piece: nat)
    requires cfg.Valid()
  {
    exists c :: c in acc && cfg.ChunkPiece(c) == piece
  }

  /** A piece goes to the files when all of its chunks are in and its hash agrees. */
  ghost predicate Flushed(setup: Setup, acc: Accepted, piece: nat)
    requires setup.Valid()
  {
    && Full(setup.cfg, acc, piece)
    && 0 <= setup.cfg.PieceLength(piece) <= setup.cfg.pieceSize
    && Validates(setup, piece, PieceImage(setup.cfg, acc, piece)[..setup.cfg.PieceLength(piece)])
  }

  ghost function FlushedCount(setup: Setup, acc: Accepted, n: nat): nat
    requires setup.Valid()
  {
    if n == 0 then 0 else FlushedCount(setup, acc, n - 1) + if Flushed(setup, acc, n - 1) then 1 else 0
  }

  function AcceptedBytes(cfg: Config, acc: Accepted, n: nat): int {
    if n == 0 then 0 else AcceptedBytes(cfg, acc, n - 1) + if n - 1 in acc then cfg.ChunkLength(n - 1) else 0
  }

  /** The byte that a position of the files should have. */
  ghost function DiskAt(setup: Setup, acc: Accepted, disk0: seq<byte>, pos: nat): byte
    requires setup.Valid() && pos < |disk0|
  {
    if pos < setup.cfg.dataSize && Flushed(setup, acc, pos / setup.cfg.pieceSize) then ImageAt(setup.cfg, acc, pos)
    else disk0[pos]
  }

  ghost predicate AccOk(setup: Setup, s: State, acc: Accepted)
    requires setup.Valid()
  {
    && Padded(setup.cfg, s.completed)
    && (forall c :: c in acc ==> c < setup.cfg.ChunkCount() && |acc[c]| == setup.cfg.ChunkLength(c))
    && (forall c :: 0 <= c < setup.cfg.ChunkCount() ==> (s.completed[c] <==> c in acc))
  }

  /** A buffered piece holds exactly its accepted chunks. */
  ghost predicate BuffersOk(setup: Setup, s: State, acc: Accepted)
    requires setup.Valid()
  {
    forall p: nat :: p < setup.cfg.PieceCount() ==> BufferOk(setup, s, acc, p)
  }

  ghost predicate BufferOk(setup: Setup, s: State, acc: Accepted, p: nat)
    requires setup.Valid()
  {
    && (PieceKey(p) in s.buffers <==> Touched(setup.cfg, acc, p) && !Flushed(setup, acc, p))
    && (PieceKey(p) in s.buffers ==> s.buffers[PieceKey(p)] == PieceImage(setup.cfg, acc, p))
  }

  ghost predicate DiskOk(setup: Setup, s: State, acc: Accepted, disk0: seq<byte>)
    requires setup.Valid()
  {
    && |s.disk| == |disk0|
    && forall pos :: 0 <= pos < |disk0| ==> s.disk[pos] == DiskAt(setup, acc, disk0, pos)
  }

  ghost predicate CountsOk(setup: Setup, s: State, acc: Accepted)
    requires setup.Valid()
  {
    && s.completedPieces == FlushedCount(setup, acc, setup.cfg.PieceCount())
    && s.downloaded == AcceptedBytes(setup.cfg, acc, setup.cfg.ChunkCount())
    && s.downloaded + s.left == setup.cfg.dataSize
    && (setup.cfg.PieceCount() > 0 && s.completedPieces == setup.cfg.PieceCount() ==> !s.needed)
  }

  ghost predicate DataInv(setup: Setup, s: State, acc: Accepted, disk0: seq<byte>)
    requires setup.Valid()
  {
    AccOk(setup, s, acc) && BuffersOk(setup, s, acc) && DiskOk(setup, s, acc, disk0) && CountsOk(setup, s, acc)
  }

  // --- accepting one chunk ------------------------------------------------------------------------------

  /** A position belongs to a chunk exactly when it lies in the chunk's range. */
  lemma InChunk(cfg: Config, pos: nat, c: nat, len: nat)
    requires cfg.chunkSize > 0 && len <= cfg.chunkSize
    ensures pos / cfg.chunkSize == c && pos % cfg.chunkSize < len <==>
            cfg.ChunkOffset(c) <= pos < cfg.ChunkOffset(c) + len
    ensures pos / cfg.chunkSize == c ==> pos % cfg.chunkSize == pos - cfg.ChunkOffset(c)
  {
    DivParts(pos, cfg.chunkSize);
    if cfg.ChunkOffset(c) <= pos < cfg.ChunkOffset(c) + len {
      DivUnique(pos, cfg.chunkSize, c, pos - cfg.ChunkOffset(c));
    }
  }

  lemma ImageAfter(cfg: Config, acc: Accepted, c: nat, data: seq<byte>, pos: nat)
    requires cfg.chunkSize > 0 && c !in acc && |data| <= cfg.chunkSize
    ensures ImageAt(cfg, acc[c := data], pos)
         == if cfg.ChunkOffset(c) <= pos < cfg.ChunkOffset(c) + |data| then data[pos - cfg.ChunkOffset(c)]
            else ImageAt(cfg, acc, pos)
  {
    InChunk(cfg, pos, c, |data|);
  }

  /** A piece that the chunk does not belong to keeps its image and its status. */
  lemma OtherPiece(setup: Setup, acc: Accepted, c: nat, data: seq<byte>, p: nat)
    requires setup.Valid() && c !in acc && |data| <= setup.cfg.chunkSize && p != setup.cfg.ChunkPiece(c)
    ensures PieceImage(setup.cfg, acc[c := data], p) == PieceImage(setup.cfg, acc, p)
    ensures Full(setup.cfg, acc[c := data], p) == Full(setup.cfg, acc, p)
    ensures Touched(setup.cfg, acc[c := data], p) == Touched(setup.cfg, acc, p)
    ensures Flushed(setup, acc[c := data], p) == Flushed(setup, acc, p)
  {
    hide Validates;
    var cfg, acc' := setup.cfg, acc[c := data];
    forall i | 0 <= i < cfg.pieceSize
      ensures PieceImage(cfg, acc', p)[i] == PieceImage(cfg, acc, p)[i]
    {
      var pos := cfg.PieceOffset(p) + i;
      ImageAfter(cfg, acc, c, data, pos);
      InChunk(cfg, pos, c, cfg.chunkSize);
      if cfg.ChunkOffset(c) <= pos < cfg.ChunkOffset(c) + |data| {
        cfg.PositionIsIn(pos);
        cfg.ChunkIsIn(c);
        DivUnique(pos, cfg.pieceSize, p, i);
        assert false;
      }
    }
    assert PieceImage(cfg, acc', p) == PieceImage(cfg, acc, p);
    if Touched(cfg, acc, p) {
      var d :| d in acc && cfg.ChunkPiece(d) == p;
      assert d in acc' && cfg.ChunkPiece(d) == p;
    }
  }

  /** Copying the chunk into the old image of its piece gives the new image. */
  lemma OwnPiece(cfg: Config, acc: Accepted, c: nat, data: seq<byte>)
    requires cfg.Valid() && c !in acc && |data| <= cfg.chunkSize
    ensures cfg.PieceOffset(cfg.ChunkPiece(c)) <= cfg.ChunkOffset(c)
    ensures Splat(PieceImage(cfg, acc, cfg.ChunkPiece(c)),
                  cfg.ChunkOffset(c) - cfg.PieceOffset(cfg.ChunkPiece(c)), data)
         == PieceImage(cfg, acc[c := data], cfg.ChunkPiece(c))
  {
    cfg.ChunkIsIn(c);
    var p := cfg.ChunkPiece(c);
    var at := cfg.ChunkOffset(c) - cfg.PieceOffset(p);
    var old', new' := Splat(PieceImage(cfg, acc, p), at, data), PieceImage(cfg, acc[c := data], p);
    forall i | 0 <= i < cfg.pieceSize
      ensures old'[i] == new'[i]
    {
      ImageAfter(cfg, acc, c, data, cfg.PieceOffset(p) + i);
    }
  }

  lemma PositionInPiece(cfg: Config, p: nat, i: nat)
    requires cfg.Valid() && i < cfg.pieceSize
    ensures (cfg.PieceOffset(p) + i) / cfg.pieceSize == p
    ensures cfg.ChunkPiece((cfg.PieceOffset(p) + i) / cfg.chunkSize) == p
  {
    var pos := cfg.PieceOffset(p) + i;
    cfg.PositionIsIn(pos);
    cfg.ChunkIsIn(pos / cfg.chunkSize);
    DivUnique(pos, cfg.pieceSize, p, i);
  }

  /** A piece of which nothing was accepted is all zeros. */
  lemma UntouchedImage(cfg: Config, acc: Accepted, p: nat)
    requires cfg.Valid() && !Touched(cfg, acc, p)
    ensures PieceImage(cfg, acc, p) == seq(cfg.pieceSize, _ => 0)
  {
    hide Config.ChunkPiece;
    forall i | 0 <= i < cfg.pieceSize
      ensures PieceImage(cfg, acc, p)[i] == 0
    {
      PositionInPiece(cfg, p, i);
      assert (cfg.PieceOffset(p) + i) / cfg.chunkSize !in acc;
    }
  }

  lemma AssembledIs(setup: Setup, s: State, acc: Accepted, c: nat, data: seq<byte>)
    requires setup.Valid() && BuffersOk(setup, s, acc) && !Full(setup.cfg, acc, setup.cfg.ChunkPiece(c))
    requires c < setup.cfg.ChunkCount() && c !in acc && |data| <= setup.cfg.chunkSize
    ensures Assembled(setup, s, c, data) == PieceImage(setup.cfg, acc[c := data], setup.cfg.ChunkPiece(c))
  {
    hide Full;
    hide Validates;
    var p := setup.cfg.ChunkPiece(c);
    setup.cfg.ChunkInside(c);
    assert BufferOk(setup, s, acc, p);
    if !Touched(setup.cfg, acc, p) {
      UntouchedImage(setup.cfg, acc, p);
    }
    assert Buffered(setup, s, p) == PieceImage(setup.cfg, acc, p);
    OwnPiece(setup.cfg, acc, c, data);
  }

  /** The byte-wise test fires exactly when the chunk makes its piece full. */
  lemma JustDoneIs(setup: Setup, s: State, acc: Accepted, c: nat, data: seq<byte>)
    requires setup.Valid() && setup.cfg.Aligned() && AccOk(setup, s, acc)
    requires c < setup.cfg.ChunkCount() && c !in acc
    ensures c < |s.completed| && !Full(setup.cfg, acc, setup.cfg.ChunkPiece(c))
    ensures JustDone(setup, s, c) <==> Full(setup.cfg, acc[c := data], setup.cfg.ChunkPiece(c))
  {
    var cfg, p := setup.cfg, setup.cfg.ChunkPiece(c);
    var bits := s.completed[c := true];
    hide Config.ChunkPiece;
    hide Config.ChunkCount;
    hide ByteTest;
    assert Padded(cfg, bits);
    ByteTestExact(cfg, bits, p);
    ByteTestExact(cfg, s.completed, p);
    assert !PieceDone(cfg, s.completed, p);
    assert PieceDone(cfg, bits, p) <==> Full(cfg, acc[c := data], p);
  }

  /** torrent_data_write_chunk on data that it accepts, in terms of the accepted chunks. */
  lemma WriteOutcome(setup: Setup, s: State, acc: Accepted, disk0: seq<byte>, c: nat, data: seq<byte>)
    requires setup.Valid() && setup.cfg.Aligned() && DataInv(setup, s, acc, disk0) && setup.cfg.dataSize <= |disk0|
    requires c < setup.cfg.ChunkCount() && c !in acc && |data| == setup.cfg.ChunkLength(c)
    ensures c < |s.completed| && 0 < setup.cfg.PieceLength(setup.cfg.ChunkPiece(c)) <= setup.cfg.pieceSize
    ensures var p, acc' := setup.cfg.ChunkPiece(c), acc[c := data];
            var flushed := Flushed(setup, acc', p);
            && PieceSpan(setup.cfg, p) == setup.cfg.PieceLength(p)
            && Write(setup, s, c, data) == Settle(setup, s, c, |data|, PieceImage(setup.cfg, acc', p), flushed)
            && Covered(|s.disk|, setup.cfg.PieceOffset(p), setup.cfg.PieceLength(p)) == setup.cfg.PieceLength(p)
  {
    var cfg, p := setup.cfg, setup.cfg.ChunkPiece(c);
    cfg.ChunkExists(c);
    cfg.ChunkInside(c);
    cfg.PieceExists(p);
    JustDoneIs(setup, s, acc, c, data);
    AssembledIs(setup, s, acc, c, data);
    assert Covered(|s.disk|, cfg.PieceOffset(p), cfg.PieceLength(p)) == cfg.PieceLength(p);
    assert Accepts(setup, s, c, data);
    hide DataInv;
    hide Settle;
    hide Accepts;
    hide Covered;
    hide Assembled;
    hide JustDone;
    hide Full;
    hide Validates;
    hide PieceImage;
    hide Config.ChunkPiece;
    hide Config.ChunkCount;
    hide Config.PieceCount;
    hide Config.ChunkLength;
    hide Config.PieceLength;
  }

  lemma AccAfter(setup: Setup, s: State, acc: Accepted, c: nat, data: seq<byte>, s': State)
    requires setup.Valid() && AccOk(setup, s, acc) && c < setup.cfg.ChunkCount() && |data| == setup.cfg.ChunkLength(c)
    requires c < |s.completed| && s'.completed == s.completed[c := true]
    ensures AccOk(setup, s', acc[c := data])
  {
    hide Config.ChunkCount;
    hide Config.ChunkLength;
  }

  lemma BuffersAfter(setup: Setup, s: State, acc: Accepted, c: nat, data: seq<byte>, s': State)
    requires setup.Valid() && BuffersOk(setup, s, acc)
    requires c < setup.cfg.ChunkCount() && c !in acc && |data| <= setup.cfg.chunkSize
    requires var p := setup.cfg.ChunkPiece(c);
             s'.buffers == if Flushed(setup, acc[c := data], p) then s.buffers - {PieceKey(p)}
                           else s.buffers[PieceKey(p) := PieceImage(setup.cfg, acc[c := data], p)]
    ensures BuffersOk(setup, s', acc[c := data])
  {
    var acc', p := acc[c := data], setup.cfg.ChunkPiece(c);
    hide Config.ChunkPiece;
    hide Flushed;
    hide PieceImage;
    assert Touched(setup.cfg, acc', p) by { assert c in acc' && setup.cfg.ChunkPiece(c) == p; }
    forall q: nat | q < setup.cfg.PieceCount()
      ensures BufferOk(setup, s', acc', q)
    {
      if q != p {
        assert BufferOk(setup, s, acc, q);
        OtherPiece(setup, acc, c, data, q);
        if PieceKey(q) == PieceKey(p) {
          NatTextInjective(q, p);
        }
      }
    }
  }

  /** A position of another piece, or beyond the data, is expected to stay as it is; one of this piece gets its image
      once the piece is flushed. */
  lemma DiskAtAfter(setup: Setup, acc: Accepted, disk0: seq<byte>, c: nat, data: seq<byte>, pos: nat)
    requires setup.Valid() && c !in acc && |data| <= setup.cfg.chunkSize && pos < |disk0|
    requires !Full(setup.cfg, acc, setup.cfg.ChunkPiece(c))
    ensures var p, acc' := setup.cfg.ChunkPiece(c), acc[c := data];
            DiskAt(setup, acc', disk0, pos) ==
              if pos < setup.cfg.dataSize && pos / setup.cfg.pieceSize == p && Flushed(setup, acc', p)
              then ImageAt(setup.cfg, acc', pos) else DiskAt(setup, acc, disk0, pos)
  {
    var cfg, p := setup.cfg, setup.cfg.ChunkPiece(c);
    var q := pos / cfg.pieceSize;
    if q != p {
      OtherPiece(setup, acc, c, data, q);
      DivParts(pos, cfg.pieceSize);
      var i := pos % cfg.pieceSize;
      assert PieceImage(cfg, acc, q)[i] == PieceImage(cfg, acc[c := data], q)[i];
      assert pos == cfg.PieceOffset(q) + i;
    }
  }

  lemma DiskAfter(setup: Setup, s: State, acc: Accepted, disk0: seq<byte>, c: nat, data: seq<byte>, s': State)
    requires setup.Valid() && DiskOk(setup, s, acc, disk0) && setup.cfg.dataSize <= |disk0|
    requires c < setup.cfg.ChunkCount() && c !in acc && |data| <= setup.cfg.chunkSize
    requires !Full(setup.cfg, acc, setup.cfg.ChunkPiece(c))
    requires 0 < setup.cfg.PieceLength(setup.cfg.ChunkPiece(c)) <= setup.cfg.pieceSize
    requires var p, acc' := setup.cfg.ChunkPiece(c), acc[c := data];
             s'.disk == if !Flushed(setup, acc', p) then s.disk
                        else Splat(s.disk, setup.cfg.PieceOffset(p),
                                   PieceImage(setup.cfg, acc', p)[..setup.cfg.PieceLength(p)])
    ensures DiskOk(setup, s', acc[c := data], disk0)
  {
    hide Config.ChunkPiece;
    hide Config.ChunkCount;
    hide Config.PieceOffset;
    hide Config.PieceLength;
    hide Flushed;
    hide Full;
    hide DiskAt;
    hide PieceImage;
    hide Splat;
    forall pos: nat | pos < |disk0|
      ensures s'.disk[pos] == DiskAt(setup, acc[c := data], disk0, pos)
    {
      DiskByteAfter(setup, s, acc, disk0, c, data, s', pos);
    }
  }

  lemma DiskByteAfter(setup: Setup, s: State, acc: Accepted, disk0: seq<byte>, c: nat, data: seq<byte>, s': State,
                      pos: nat)
    requires setup.Valid() && |s.disk| == |disk0| && setup.cfg.dataSize <= |disk0|
    requires pos < |disk0| && s.disk[pos] == DiskAt(setup, acc, disk0, pos)
    requires c < setup.cfg.ChunkCount() && c !in acc && |data| <= setup.cfg.chunkSize
    requires !Full(setup.cfg, acc, setup.cfg.ChunkPiece(c))
    requires 0 < setup.cfg.PieceLength(setup.cfg.ChunkPiece(c)) <= setup.cfg.pieceSize
    requires var p, acc' := setup.cfg.ChunkPiece(c), acc[c := data];
             s'.disk == if !Flushed(setup, acc', p) then s.disk
                        else Splat(s.disk, setup.cfg.PieceOffset(p),
                                   PieceImage(setup.cfg, acc', p)[..setup.cfg.PieceLength(p)])
    ensures |s'.disk| == |disk0| && s'.disk[pos] == DiskAt(setup, acc[c := data], disk0, pos)
  {
    hide Config.ChunkPiece;
    hide Config.ChunkCount;
    hide Flushed;
    hide Full;
    hide DiskAt;
    hide ImageAt;
    DiskAtAfter(setup, acc, disk0, c, data, pos);
    InPieceRange(setup.cfg, setup.cfg.ChunkPiece(c), pos);
    hide Config.PieceOffset;
    hide Config.PieceLength;
  }

  /** A position before the end of the data lies in a piece exactly when it lies in the piece's range. */
  lemma InPieceRange(cfg: Config, p: nat, pos: nat)
    requires cfg.pieceSize > 0
    ensures pos < cfg.dataSize && pos / cfg.pieceSize == p
       <==> cfg.PieceOffset(p) <= pos < cfg.PieceOffset(p) + cfg.PieceLength(p)
  {
    DivParts(pos, cfg.pieceSize);
    if cfg.PieceOffset(p) <= pos < cfg.PieceOffset(p) + cfg.PieceLength(p) {
      DivUnique(pos, cfg.pieceSize, p, pos - cfg.PieceOffset(p));
    }
  }

  lemma {:induction false} BytesAfter(cfg: Config, acc: Accepted, c: nat, data: seq<byte>, n: nat)
    requires c !in acc
    ensures AcceptedBytes(cfg, acc[c := data], n) ==
            AcceptedBytes(cfg, acc, n) + if c < n then cfg.ChunkLength(c) else 0
  {
    if n > 0 {
      BytesAfter(cfg, acc, c, data, n - 1);
    }
  }

  lemma {:induction false} CountAfter(setup: Setup, acc: Accepted, c: nat, data: seq<byte>, n: nat)
    requires setup.Valid() && c !in acc && |data| <= setup.cfg.chunkSize
    requires !Full(setup.cfg, acc, setup.cfg.ChunkPiece(c))
    ensures FlushedCount(setup, acc[c := data], n) == FlushedCount(setup, acc, n)
              + if setup.cfg.ChunkPiece(c) < n && Flushed(setup, acc[c := data], setup.cfg.ChunkPiece(c)) then 1 else 0
  {
    hide Config.ChunkPiece;
    hide Validates;
    hide PieceImage;
    if n > 0 {
      CountAfter(setup, acc, c, data, n - 1);
      if n - 1 != setup.cfg.ChunkPiece(c) {
        OtherPiece(setup, acc, c, data, n - 1);
      }
    }
  }

  lemma WriteKeepsData(setup: Setup, s: State, acc: Accepted, disk0: seq<byte>, c: nat, data: seq<byte>)
    requires setup.Valid() && setup.cfg.Aligned() && DataInv(setup, s, acc, disk0) && setup.cfg.dataSize <= |disk0|
    requires c < setup.cfg.ChunkCount() && c !in acc && |data| == setup.cfg.ChunkLength(c)
    ensures c < |s.completed| && DataInv(setup, Write(setup, s, c, data).0, acc[c := data], disk0)
  {
    var cfg, p := setup.cfg, setup.cfg.ChunkPiece(c);
    WriteOutcome(setup, s, acc, disk0, c, data);
    cfg.ChunkExists(c);
    cfg.ChunkInside(c);
    JustDoneIs(setup, s, acc, c, data);
    hide Write;
    hide Full;
    hide Flushed;
    hide Covered;
    hide Config.ChunkPiece;
    hide Config.ChunkLength;
    hide Config.ChunkCount;
    hide Config.PieceCount;
    hide Config.PieceLength;
    hide BuffersOk;
    hide AccOk;
    hide DiskOk;
    hide Splat;
    hide PieceImage;
    hide FlushedCount;
    hide AcceptedBytes;
    var s' := Write(setup, s, c, data).0;
    AccAfter(setup, s, acc, c, data, s');
    BuffersAfter(setup, s, acc, c, data, s');
    DiskAfter(setup, s, acc, disk0, c, data, s');
    BytesAfter(cfg, acc, c, data, cfg.ChunkCount());
    CountAfter(setup, acc, c, data, cfg.PieceCount());
  }

  // --- every run ----------------------------------------------------------------------------------------

  lemma NothingAccepted(setup: Setup, n: nat)
    requires setup.Valid() && n <= setup.cfg.PieceCount()
    ensures FlushedCount(setup, map[], n) == 0
  {
    if n > 0 {
      NothingAccepted(setup, n - 1);
      EmptyPiece(setup, n - 1);
    }
  }

  lemma EmptyPiece(setup: Setup, p: nat)
    requires setup.Valid() && p < setup.cfg.PieceCount()
    ensures !Full(setup.cfg, map[], p)
  {
    var cfg := setup.cfg;
    cfg.PieceExists(p);
    PositionInPiece(cfg, p, 0);
    var c := cfg.PieceOffset(p) / cfg.chunkSize;
    DivParts(cfg.PieceOffset(p), cfg.chunkSize);
    cfg.ChunkExists(c);
    assert cfg.ChunkPiece(c) == p && c < cfg.ChunkCount();
  }

  lemma {:induction false} NoBytes(cfg: Config, n: nat)
    ensures AcceptedBytes(cfg, map[], n) == 0
  {
    if n > 0 {
      NoBytes(cfg, n - 1);
    }
  }

  lemma InitDisk(setup: Setup, disk: seq<byte>, pos: nat)
    requires setup.Valid() && pos < |disk|
    ensures DiskAt(setup, map[], disk, pos) == disk[pos]
  {
    var cfg := setup.cfg;
    if pos < cfg.dataSize {
      DivParts(pos, cfg.pieceSize);
      cfg.PieceExists(pos / cfg.pieceSize);
      EmptyPiece(setup, pos / cfg.pieceSize);
    }
  }

  lemma InitData(setup: Setup, disk: seq<byte>, needed: bool)
    requires setup.Valid()
    ensures DataInv(setup, Init(setup, disk, needed), map[], disk)
  {
    var cfg := setup.cfg;
    NothingAccepted(setup, cfg.PieceCount());
    NoBytes(cfg, cfg.ChunkCount());
    forall pos: nat | pos < |disk|
      ensures DiskAt(setup, map[], disk, pos) == disk[pos]
    {
      InitDisk(setup, disk, pos);
    }
    hide DiskAt;
    hide FlushedCount;
    hide AcceptedBytes;
    hide Config.PieceCount;
    hide Config.ChunkCount;
  }

  lemma StepKeepsData(setup: Setup, s: State, acc: Accepted, disk0: seq<byte>, op: Op)
    requires setup.Valid() && setup.cfg.Aligned() && Sized(setup, s) && OpValid(setup, op)
    requires DataInv(setup, s, acc, disk0) && setup.cfg.dataSize <= |disk0|
    ensures DataInv(setup, Step(setup, s, op), Accept(setup.cfg, acc, op), disk0)
  {
    match op
    case ClaimOp(interested, timeout, clock, num) =>
      ClaimKeepsSize(s, interested, timeout, setup.cfg.ChunkCount(), clock, num);
      OtherFields(setup, s, Step(setup, s, op), acc, disk0);
    case ReleaseOp(clock) =>
      OtherFields(setup, s, Step(setup, s, op), acc, disk0);
    case WriteOp(c, data) =>
      if c < setup.cfg.ChunkCount() && |data| == setup.cfg.ChunkLength(c) && c !in acc {
        WriteKeepsData(setup, s, acc, disk0, c, data);
      } else {
        assert !Accepts(setup, s, c, data);
      }
  }

  lemma OtherFields(setup: Setup, s: State, s': State, acc: Accepted, disk0: seq<byte>)
    requires setup.Valid() && DataInv(setup, s, acc, disk0)
    requires s' == s.(claimed := s'.claimed, claims := s'.claims)
    ensures DataInv(setup, s', acc, disk0)
  {
    forall p: nat | p < setup.cfg.PieceCount()
      ensures BufferOk(setup, s', acc, p)
    {
      assert BufferOk(setup, s, acc, p);
    }
  }

  /** After every sequence of claims, releases and writes, in any order and with duplicates, the store is the one
      that the first accepted writes determine. */
  lemma {:induction false} RunMeansFirstAccepted(setup: Setup, disk: seq<byte>, needed: bool, ops: seq<Op>)
    requires setup.Valid() && setup.cfg.Aligned() && OpsValid(setup, ops) && setup.cfg.dataSize <= |disk|
    ensures Sized(setup, Init(setup, disk, needed))
    ensures DataInv(setup, Run(setup, Init(setup, disk, needed), ops), FirstAccepted(setup.cfg, ops), disk)
  {
    InitData(setup, disk, needed);
    if ops != [] {
      var front, op := ops[..|ops| - 1], ops[|ops| - 1];
      RunMeansFirstAccepted(setup, disk, needed, front);
      hide DataInv;
      StepKeepsData(setup, Run(setup, Init(setup, disk, needed), front), FirstAccepted(setup.cfg, front), disk, op);
    }
  }
}

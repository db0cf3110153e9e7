/** A whole download from seeders: the replies to requests, written in any order, make the files the seeders' files. */
module Downloads {
  import opened Bytes
  import opened Geometry
  import opened Store
  import opened StoreData
  import opened StoreTheorems
  import opened Requests
  import Sha1Spec

  /** A write that a reply of a seeder, whose files are `seed`, leads to. */
  ghost predicate IsReply(cfg: Config, seed: seq<byte>, op: Op, chunk: nat, reply: seq<byte>)
    requires Fits(cfg)
  {
    && op.WriteOp? && chunk < cfg.ChunkCount()
    && Answers(cfg, seed, RequestMessage(RequestFor(cfg, chunk)), reply)
    && Carries(cfg, reply, op.chunk, op.data)
  }

  /** Every write of the run comes from such a reply. */
  ghost predicate Seeded(cfg: Config, seed: seq<byte>, ops: seq<Op>)
    requires Fits(cfg)
  {
    forall i :: 0 <= i < |ops| && ops[i].WriteOp? ==>
        exists chunk: nat, reply :: IsReply(cfg, seed, ops[i], chunk, reply)
  }

  /** Some write of the run is for this chunk. */
  ghost predicate Arrived(ops: seq<Op>, chunk: nat) {
    exists i :: 0 <= i < |ops| && ops[i].WriteOp? && ops[i].chunk == chunk
  }

  lemma ReplyWrites(cfg: Config, seed: seq<byte>, op: Op, chunk: nat, reply: seq<byte>)
    requires Fits(cfg) && cfg.dataSize <= |seed| && IsReply(cfg, seed, op, chunk, reply)
    ensures op.chunk == chunk && op.data == ChunkBytes(cfg, seed, chunk)
  {
    RequestReplyRoundTrip(cfg, seed, chunk, reply);
    hide Answers;
    hide ParsePiece;
    hide ChunkBytes;
    hide ChunkAt;
  }

  /** The data of a chunk is the seeders' data. */
  ghost predicate IsSeed(cfg: Config, seed: seq<byte>, chunk: nat, data: seq<byte>) {
    && Fits(cfg) && cfg.dataSize <= |seed| && chunk < cfg.ChunkCount()
    && data == ChunkBytes(cfg, seed, chunk)
  }

  ghost predicate AllSeed(cfg: Config, seed: seq<byte>, acc: Accepted) {
    forall c :: c in acc ==> IsSeed(cfg, seed, c, acc[c])
  }

  /** The accepted data is the seeders' data, of every chunk that arrived. */
  ghost predicate SeedsData(cfg: Config, seed: seq<byte>, ops: seq<Op>, acc: Accepted) {
    AllSeed(cfg, seed, acc) && forall c :: c in acc <==> Arrived(ops, c)
  }

  lemma ArrivedSnoc(ops: seq<Op>, c: nat)
    requires ops != []
    ensures var op := ops[|ops| - 1];
            Arrived(ops, c) <==> Arrived(ops[..|ops| - 1], c) || (op.WriteOp? && op.chunk == c)
  {
    var front := ops[..|ops| - 1];
    assert forall i :: 0 <= i < |front| ==> front[i] == ops[i];
    if Arrived(ops, c) {
      var i :| 0 <= i < |ops| && ops[i].WriteOp? && ops[i].chunk == c;
      assert i < |front| ==> front[i] == ops[i];
    }
  }

  lemma SeededFront(cfg: Config, seed: seq<byte>, ops: seq<Op>)
    requires Fits(cfg) && Seeded(cfg, seed, ops) && ops != []
    ensures Seeded(cfg, seed, ops[..|ops| - 1])
  {
    hide IsReply;
    var front := ops[..|ops| - 1];
    assert forall i :: 0 <= i < |front| ==> front[i] == ops[i];
  }

  lemma WriteSeeds(cfg: Config, seed: seq<byte>, op: Op)
    requires Fits(cfg) && cfg.dataSize <= |seed| && op.WriteOp?
    requires exists chunk: nat, reply :: IsReply(cfg, seed, op, chunk, reply)
    ensures IsSeed(cfg, seed, op.chunk, op.data) && op.chunk < cfg.ChunkCount()
    ensures |op.data| == cfg.ChunkLength(op.chunk)
  {
    var chunk: nat, reply :| IsReply(cfg, seed, op, chunk, reply);
    ReplyWrites(cfg, seed, op, chunk, reply);
    hide Answers;
    hide Carries;
    hide RequestFor;
    hide Config.ChunkCount;
  }

  lemma AcceptSeeds(cfg: Config, seed: seq<byte>, op: Op, acc: Accepted)
    requires cfg.chunkSize > 0 && AllSeed(cfg, seed, acc)
    requires op.WriteOp? ==>
               && IsSeed(cfg, seed, op.chunk, op.data)
               && op.chunk < cfg.ChunkCount() && |op.data| == cfg.ChunkLength(op.chunk)
    ensures AllSeed(cfg, seed, Accept(cfg, acc, op))
    ensures forall c :: c in Accept(cfg, acc, op) <==> c in acc || (op.WriteOp? && op.chunk == c)
  {
    hide IsSeed;
    hide Config.ChunkCount;
    hide Config.ChunkLength;
  }

  lemma {:induction false} AcceptedIsSeeded(cfg: Config, seed: seq<byte>, ops: seq<Op>)
    requires Fits(cfg) && cfg.dataSize <= |seed| && Seeded(cfg, seed, ops)
    ensures SeedsData(cfg, seed, ops, FirstAccepted(cfg, ops))
  {
    hide IsReply;
    hide AllSeed;
    if ops != [] {
      var front, op := ops[..|ops| - 1], ops[|ops| - 1];
      SeededFront(cfg, seed, ops);
      AcceptedIsSeeded(cfg, seed, front);
      if op.WriteOp? {
        WriteSeeds(cfg, seed, op);
      }
      AcceptSeeds(cfg, seed, op, FirstAccepted(cfg, front));
      hide Accept;
      hide Fits;
      hide Seeded;
      hide IsSeed;
      forall c: nat
        ensures Arrived(ops, c) <==> Arrived(front, c) || (op.WriteOp? && op.chunk == c)
      {
        ArrivedSnoc(ops, c);
      }
      hide Arrived;
    } else {
      NoneSeeded(cfg, seed);
    }
  }

  lemma NoneSeeded(cfg: Config, seed: seq<byte>)
    ensures AllSeed(cfg, seed, map[])
  {
  }

  /** Where a chunk has arrived, the torrent reads as the seeders' files do. */
  lemma ImageIsSeed(cfg: Config, seed: seq<byte>, ops: seq<Op>, acc: Accepted, pos: nat)
    requires Fits(cfg) && cfg.dataSize <= |seed| && SeedsData(cfg, seed, ops, acc) && pos < cfg.dataSize
    requires pos / cfg.chunkSize in acc
    ensures ImageAt(cfg, acc, pos) == seed[pos]
  {
    hide Arrived;
    hide Config.ChunkCount;
    var c := pos / cfg.chunkSize;
    assert IsSeed(cfg, seed, c, acc[c]);
    DivParts(pos, cfg.chunkSize);
    RequestFields(cfg, c);
  }

  lemma FullIsSeed(cfg: Config, seed: seq<byte>, ops: seq<Op>, acc: Accepted, p: nat)
    requires Fits(cfg) && cfg.dataSize <= |seed| && SeedsData(cfg, seed, ops, acc) && Full(cfg, acc, p)
    requires p < cfg.PieceCount()
    ensures 0 < cfg.PieceLength(p) <= cfg.pieceSize && cfg.PieceOffset(p) + cfg.PieceLength(p) <= cfg.dataSize
    ensures PieceImage(cfg, acc, p)[..cfg.PieceLength(p)] == PieceOf(cfg, seed, p)
  {
    cfg.PieceExists(p);
    hide SeedsData;
    hide Fits;
    hide Config.PieceCount;
    var image, o, n := PieceImage(cfg, acc, p), cfg.PieceOffset(p), cfg.PieceLength(p);
    forall i: nat | i < n
      ensures image[i] == seed[o + i]
    {
      PositionArrived(cfg, acc, p, o + i);
      ImageIsSeed(cfg, seed, ops, acc, o + i);
    }
    hide ImageAt;
    assert image[..n] == seed[o..o + n];
  }

  /** In a full piece the chunk of every position is accepted. */
  lemma PositionArrived(cfg: Config, acc: Accepted, p: nat, pos: nat)
    requires cfg.Valid() && Full(cfg, acc, p) && pos < cfg.dataSize
    requires cfg.PieceOffset(p) <= pos < cfg.PieceOffset(p) + cfg.pieceSize
    ensures pos / cfg.chunkSize in acc
  {
    var c := pos / cfg.chunkSize;
    DivUnique(pos, cfg.pieceSize, p, pos - cfg.PieceOffset(p));
    cfg.PositionIsIn(pos);
    cfg.ChunkIsIn(c);
    DivParts(pos, cfg.chunkSize);
    cfg.ChunkExists(c);
    hide Config.ChunkCount;
  }

  /** A piece of the seeders' files. */
  function PieceOf(cfg: Config, seed: seq<byte>, p: nat): seq<byte>
    requires 0 <= cfg.PieceLength(p) && cfg.PieceOffset(p) + cfg.PieceLength(p) <= |seed|
  {
    seed[cfg.PieceOffset(p)..cfg.PieceOffset(p) + cfg.PieceLength(p)]
  }

  /** The hash list of the torrent is that of the seeders' pieces. */
  ghost predicate HashesOf(setup: Setup, seed: seq<byte>)
    requires setup.Valid() && setup.cfg.dataSize <= |seed|
  {
    setup.hashes.Some? ==>
      forall p: nat :: p < setup.cfg.PieceCount() ==> HashAt(setup.cfg, setup.hashes.value, seed, p)
  }

  ghost predicate HashAt(cfg: Config, hashes: seq<byte>, seed: seq<byte>, p: nat) {
    && 0 <= cfg.PieceLength(p) && cfg.PieceOffset(p) + cfg.PieceLength(p) <= |seed|
    && 20 * p + 20 <= |hashes| && hashes[20 * p..20 * p + 20] == Sha1Spec.Digest(PieceOf(cfg, seed, p))
  }

  /** A full piece always validates. */
  lemma FullIsFlushed(setup: Setup, seed: seq<byte>, ops: seq<Op>, acc: Accepted, p: nat)
    requires setup.Valid() && Fits(setup.cfg) && setup.cfg.dataSize <= |seed| && HashesOf(setup, seed)
    requires SeedsData(setup.cfg, seed, ops, acc) && p < setup.cfg.PieceCount()
    ensures Flushed(setup, acc, p) <==> Full(setup.cfg, acc, p)
  {
    if Full(setup.cfg, acc, p) {
      FullIsSeed(setup.cfg, seed, ops, acc, p);
      hide SeedsData;
      hide Fits;
      hide PieceImage;
      hide Full;
      hide Config.PieceCount;
      hide Sha1Spec.Digest;
      SameTextItself(Sha1Spec.Digest(PieceOf(setup.cfg, seed, p)));
      hide SameText;
      assert setup.hashes.Some? ==> HashAt(setup.cfg, setup.hashes.value, seed, p);
    }
  }

  lemma RightIsSeed(setup: Setup, seed: seq<byte>, ops: seq<Op>, acc: Accepted, s: State, disk: seq<byte>, pos: nat)
    requires setup.Valid() && pos < setup.cfg.dataSize && Flushed(setup, acc, pos / setup.cfg.pieceSize)
    requires setup.cfg.dataSize <= |disk| && ByteIsRight(setup, s, acc, disk, pos)
    requires setup.cfg.dataSize <= |seed| && Fits(setup.cfg) && SeedsData(setup.cfg, seed, ops, acc)
    ensures |s.disk| == |disk| && s.disk[pos] == seed[pos]
  {
    hide Flushed;
    hide SeedsData;
    hide Fits;
    ImageIsSeed(setup.cfg, seed, ops, acc, pos);
  }

  /** After every run whose writes are seeders' replies, in any order and with duplicates, each byte of a flushed
      piece is the seeders' byte. */
  lemma FlushedIsSeed(setup: Setup, seed: seq<byte>, disk: seq<byte>, needed: bool, ops: seq<Op>, pos: nat)
    requires setup.Valid() && pos < setup.cfg.dataSize <= |disk| && setup.cfg.dataSize <= |seed|
    requires Flushed(setup, FirstAccepted(setup.cfg, ops), pos / setup.cfg.pieceSize)
    requires setup.cfg.Aligned() && OpsValid(setup, ops) && Fits(setup.cfg) && Seeded(setup.cfg, seed, ops)
    ensures Sized(setup, Init(setup, disk, needed))
    ensures var s := Run(setup, Init(setup, disk, needed), ops);
            |s.disk| == |disk| && s.disk[pos] == seed[pos]
  {
    hide Run;
    hide Flushed;
    hide FirstAccepted;
    hide Seeded;
    hide SeedsData;
    hide OpsValid;
    hide Fits;
    hide Config.ChunkCount;
    hide Config.PieceCount;
    hide ByteIsRight;
    FilesAreTheTorrent(setup, disk, needed, ops, pos);
    AcceptedIsSeeded(setup.cfg, seed, ops);
    RightIsSeed(setup, seed, ops, FirstAccepted(setup.cfg, ops), Run(setup, Init(setup, disk, needed), ops), disk, pos);
  }

  /** With the hashes of the seeders' pieces, such a run is complete if and only if every chunk has arrived; and then
      nothing is left or needed and the files are the seeders' files. */
  lemma DownloadIsSeed(setup: Setup, seed: seq<byte>, disk: seq<byte>, needed: bool, ops: seq<Op>)
    requires setup.Valid() && setup.cfg.Aligned() && Fits(setup.cfg) && OpsValid(setup, ops)
    requires 0 < setup.cfg.dataSize <= |disk| && setup.cfg.dataSize <= |seed|
    requires Seeded(setup.cfg, seed, ops) && HashesOf(setup, seed)
    ensures Sized(setup, Init(setup, disk, needed))
    ensures var s := Run(setup, Init(setup, disk, needed), ops);
            && (s.completedPieces == setup.cfg.PieceCount() <==>
                forall c: nat :: c < setup.cfg.ChunkCount() ==> Arrived(ops, c))
            && (s.completedPieces == setup.cfg.PieceCount() ==>
                  && s.left == 0 && !s.needed && |s.disk| == |disk|
                  && s.disk[..setup.cfg.dataSize] == seed[..setup.cfg.dataSize])
  {
    hide Run;
    hide FirstAccepted;
    hide Flushed;
    hide Seeded;
    hide SeedsData;
    hide HashesOf;
    hide OpsValid;
    hide Fits;
    hide Arrived;
    hide ImageAt;
    hide Config.PieceCount;
    hide Config.ChunkCount;
    var cfg, acc := setup.cfg, FirstAccepted(setup.cfg, ops);
    CompleteMeansEverything(setup, disk, needed, ops);
    AcceptedIsSeeded(cfg, seed, ops);
    AllFlushedIff(setup, seed, ops, acc);
    var s := Run(setup, Init(setup, disk, needed), ops);
    if s.completedPieces == cfg.PieceCount() {
      AllImageIsSeed(cfg, seed, ops, acc);
    }
  }

  lemma AllImageIsSeed(cfg: Config, seed: seq<byte>, ops: seq<Op>, acc: Accepted)
    requires cfg.dataSize <= |seed| && Fits(cfg) && SeedsData(cfg, seed, ops, acc)
    requires forall c: nat :: c < cfg.ChunkCount() ==> Arrived(ops, c)
    ensures forall pos: nat :: pos < cfg.dataSize ==> ImageAt(cfg, acc, pos) == seed[pos]
  {
    hide ImageAt;
    hide Arrived;
    hide AllSeed;
    forall pos: nat | pos < cfg.dataSize
      ensures ImageAt(cfg, acc, pos) == seed[pos]
    {
      DivParts(pos, cfg.chunkSize);
      cfg.ChunkExists(pos / cfg.chunkSize);
      assert Arrived(ops, pos / cfg.chunkSize);
      ImageIsSeed(cfg, seed, ops, acc, pos);
    }
  }

  lemma AllFlushedIff(setup: Setup, seed: seq<byte>, ops: seq<Op>, acc: Accepted)
    requires setup.Valid() && Fits(setup.cfg) && setup.cfg.dataSize <= |seed| && HashesOf(setup, seed)
    requires SeedsData(setup.cfg, seed, ops, acc)
    ensures (forall p :: 0 <= p < setup.cfg.PieceCount() ==> Flushed(setup, acc, p))
       <==> forall c: nat :: c < setup.cfg.ChunkCount() ==> Arrived(ops, c)
  {
    forall p: nat | p < setup.cfg.PieceCount()
      ensures Flushed(setup, acc, p) <==> Full(setup.cfg, acc, p)
    {
      FullIsFlushed(setup, seed, ops, acc, p);
    }
    hide Arrived;
    hide ChunkBytes;
    hide HashesOf;
    if forall p :: 0 <= p < setup.cfg.PieceCount() ==> Flushed(setup, acc, p) {
      AllAccepted(setup, acc);
    }
    hide Flushed;
  }
}

/** Where the promises of the store end: pieces that do not validate, and sizes for which the files are not the
    torrent. */
module StoreLimits {
  import opened Bytes
  import opened Options
  import opened Geometry
  import opened Bitfields
  import opened Completion
  import opened Store
  import opened StoreData
  import opened StoreTheorems
  import Sha1Spec

  // --- a full piece is settled --------------------------------------------------------------------------

  /** Nothing that is accepted later changes a piece that has all of its chunks. */
  ghost predicate PieceKept(setup: Setup, acc: Accepted, acc': Accepted, p: nat)
    requires setup.Valid()
  {
    && Full(setup.cfg, acc', p)
    && (Flushed(setup, acc', p) <==> Flushed(setup, acc, p))
    && PieceImage(setup.cfg, acc', p) == PieceImage(setup.cfg, acc, p)
    && forall c :: c in acc ==> c in acc' && acc'[c] == acc[c]
  }

  lemma AcceptKeepsPiece(setup: Setup, acc: Accepted, op: Op, p: nat)
    requires setup.Valid() && Full(setup.cfg, acc, p)
    ensures PieceKept(setup, acc, Accept(setup.cfg, acc, op), p)
  {
    if Accept(setup.cfg, acc, op) != acc {
      setup.cfg.ChunkExists(op.chunk);
      OtherPiece(setup, acc, op.chunk, op.data, p);
    }
  }

  lemma {:induction false} RunKeepsPiece(setup: Setup, ops: seq<Op>, more: seq<Op>, p: nat)
    requires setup.Valid() && Full(setup.cfg, FirstAccepted(setup.cfg, ops), p)
    ensures PieceKept(setup, FirstAccepted(setup.cfg, ops), FirstAccepted(setup.cfg, ops + more), p)
  {
    hide Flushed;
    hide PieceImage;
    if more == [] {
      assert ops + more == ops;
    } else {
      var front, op := more[..|more| - 1], more[|more| - 1];
      RunKeepsPiece(setup, ops, front, p);
      assert (ops + more)[..|ops + more| - 1] == ops + front;
      AcceptKeepsPiece(setup, FirstAccepted(setup.cfg, ops + front), op, p);
    }
  }

  lemma DiskAtKept(setup: Setup, acc: Accepted, acc': Accepted, disk: seq<byte>, p: nat, pos: nat)
    requires setup.Valid() && PieceKept(setup, acc, acc', p) && pos < |disk| && pos / setup.cfg.pieceSize == p
    ensures DiskAt(setup, acc', disk, pos) == DiskAt(setup, acc, disk, pos)
  {
    hide Flushed;
    hide Full;
    DivParts(pos, setup.cfg.pieceSize);
    var i := pos % setup.cfg.pieceSize;
    assert PieceImage(setup.cfg, acc', p)[i] == PieceImage(setup.cfg, acc, p)[i];
    hide ImageAt;
  }

  lemma ByteOnDisk(setup: Setup, s: State, acc: Accepted, disk: seq<byte>, pos: nat)
    requires setup.Valid() && DataInv(setup, s, acc, disk) && pos < |disk|
    ensures |s.disk| == |disk| && s.disk[pos] == DiskAt(setup, acc, disk, pos)
  {
    hide DiskAt;
  }

  /** A piece that has all of its chunks is settled, right or wrong: however the run goes on, none of its chunks is
      replaced, it counts as flushed exactly if it does already, and its bytes in the files stay as they are. */
  lemma FullPieceIsSettled(setup: Setup, disk: seq<byte>, needed: bool, ops: seq<Op>, more: seq<Op>, pos: nat)
    requires setup.Valid() && setup.cfg.Aligned() && setup.cfg.dataSize <= |disk| && pos < |disk|
    requires OpsValid(setup, ops) && OpsValid(setup, ops + more)
    requires Full(setup.cfg, FirstAccepted(setup.cfg, ops), pos / setup.cfg.pieceSize)
    ensures var acc, acc' := FirstAccepted(setup.cfg, ops), FirstAccepted(setup.cfg, ops + more);
            PieceKept(setup, acc, acc', pos / setup.cfg.pieceSize)
    ensures Sized(setup, Init(setup, disk, needed))
    ensures var s, s' := Run(setup, Init(setup, disk, needed), ops), Run(setup, Init(setup, disk, needed), ops + more);
            |s.disk| == |s'.disk| == |disk| && s'.disk[pos] == s.disk[pos]
  {
    RunKeepsPiece(setup, ops, more, pos / setup.cfg.pieceSize);
    RunMeansFirstAccepted(setup, disk, needed, ops);
    RunMeansFirstAccepted(setup, disk, needed, ops + more);
    hide Run;
    hide FirstAccepted;
    hide PieceKept;
    hide DataInv;
    hide Full;
    var s, s' := Run(setup, Init(setup, disk, needed), ops), Run(setup, Init(setup, disk, needed), ops + more);
    var acc, acc' := FirstAccepted(setup.cfg, ops), FirstAccepted(setup.cfg, ops + more);
    ByteOnDisk(setup, s, acc, disk, pos);
    ByteOnDisk(setup, s', acc', disk, pos);
    DiskAtKept(setup, acc, acc', disk, pos / setup.cfg.pieceSize, pos);
  }

  /** A torrent of one octet and a hash list whose only hash differs from the right one in its first octet. */
  function OneOctet(b: byte): (setup: Setup)
    ensures setup.cfg == Config(8, 1, 1) && setup.cfg.Aligned() && setup.Valid()
  {
    hide Sha1Spec.Digest;
    var digest := Sha1Spec.Digest([b]);
    Setup(Config(8, 1, 1), Some([!digest[0]] + digest[1..]))
  }

  lemma OneOctetAccepted(b: byte)
    ensures FirstAccepted(OneOctet(b).cfg, [WriteOp(0, [b])]) == map[0 := [b]]
    ensures Full(OneOctet(b).cfg, map[0 := [b]], 0) && !Flushed(OneOctet(b), map[0 := [b]], 0)
  {
    hide Sha1Spec.Digest;
    var setup, acc, op := OneOctet(b), map[0 := [b]], WriteOp(0, [b]);
    assert [op][..0] == [];
    assert FirstAccepted(setup.cfg, []) == map[];
    var image := PieceImage(setup.cfg, acc, 0);
    assert image[..1] == [b];
    var digest, hash := Sha1Spec.Digest([b]), setup.hashes.value;
    assert hash[0..20] == hash;
    assert !SameText(digest, hash);
  }

  /** So a piece can be full and lost: after its only write this one is complete for the bitfield, and no
      continuation of the run ever writes it. */
  lemma BadPieceIsLost(b: byte, disk: seq<byte>, needed: bool, more: seq<Op>)
    requires |disk| > 0 && OpsValid(OneOctet(b), [WriteOp(0, [b])] + more)
    ensures !Flushed(OneOctet(b), FirstAccepted(OneOctet(b).cfg, [WriteOp(0, [b])] + more), 0)
    ensures Sized(OneOctet(b), Init(OneOctet(b), disk, needed))
    ensures var s := Run(OneOctet(b), Init(OneOctet(b), disk, needed), [WriteOp(0, [b])] + more);
            |s.disk| == |disk| && s.disk[0] == disk[0] && |s.completed| > 0 && s.completed[0]
  {
    var setup, ops := OneOctet(b), [WriteOp(0, [b])] + more;
    OneOctetAccepted(b);
    RunKeepsPiece(setup, [WriteOp(0, [b])], more, 0);
    RunMeansFirstAccepted(setup, disk, needed, ops);
    hide Run;
    hide FirstAccepted;
    hide Flushed;
    hide PieceImage;
    hide OneOctet;
    ByteOnDisk(setup, Run(setup, Init(setup, disk, needed), ops), FirstAccepted(setup.cfg, ops), disk, 0);
  }

  // --- sizes for which the files are the torrent --------------------------------------------------------

  /** Every byte of the files is right after this run. */
  ghost predicate RunIsRight(setup: Setup, disk: seq<byte>, needed: bool, ops: seq<Op>)
    requires setup.Valid()
  {
    OpsValid(setup, ops) && setup.cfg.dataSize <= |disk| && Sized(setup, Init(setup, disk, needed)) ==>
      var s, acc := Run(setup, Init(setup, disk, needed), ops), FirstAccepted(setup.cfg, ops);
      forall pos: nat :: pos < |disk| ==> ByteIsRight(setup, s, acc, disk, pos)
  }

  /** The files are the torrent after every run, whatever the data size, the hashes and the files. */
  ghost predicate FilesExactFor(pieceSize: nat, chunkSize: nat)
    requires pieceSize > 0 && chunkSize > 0 && pieceSize % chunkSize == 0
  {
    forall setup: Setup, disk: seq<byte>, needed: bool, ops: seq<Op> ::
      setup.Valid() && setup.cfg.pieceSize == pieceSize && setup.cfg.chunkSize == chunkSize ==>
        RunIsRight(setup, disk, needed, ops)
  }

  /** One chunk more than a piece: the last chunk, of one octet, makes up the second piece, and the octet 1 has its
      hash. */
  function OneMore(pieceSize: nat, chunkSize: nat): (setup: Setup)
    ensures setup.cfg == Config(pieceSize, chunkSize, pieceSize + 1)
    ensures setup.hashes.Some? && |setup.hashes.value| == 40 && setup.hashes.value[20..40] == Sha1Spec.Digest([1])
  {
    hide Sha1Spec.Digest;
    Setup(Config(pieceSize, chunkSize, pieceSize + 1), Some(seq(20, _ => 0) + Sha1Spec.Digest([1])))
  }

  lemma OneMoreGeometry(pieceSize: nat, chunkSize: nat, k: nat)
    requires pieceSize > 0 && chunkSize > 0 && pieceSize % chunkSize == 0 && k == pieceSize / chunkSize
    ensures var cfg := Config(pieceSize, chunkSize, pieceSize + 1);
            && cfg.Valid() && k > 0 && cfg.ChunkOffset(k) == pieceSize && cfg.ChunkCount() == k + 1
            && cfg.ChunkLength(k) == 1 && cfg.ChunkPiece(k) == 1 && cfg.PieceLength(1) == 1
            && cfg.ChunksPerPiece() == k
            && forall c: nat :: c < k ==> cfg.ChunkPiece(c) != 1
  {
    var cfg := Config(pieceSize, chunkSize, pieceSize + 1);
    DivParts(pieceSize, chunkSize);
    MulSum(chunkSize, k, 1);
    cfg.ChunkExists(k);
    cfg.ChunkExists(k + 1);
    DivUnique(pieceSize, pieceSize, 1, 0);
    forall c: nat | c < k
      ensures cfg.ChunkPiece(c) != 1
    {
      cfg.ChunkIsIn(c);
      DivUnique(c, k, 0, c);
    }
  }

  /** The byte that holds the bit of that chunk also holds bits of the first piece when a piece is not a whole number of
      bytes, so writing the chunk alone does not make its piece complete for the test. */
  lemma OneMoreIsNotDone(pieceSize: nat, chunkSize: nat, s: State, k: nat)
    requires pieceSize > 0 && chunkSize > 0 && pieceSize % chunkSize == 0 && k == pieceSize / chunkSize && k % 8 != 0
    requires |s.completed| == 8 * BytesFor(k + 1) && forall c :: 0 <= c <= k ==> !s.completed[c]
    ensures OneMore(pieceSize, chunkSize).Valid() && k < |s.completed|
    ensures !JustDone(OneMore(pieceSize, chunkSize), s, k)
  {
    OneMoreGeometry(pieceSize, chunkSize, k);
    var cfg, u := OneMore(pieceSize, chunkSize).cfg, k / 8;
    hide Config.ChunkPiece;
    hide Config.ChunksPerPiece;
    var bits := s.completed[k := true];
    assert BytesPerPiece(cfg) == u;
    if u > 0 {
      assert !bits[8 * u + 0];
      assert !ByteUniform(bits, u, true);
    }
  }

  lemma AlignedIff(pieceSize: nat, chunkSize: nat)
    requires chunkSize > 0 && pieceSize % chunkSize == 0
    ensures pieceSize % (8 * chunkSize) == 0 <==> pieceSize / chunkSize % 8 == 0
  {
    var k := pieceSize / chunkSize;
    DivParts(pieceSize, chunkSize);
    DivParts(k, 8);
    MulSum(chunkSize, 8 * (k / 8), k % 8);
    MulAssociates(chunkSize, 8, k / 8);
    MulMonotone(chunkSize, 0, k % 8);
    MulMonotone(chunkSize, k % 8, 7);
    DivUnique(pieceSize, 8 * chunkSize, k / 8, chunkSize * (k % 8));
    if k % 8 > 0 {
      MulMonotone(chunkSize, 1, k % 8);
    }
  }

  lemma InitIsSized(setup: Setup, disk: seq<byte>, needed: bool)
    requires setup.Valid()
    ensures Sized(setup, Init(setup, disk, needed))
    ensures var s := Init(setup, disk, needed); forall c :: 0 <= c < setup.cfg.ChunkCount() ==> !s.completed[c]
  {
    hide Config.ChunkCount;
  }

  lemma RunOne(setup: Setup, s: State, op: Op)
    requires setup.Valid() && Sized(setup, s) && OpValid(setup, op)
    ensures OpsValid(setup, [op]) && Run(setup, s, [op]) == Step(setup, s, op)
    ensures FirstAccepted(setup.cfg, [op]) == Accept(setup.cfg, map[], op)
  {
    hide Step;
    assert [op][..0] == [];
    assert Run(setup, s, []) == s && FirstAccepted(setup.cfg, []) == map[];
  }

  /** A write that does not complete its piece for the test leaves the files alone. */
  lemma UndoneWrite(setup: Setup, s: State, c: nat, data: seq<byte>)
    requires setup.Valid() && c < |s.completed| && !JustDone(setup, s, c)
    ensures Write(setup, s, c, data).0.disk == s.disk
  {
    hide JustDone;
    hide Assembled;
    hide Validates;
  }

  lemma SecondPieceFlushed(pieceSize: nat, chunkSize: nat, k: nat)
    requires pieceSize > 0 && chunkSize > 0 && pieceSize % chunkSize == 0 && k == pieceSize / chunkSize
    ensures OneMore(pieceSize, chunkSize).Valid() && Flushed(OneMore(pieceSize, chunkSize), map[k := [1]], 1)
  {
    hide Sha1Spec.Digest;
    hide OneMore;
    var setup, acc := OneMore(pieceSize, chunkSize), map[k := [1]];
    OneMoreGeometry(pieceSize, chunkSize, k);
    OneOctetImage(setup.cfg, k);
    hide Config.ChunkCount;
    hide Config.ChunkPiece;
    hide Config.PieceLength;
    hide PieceImage;
    SameTextItself(Sha1Spec.Digest([1]));
    hide SameText;
    assert Validates(setup, 1, [1]);
  }

  lemma OneOctetImage(cfg: Config, k: nat)
    requires cfg.chunkSize > 0 && cfg.pieceSize > 0 && cfg.ChunkOffset(k) == cfg.PieceOffset(1)
    ensures PieceImage(cfg, map[k := [1]], 1)[..1] == [1]
  {
    DivUnique(cfg.PieceOffset(1), cfg.chunkSize, k, 0);
  }

  /** For every other piece size the run that writes that one chunk leaves its piece out of the files. */
  lemma UnalignedIsWrong(pieceSize: nat, chunkSize: nat) returns (disk: seq<byte>, ops: seq<Op>)
    requires pieceSize > 0 && chunkSize > 0 && pieceSize % chunkSize == 0 && pieceSize % (8 * chunkSize) != 0
    ensures OneMore(pieceSize, chunkSize).Valid() && !RunIsRight(OneMore(pieceSize, chunkSize), disk, false, ops)
  {
    hide Sha1Spec.Digest;
    hide OneMore;
    var setup, k := OneMore(pieceSize, chunkSize), pieceSize / chunkSize;
    OneMoreGeometry(pieceSize, chunkSize, k);
    AlignedIff(pieceSize, chunkSize);
    disk := seq(pieceSize + 1, _ => 0);
    var op := WriteOp(k, [1]);
    ops := [op];
    var s := Init(setup, disk, false);
    InitIsSized(setup, disk, false);
    RunOne(setup, s, op);
    OneMoreIsNotDone(pieceSize, chunkSize, s, k);
    UndoneWrite(setup, s, k, [1]);
    SecondPieceFlushed(pieceSize, chunkSize, k);
    assert map[][k := [1 as byte]] == map[k := [1]];
    DivUnique(pieceSize, pieceSize, 1, 0);
    hide Flushed;
    hide Write;
    hide Config.ChunkCount;
    assert !ByteIsRight(setup, Run(setup, s, ops), FirstAccepted(setup.cfg, ops), disk, pieceSize);
  }

  /** Of the piece sizes that chunks fill, exactly the multiples of eight chunks make the files the torrent after
      every run. */
  lemma FilesExactIff(pieceSize: nat, chunkSize: nat)
    requires pieceSize > 0 && chunkSize > 0 && pieceSize % chunkSize == 0
    ensures FilesExactFor(pieceSize, chunkSize) <==> pieceSize % (8 * chunkSize) == 0
  {
    if pieceSize % (8 * chunkSize) == 0 {
      forall setup: Setup, disk: seq<byte>, needed: bool, ops: seq<Op> |
        setup.Valid() && setup.cfg.pieceSize == pieceSize && setup.cfg.chunkSize == chunkSize
        ensures RunIsRight(setup, disk, needed, ops)
      {
        AlignedIsRight(setup, disk, needed, ops);
      }
    } else {
      var disk, ops := UnalignedIsWrong(pieceSize, chunkSize);
      hide RunIsRight;
      assert !RunIsRight(OneMore(pieceSize, chunkSize), disk, false, ops);
    }
  }

  lemma AlignedIsRight(setup: Setup, disk: seq<byte>, needed: bool, ops: seq<Op>)
    requires setup.Valid() && setup.cfg.Aligned()
    ensures RunIsRight(setup, disk, needed, ops)
  {
    hide ByteIsRight;
    hide Run;
    hide FirstAccepted;
    if OpsValid(setup, ops) && setup.cfg.dataSize <= |disk| {
      forall pos: nat | pos < |disk|
        ensures Sized(setup, Init(setup, disk, needed))
        ensures ByteIsRight(setup, Run(setup, Init(setup, disk, needed), ops), FirstAccepted(setup.cfg, ops), disk, pos)
      {
        FilesAreTheTorrent(setup, disk, needed, ops, pos);
      }
    }
  }
}

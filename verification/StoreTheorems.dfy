/** Consequences for whole downloads. */
module StoreTheorems {
  import opened Bytes
  import opened Geometry
  import opened Store
  import opened StoreData

  /** A byte of the files is right: in a flushed piece it is the byte of the first accepted data of its chunk, and
      anywhere else it is the one that was there before. */
  ghost predicate ByteIsRight(setup: Setup, s: State, acc: Accepted, disk: seq<byte>, pos: nat)
    requires setup.Valid() && pos < |disk|
  {
    var c, i := pos / setup.cfg.chunkSize, pos % setup.cfg.chunkSize;
    && |s.disk| == |disk|
    && if pos < setup.cfg.dataSize && Flushed(setup, acc, pos / setup.cfg.pieceSize)
       then c in acc && i < |acc[c]| && s.disk[pos] == acc[c][i]
       else s.disk[pos] == disk[pos]
  }

  /** The files are the torrent: after every run every byte is right. */
  lemma FilesAreTheTorrent(setup: Setup, disk: seq<byte>, needed: bool, ops: seq<Op>, pos: nat)
    requires setup.Valid() && setup.cfg.Aligned() && OpsValid(setup, ops)
    requires setup.cfg.dataSize <= |disk| && pos < |disk|
    ensures Sized(setup, Init(setup, disk, needed))
    ensures ByteIsRight(setup, Run(setup, Init(setup, disk, needed), ops), FirstAccepted(setup.cfg, ops), disk, pos)
  {
    RunMeansFirstAccepted(setup, disk, needed, ops);
    hide Run;
    hide FirstAccepted;
    hide ByteIsRight;
    hide DataInv;
    DiskMeaning(setup, Run(setup, Init(setup, disk, needed), ops), FirstAccepted(setup.cfg, ops), disk, pos);
  }

  lemma DiskMeaning(setup: Setup, s: State, acc: Accepted, disk: seq<byte>, pos: nat)
    requires setup.Valid() && DataInv(setup, s, acc, disk) && pos < |disk|
    ensures ByteIsRight(setup, s, acc, disk, pos)
  {
    hide Flushed;
    hide BuffersOk;
    hide CountsOk;
    hide AccOk;
    assert s.disk[pos] == DiskAt(setup, acc, disk, pos);
    if pos < setup.cfg.dataSize && Flushed(setup, acc, pos / setup.cfg.pieceSize) {
      FlushedIsFull(setup, acc, pos / setup.cfg.pieceSize);
      hide DiskOk;
      FullCovers(setup, s, acc, pos);
    }
  }

  lemma FlushedIsFull(setup: Setup, acc: Accepted, p: nat)
    requires setup.Valid() && Flushed(setup, acc, p)
    ensures Full(setup.cfg, acc, p)
  {
  }

  /** In a full piece every position has accepted data. */
  lemma FullCovers(setup: Setup, s: State, acc: Accepted, pos: nat)
    requires setup.Valid() && AccOk(setup, s, acc) && pos < setup.cfg.dataSize
    requires Full(setup.cfg, acc, pos / setup.cfg.pieceSize)
    ensures pos / setup.cfg.chunkSize in acc && pos % setup.cfg.chunkSize < |acc[pos / setup.cfg.chunkSize]|
  {
    var cfg := setup.cfg;
    var c := pos / cfg.chunkSize;
    cfg.PositionIsIn(pos);
    cfg.ChunkIsIn(c);
    DivParts(pos, cfg.chunkSize);
    cfg.ChunkExists(c);
  }

  /** The chunks make up the data. */
  lemma {:induction false} ChunksSumToData(cfg: Config, acc: Accepted, n: nat)
    requires cfg.chunkSize > 0 && n <= cfg.ChunkCount() && forall c :: 0 <= c < n ==> c in acc
    ensures AcceptedBytes(cfg, acc, n) == if cfg.ChunkOffset(n) < cfg.dataSize then cfg.ChunkOffset(n) else cfg.dataSize
  {
    if n > 0 {
      ChunksSumToData(cfg, acc, n - 1);
      cfg.ChunkExists(n - 1);
      MulSum(cfg.chunkSize, n - 1, 1);
    }
  }

  lemma {:induction false} CountIsAll(setup: Setup, acc: Accepted, n: nat)
    requires setup.Valid()
    ensures FlushedCount(setup, acc, n) <= n
    ensures FlushedCount(setup, acc, n) == n <==> forall p :: 0 <= p < n ==> Flushed(setup, acc, p)
  {
    hide Flushed;
    if n > 0 {
      CountIsAll(setup, acc, n - 1);
    }
  }

  /** The counters over every run: downloaded and left always add up to the data, downloaded is what the accepted
      chunks hold, and each flushed piece is counted once. */
  lemma CountersConserved(setup: Setup, disk: seq<byte>, needed: bool, ops: seq<Op>)
    requires setup.Valid() && setup.cfg.Aligned() && OpsValid(setup, ops) && setup.cfg.dataSize <= |disk|
    ensures Sized(setup, Init(setup, disk, needed))
    ensures var s, acc := Run(setup, Init(setup, disk, needed), ops), FirstAccepted(setup.cfg, ops);
            && s.downloaded + s.left == setup.cfg.dataSize
            && s.downloaded == AcceptedBytes(setup.cfg, acc, setup.cfg.ChunkCount())
            && s.completedPieces == FlushedCount(setup, acc, setup.cfg.PieceCount()) <= setup.cfg.PieceCount()
  {
    RunMeansFirstAccepted(setup, disk, needed, ops);
    CountIsAll(setup, FirstAccepted(setup.cfg, ops), setup.cfg.PieceCount());
  }

  /** torrent_data_is_complete is true exactly when every piece has been flushed; then every chunk is completed,
      nothing is left, nothing is needed, and the files hold the accepted data throughout. */
  lemma CompleteMeansEverything(setup: Setup, disk: seq<byte>, needed: bool, ops: seq<Op>)
    requires setup.Valid() && setup.cfg.Aligned() && OpsValid(setup, ops) && 0 < setup.cfg.dataSize <= |disk|
    ensures Sized(setup, Init(setup, disk, needed))
    ensures var s, acc := Run(setup, Init(setup, disk, needed), ops), FirstAccepted(setup.cfg, ops);
            && (s.completedPieces == setup.cfg.PieceCount() <==>
                forall p :: 0 <= p < setup.cfg.PieceCount() ==> Flushed(setup, acc, p))
            && (s.completedPieces == setup.cfg.PieceCount() ==>
                  && (forall c :: 0 <= c < setup.cfg.ChunkCount() ==> s.completed[c])
                  && s.left == 0 && !s.needed
                  && |s.disk| == |disk|
                  && forall pos :: 0 <= pos < setup.cfg.dataSize ==> s.disk[pos] == ImageAt(setup.cfg, acc, pos))
  {
    var cfg, acc := setup.cfg, FirstAccepted(setup.cfg, ops);
    var s := Run(setup, Init(setup, disk, needed), ops);
    RunMeansFirstAccepted(setup, disk, needed, ops);
    CountIsAll(setup, acc, cfg.PieceCount());
    if s.completedPieces == cfg.PieceCount() {
      AllFlushed(setup, s, acc, disk);
    }
  }

  lemma AllFlushed(setup: Setup, s: State, acc: Accepted, disk: seq<byte>)
    requires setup.Valid() && DataInv(setup, s, acc, disk) && 0 < setup.cfg.dataSize <= |disk|
    requires s.completedPieces == setup.cfg.PieceCount()
    ensures forall c :: 0 <= c < setup.cfg.ChunkCount() ==> s.completed[c]
    ensures s.left == 0 && !s.needed
    ensures forall pos :: 0 <= pos < setup.cfg.dataSize ==> s.disk[pos] == ImageAt(setup.cfg, acc, pos)
  {
    CountIsAll(setup, acc, setup.cfg.PieceCount());
    setup.cfg.PieceExists(0);
    AllAccepted(setup, acc);
    AllBytes(setup.cfg, acc);
    AllOnDisk(setup, s, acc, disk);
    hide Flushed;
    hide BuffersOk;
    hide DiskOk;
    hide ImageAt;
    hide AcceptedBytes;
  }

  lemma AllBytes(cfg: Config, acc: Accepted)
    requires cfg.chunkSize > 0 && forall c :: 0 <= c < cfg.ChunkCount() ==> c in acc
    ensures AcceptedBytes(cfg, acc, cfg.ChunkCount()) == cfg.dataSize
  {
    ChunksSumToData(cfg, acc, cfg.ChunkCount());
    cfg.ChunkExists(cfg.ChunkCount());
  }

  lemma AllOnDisk(setup: Setup, s: State, acc: Accepted, disk: seq<byte>)
    requires setup.Valid() && DiskOk(setup, s, acc, disk) && setup.cfg.dataSize <= |disk|
    requires forall p :: 0 <= p < setup.cfg.PieceCount() ==> Flushed(setup, acc, p)
    ensures forall pos :: 0 <= pos < setup.cfg.dataSize ==> s.disk[pos] == ImageAt(setup.cfg, acc, pos)
  {
    hide Flushed;
    hide ImageAt;
    forall pos: nat | pos < setup.cfg.dataSize
      ensures s.disk[pos] == ImageAt(setup.cfg, acc, pos)
    {
      DivParts(pos, setup.cfg.pieceSize);
      setup.cfg.PieceExists(pos / setup.cfg.pieceSize);
      assert s.disk[pos] == DiskAt(setup, acc, disk, pos);
    }
  }

  lemma AllAccepted(setup: Setup, acc: Accepted)
    requires setup.Valid() && forall p :: 0 <= p < setup.cfg.PieceCount() ==> Flushed(setup, acc, p)
    ensures forall c :: 0 <= c < setup.cfg.ChunkCount() ==> c in acc
  {
    forall c: nat | c < setup.cfg.ChunkCount()
      ensures c in acc
    {
      setup.cfg.ChunkInside(c);
      assert Flushed(setup, acc, setup.cfg.ChunkPiece(c));
    }
  }

  // --- the hash comparison ------------------------------------------------------------------------------

  lemma {:induction false} SameTextItself(a: seq<byte>)
    ensures SameText(a, a)
  {
    if a != [] {
      SameTextItself(a[1..]);
    }
  }

  lemma {:induction false} SameTextIsEqual(a: seq<byte>, b: seq<byte>)
    requires |a| == |b| && |b| > 0 && NoZero(b[..|b| - 1])
    ensures SameText(a, b) <==> a == b
  {
    if a[0] == b[0] && |b| > 1 {
      assert b[0] == b[..|b| - 1][0];
      assert b[1..][..|b| - 2] == b[..|b| - 1][1..];
      SameTextIsEqual(a[1..], b[1..]);
      assert a == [a[0]] + a[1..] && b == [b[0]] + b[1..];
    }
  }

  lemma {:induction false} SameTextStops(a: seq<byte>, b: seq<byte>, z: nat)
    requires |a| == |b| && z < |b| && b[z] == 0 && NoZero(b[..z])
    ensures SameText(a, b) <==> a[..z + 1] == b[..z + 1]
  {
    if z == 0 {
      assert a[..1] == [a[0]] && b[..1] == [b[0]];
    } else if a[0] == b[0] {
      assert b[0] == b[..z][0];
      assert b[1..][..z - 1] == b[..z][1..];
      SameTextStops(a[1..], b[1..], z - 1);
      assert a[..z + 1] == [a[0]] + a[1..][..z] && b[..z + 1] == [b[0]] + b[1..][..z];
    }
  }

  /** strncmp decides equality with an expected hash exactly when that hash has no zero byte before its last. */
  lemma HashComparisonExactIff(b: seq<byte>)
    requires |b| == 20
    ensures (forall a: seq<byte> :: |a| == 20 ==> (SameText(a, b) <==> a == b)) <==> NoZero(b[..19])
  {
    if NoZero(b[..19]) {
      forall a: seq<byte> | |a| == 20
        ensures SameText(a, b) <==> a == b
      {
        SameTextIsEqual(a, b);
      }
    } else {
      var z := FirstZero(b[..19]);
      assert b[..z] == b[..19][..z];
      var a := b[19 := if b[19] == 0 then 1 else 0];
      SameTextStops(a, b, z);
      assert a[..z + 1] == b[..z + 1];
      assert SameText(a, b) && a[19] != b[19];
    }
  }

  lemma {:induction false} FirstZero(s: seq<byte>) returns (z: nat)
    requires !NoZero(s)
    ensures z < |s| && s[z] == 0 && NoZero(s[..z])
  {
    if s[0] == 0 {
      z := 0;
    } else {
      z := FirstZero(s[1..]);
      assert s[..z + 1] == [s[0]] + s[1..][..z];
      z := z + 1;
    }
  }
}

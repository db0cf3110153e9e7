/** What torrent_data_write_chunk reports: torrent.c announces a piece to the peers for each write that succeeds. */
module StoreReports {
  import opened Bytes
  import opened Geometry
  import opened Files
  import opened Store
  import opened StoreData
  import opened StoreTheorems

  /** The write makes its piece full, and the piece validates. */
  ghost predicate Finishes(setup: Setup, acc: Accepted, c: nat, data: seq<byte>)
    requires setup.Valid()
  {
    && c < setup.cfg.ChunkCount() && |data| == setup.cfg.ChunkLength(c) && c !in acc
    && Flushed(setup, acc[c := data], setup.cfg.ChunkPiece(c))
  }

  lemma SettleReports(setup: Setup, s: State, c: nat, size: nat, image: seq<byte>, flush: bool)
    requires setup.Valid() && c < |s.completed|
    requires var p := setup.cfg.ChunkPiece(c);
             && PieceSpan(setup.cfg, p) <= |image|
             && Covered(|s.disk|, setup.cfg.PieceOffset(p), PieceSpan(setup.cfg, p)) == PieceSpan(setup.cfg, p)
    ensures var (s', ok) := Settle(setup, s, c, size, image, flush);
            && (ok <==> flush) && s'.completedPieces == s.completedPieces + (if flush then 1 else 0)
            && (s'.needed <==> s.needed && !(flush && s'.completedPieces == setup.cfg.PieceCount() != 0))
  {
    hide Covered;
    hide Config.ChunkPiece;
    hide Config.PieceCount;
    hide PieceSpan;
    hide PieceKey;
  }

  /** A write reports success exactly when it finishes a piece, and exactly then a piece more is counted. */
  lemma WriteReports(setup: Setup, s: State, acc: Accepted, disk: seq<byte>, c: nat, data: seq<byte>)
    requires setup.Valid() && setup.cfg.Aligned() && DataInv(setup, s, acc, disk) && setup.cfg.dataSize <= |disk|
    requires c < |s.completed|
    ensures var (s', ok) := Write(setup, s, c, data);
            && (ok <==> Finishes(setup, acc, c, data))
            && (ok <==> s'.completedPieces == s.completedPieces + 1)
            && (!ok <==> s'.completedPieces == s.completedPieces)
            && (s'.needed <==> s.needed && !(ok && s'.completedPieces == setup.cfg.PieceCount() != 0))
  {
    if c < setup.cfg.ChunkCount() && c !in acc && |data| == setup.cfg.ChunkLength(c) {
      WriteOutcome(setup, s, acc, disk, c, data);
      var p, acc' := setup.cfg.ChunkPiece(c), acc[c := data];
      hide DataInv;
      hide Write;
      hide Flushed;
      hide Config.ChunkPiece;
      hide Config.ChunkCount;
      hide Config.PieceCount;
      hide Config.PieceLength;
      hide Config.ChunkLength;
      SettleReports(setup, s, c, |data|, PieceImage(setup.cfg, acc', p), Flushed(setup, acc', p));
      hide Settle;
    } else {
      Refused(setup, s, acc, c, data);
    }
  }

  lemma Refused(setup: Setup, s: State, acc: Accepted, c: nat, data: seq<byte>)
    requires setup.Valid() && AccOk(setup, s, acc) && c < |s.completed|
    requires !(c < setup.cfg.ChunkCount() && c !in acc && |data| == setup.cfg.ChunkLength(c))
    ensures Write(setup, s, c, data) == (s, false)
  {
    assert !Accepts(setup, s, c, data);
  }

  // --- over every run -----------------------------------------------------------------------------------

  /** The pieces of the writes that reported success, in their order. */
  ghost function Reported(setup: Setup, s: State, ops: seq<Op>): seq<nat>
    requires setup.Valid() && Sized(setup, s) && OpsValid(setup, ops)
  {
    if ops == [] then []
    else
      var front, op := ops[..|ops| - 1], ops[|ops| - 1];
      var before := Run(setup, s, front);
      Reported(setup, s, front) +
        if op.WriteOp? && Write(setup, before, op.chunk, op.data).1 then [setup.cfg.ChunkPiece(op.chunk)] else []
  }

  /** Every piece that was flushed, once, and no other. */
  ghost predicate Announces(setup: Setup, acc: Accepted, pieces: seq<nat>)
    requires setup.Valid()
  {
    && (forall i :: 0 <= i < |pieces| ==> pieces[i] < setup.cfg.PieceCount() && Flushed(setup, acc, pieces[i]))
    && (forall i, j :: 0 <= i < j < |pieces| ==> pieces[i] != pieces[j])
    && (forall p: nat :: p < setup.cfg.PieceCount() && Flushed(setup, acc, p) ==> p in pieces)
  }

  /** What a finished write adds to the flushed pieces: its own, which was not among them. */
  lemma FlushedAfter(setup: Setup, acc: Accepted, c: nat, data: seq<byte>, q: nat)
    requires setup.Valid() && c < setup.cfg.ChunkCount() && c !in acc && |data| == setup.cfg.ChunkLength(c)
    ensures if q == setup.cfg.ChunkPiece(c) then !Flushed(setup, acc, q)
            else Flushed(setup, acc[c := data], q) == Flushed(setup, acc, q)
  {
    if q == setup.cfg.ChunkPiece(c) {
      assert !Full(setup.cfg, acc, q);
    } else {
      setup.cfg.ChunkExists(c);
      OtherPiece(setup, acc, c, data, q);
    }
  }

  lemma AnnouncesMore(setup: Setup, acc: Accepted, pieces: seq<nat>, c: nat, data: seq<byte>)
    requires setup.Valid() && Announces(setup, acc, pieces)
    requires c < setup.cfg.ChunkCount() && c !in acc && |data| == setup.cfg.ChunkLength(c)
    ensures var p, acc' := setup.cfg.ChunkPiece(c), acc[c := data];
            Announces(setup, acc', pieces + if Flushed(setup, acc', p) then [p] else [])
  {
    var p, acc' := setup.cfg.ChunkPiece(c), acc[c := data];
    setup.cfg.ChunkInside(c);
    forall q: nat
      ensures if q == p then !Flushed(setup, acc, q) else Flushed(setup, acc', q) == Flushed(setup, acc, q)
    {
      FlushedAfter(setup, acc, c, data, q);
    }
    hide Flushed;
    hide Config.ChunkPiece;
    hide Config.ChunkCount;
    hide Config.PieceCount;
    hide Config.ChunkLength;
    var pieces' := pieces + if Flushed(setup, acc', p) then [p] else [];
    assert forall i :: 0 <= i < |pieces| ==> pieces'[i] == pieces[i];
    assert Flushed(setup, acc', p) ==> pieces'[|pieces|] == p;
  }

  lemma NothingAnnounced(setup: Setup)
    requires setup.Valid()
    ensures Announces(setup, map[], [])
  {
    forall p: nat | p < setup.cfg.PieceCount()
      ensures !Flushed(setup, map[], p)
    {
      EmptyPiece(setup, p);
    }
  }

  /** One operation more. */
  lemma StepReports(setup: Setup, s: State, acc: Accepted, disk: seq<byte>, op: Op, pieces: seq<nat>)
    requires setup.Valid() && setup.cfg.Aligned() && Sized(setup, s) && OpValid(setup, op)
    requires DataInv(setup, s, acc, disk) && setup.cfg.dataSize <= |disk|
    requires Announces(setup, acc, pieces) && |pieces| == s.completedPieces
    ensures var s' := Step(setup, s, op);
            var ok := op.WriteOp? && Write(setup, s, op.chunk, op.data).1;
            var pieces' := pieces + if ok then [setup.cfg.ChunkPiece(op.chunk)] else [];
            && Announces(setup, Accept(setup.cfg, acc, op), pieces') && |pieces'| == s'.completedPieces
            && (s'.needed <==> s.needed && !(ok && s'.completedPieces == setup.cfg.PieceCount() != 0))
  {
    hide Announces;
    assert pieces + [] == pieces;
    match op
    case ClaimOp(interested, timeout, clock, num) =>
      ClaimKeepsSize(s, interested, timeout, setup.cfg.ChunkCount(), clock, num);
    case ReleaseOp(clock) =>
    case WriteOp(c, data) =>
      WriteReports(setup, s, acc, disk, c, data);
      hide Write;
      hide DataInv;
      hide Flushed;
      if c < setup.cfg.ChunkCount() && |data| == setup.cfg.ChunkLength(c) && c !in acc {
        AnnouncesMore(setup, acc, pieces, c, data);
      }
  }

  /** Over every run, the pieces that torrent.c is told of are exactly the flushed ones, each of them once, and there
      are as many as are counted. Data that was needed stays so until they are all there. */
  lemma {:induction false} ReportedIsFlushed(setup: Setup, disk: seq<byte>, needed: bool, ops: seq<Op>)
    requires setup.Valid() && setup.cfg.Aligned() && OpsValid(setup, ops) && setup.cfg.dataSize <= |disk|
    ensures Sized(setup, Init(setup, disk, needed))
    ensures var s0 := Init(setup, disk, needed);
            var s, pieces := Run(setup, s0, ops), Reported(setup, s0, ops);
            && Announces(setup, FirstAccepted(setup.cfg, ops), pieces) && |pieces| == s.completedPieces
            && (s.needed <==> needed && !(s.completedPieces == setup.cfg.PieceCount() != 0))
  {
    RunMeansFirstAccepted(setup, disk, needed, ops);
    if ops == [] {
      NothingAnnounced(setup);
    } else {
      var front, op := ops[..|ops| - 1], ops[|ops| - 1];
      ReportedIsFlushed(setup, disk, needed, front);
      RunMeansFirstAccepted(setup, disk, needed, front);
      CountersConserved(setup, disk, needed, front);
      CountersConserved(setup, disk, needed, ops);
      var s0 := Init(setup, disk, needed);
      hide DataInv;
      hide Announces;
      hide FlushedCount;
      hide AcceptedBytes;
      hide Config.PieceCount;
      hide Config.ChunkCount;
      StepReports(setup, Run(setup, s0, front), FirstAccepted(setup.cfg, front), disk, op, Reported(setup, s0, front));
      hide Step;
      hide Write;
      hide Accept;
    }
  }
}

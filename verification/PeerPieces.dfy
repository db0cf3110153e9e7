/** Requests look up every piece in the bitfield of the peer (src/peer/peer_messages.c): when it is long enough. */
module PeerPieces {
  import opened Options
  import opened Bitfields
  import opened PeerSessions
  import opened PeerInvariant
  import opened PeerLogs

  /** The life of a download as a peer has seen it: its data is not needed yet, it is, or it has all been written. */
  datatype Phase = Unknown | Wanted | Over

  /** A view of a torrent of `n` pieces, seen in a phase. The number of pieces is set before the data becomes needed.
      Once needed, it stays needed until it is complete, and complete for good; it may be said to be needed after
      that. */
  function Advance(phase: Phase, view: View, n: nat): Option<Phase> {
    if view.needed && view.pieceCount != n then None
    else
      match phase
      case Unknown => Some(if view.needed then Wanted else Unknown)
      case Wanted => if view.needed then Some(Wanted) else if view.complete then Some(Over) else None
      case Over => if view.complete then Some(Over) else None
  }

  /** Where only the interest depends on it, `complete` is looked at before `needed`, and both can be found false
      while the last piece is being counted. */
  function Glimpse(phase: Phase, view: View, n: nat): Option<Phase> {
    if phase == Wanted && !view.needed then Some(Over) else Advance(phase, view, n)
  }

  /** The views of a run up to its requests. */
  function AdvanceSend(phase: Phase, e: Env, n: nat): Option<Phase> {
    var p := Glimpse(phase, e.haveView, n);
    if p == None then None else Advance(p.value, e.bitfieldView, n)
  }

  function AdvanceRun(phase: Phase, e: Env, n: nat): Option<Phase> {
    var p := AdvanceSend(phase, e, n);
    if p == None then None
    else
      var q := Advance(p.value, e.requestView, n);
      if q == None then None else Advance(q.value, e.incomingView, n)
  }

  function PhaseAfter(events: seq<Event>, n: nat): Option<Phase> {
    if events == [] then Some(Unknown)
    else
      var p, event := PhaseAfter(events[..|events| - 1], n), events[|events| - 1];
      if p == None then None else if event.Scheduled? then AdvanceRun(p.value, event.env, n) else p
  }

  /** A bitfield of the peer, if there is one, has a bit for each of `n` pieces. */
  ghost predicate Covers(bits: Option<PeerBits>, n: nat) {
    bits.Some? ==> n <= 8 * BytesFor(n) <= |bits.value.bits|
  }

  ghost predicate Prepared(s: Session, phase: Phase, n: nat) {
    match phase
    case Unknown => !s.bitfieldSent
    case Wanted => s.bitfieldSent ==> Covers(s.peerBits, n)
    case Over => s.bitfieldSent && s.amInterested ==> Covers(s.peerBits, n)
  }

  /** The bitfield of the peer is untouched, no bitfield is sent and no interest is gained. */
  ghost predicate SameBits(s: Session, t: Session) {
    t.peerBits == s.peerBits && (t.bitfieldSent ==> s.bitfieldSent) && (t.amInterested ==> s.amInterested)
  }

  lemma SameBitsPrepared(s: Session, t: Session, phase: Phase, n: nat)
    requires Prepared(s, phase, n) && SameBits(s, t)
    ensures Prepared(t, phase, n)
  {
    hide Covers;
  }

  lemma ConnectSameBits(s: Session, e: Env)
    ensures SameBits(s, TryConnect(s, e)) && SameBits(s, SendHandshake(s, e))
  {
  }

  lemma NetworkSameBits(s: Session, n: Network, now: int)
    ensures SameBits(s, HandleNetwork(s, n, now).0)
  {
  }

  lemma AnswerSameBits(s: Session, e: Env)
    ensures SameBits(s, HandleHandshake(s, e).0)
  {
    assert AnswerOk(s.received, e.infoHash) ==> |s.received| > FLAGS_AT;
    hide AnswerOk;
    if s.status == HANDSHAKE_SENT && s.socket && s.fd && s.received != [] {
      if !AnswerOk(s.received, e.infoHash) {
        assert HandleHandshake(s, e).0 == Disconnect(s, e.now);
      } else if s.received[FLAGS_AT] == EXTENSIONS {
        assert HandleHandshake(s, e).0 == Say(s, ExtendedHandshake).(status := HANDSHAKE_COMPLETE);
      } else {
        assert HandleHandshake(s, e).0 == s.(status := HANDSHAKE_COMPLETE);
      }
    } else {
      assert HandleHandshake(s, e).0 == s;
    }
  }

  lemma ShakeSameBits(s: Session, e: Env)
    ensures SameBits(s, Shake(s, e).0)
  {
    hide TryConnect;
    hide HandleNetwork;
    hide SendHandshake;
    hide HandleHandshake;
    ConnectSameBits(s, e);
    var s1 := HandleNetwork(TryConnect(s, e), e.before, e.now).0;
    NetworkSameBits(TryConnect(s, e), e.before, e.now);
    ConnectSameBits(s1, e);
    AnswerSameBits(SendHandshake(s1, e), e);
  }

  lemma InterestOf(s: Session, view: View)
    ensures var t := UpdateInterested(s, view);
            && t.peerBits == s.peerBits && t.bitfieldSent == s.bitfieldSent && t.status == s.status
            && (view.complete && s.peerBits.Some? ==> !t.amInterested)
            && (s.peerBits == None ==> t.amInterested == s.amInterested)
  {
    if s.peerBits.Some? && view.complete {
      assert !Interesting(s.peerBits.value, view);
    }
    hide Interesting;
  }

  lemma InterestPrepares(s: Session, view: View, phase: Phase, n: nat)
    requires Prepared(s, phase, n) && Glimpse(phase, view, n).Some?
    ensures Prepared(UpdateInterested(s, view), Glimpse(phase, view, n).value, n)
  {
    hide Covers;
    InterestOf(s, view);
    hide UpdateInterested;
  }

  lemma {:induction false} HavesSameBits(s: Session)
    ensures SameBits(s, SayHaves(s))
    decreases |s.progress|
  {
    if s.progress != [] {
      HavesSameBits(Say(s, Have(s.progress[0])).(progress := s.progress[1..]));
    }
  }

  lemma SendHavesPrepares(s: Session, view: View, phase: Phase, n: nat)
    requires Prepared(s, phase, n) && Glimpse(phase, view, n).Some?
    ensures var t := SendHaves(s, view);
            Prepared(t, Glimpse(phase, view, n).value, n) && t.peerBits == s.peerBits && t.status == s.status
    ensures SendHaves(s, view).bitfieldSent == s.bitfieldSent
  {
    hide SayHaves;
    hide UpdateInterested;
    hide Prepared;
    hide Glimpse;
    SendHavesGoes(s, view);
    HavesSameBits(s);
    SameBitsPrepared(s, SayHaves(s), phase, n);
    InterestOf(SayHaves(s), view);
    InterestPrepares(SayHaves(s), view, phase, n);
    GlimpsePrepares(s, view, phase, n);
  }

  lemma GlimpsePrepares(s: Session, view: View, phase: Phase, n: nat)
    requires Prepared(s, phase, n) && Glimpse(phase, view, n).Some?
    ensures Prepared(s, Glimpse(phase, view, n).value, n)
  {
    hide Covers;
  }

  lemma {:induction false} RequestsSameBits(s: Session, n: nat)
    ensures SameBits(s, SayRequests(s, n))
  {
    if n > 0 {
      RequestsSameBits(s, n - 1);
    }
  }

  lemma SendRestSameBits(s: Session, e: Env)
    ensures SameBits(s, SendMetadataRequest(s, e)) && SameBits(s, SendRequests(s, e)) && SameBits(s, UpdateChoking(s))
  {
    hide SayRequests;
    if ShouldRequest(s, e.requestView) {
      var room := REQUEST_MSG_QUEUE_LENGTH - s.pending;
      RequestsSameBits(s, if e.chunksClaimed < room then e.chunksClaimed else room);
    }
  }

  lemma CloseSameBits(s: Session, e: Env)
    ensures SameBits(s, HandleNetwork(Timeout(SendKeepAlive(s, e), e), e.after, e.timeoutNow).0)
  {
    hide HandleNetwork;
    var t := Timeout(SendKeepAlive(s, e), e);
    assert SameBits(s, SendKeepAlive(s, e));
    assert SameBits(SendKeepAlive(s, e), t);
    NetworkSameBits(t, e.after, e.timeoutNow);
  }

  /** Where a run stands when it comes to its requests. */
  function BeforeRequests(s: Session, e: Env): Session {
    SendMetadataRequest(SendBitfield(SendHaves(Shake(s, e).0, e.haveView), e.bitfieldView), e)
  }

  ghost predicate LongEnough(bits: Option<PeerBits>, n: nat) {
    bits.Some? && n <= |bits.value.bits|
  }

  /** Either the bitfield has been sent by then, or the step that sends it did nothing. */
  lemma BitfieldPrepares(s: Session, view: View, phase: Phase, n: nat)
    requires Prepared(s, phase, n) && Advance(phase, view, n).Some?
    ensures var p, t := Advance(phase, view, n).value, SendBitfield(s, view);
            && Prepared(t, p, n) && t.status == s.status
            && (s.status == HANDSHAKE_COMPLETE ==> (t.bitfieldSent <==> s.bitfieldSent || view.needed))
            && (!t.bitfieldSent ==> t.peerBits == s.peerBits)
            && (t.bitfieldSent && t.amInterested && t.peerBits.Some? ==> LongEnough(t.peerBits, n))
  {
  }

  lemma RequestsPrepared(s: Session, e: Env, phase: Phase, n: nat)
    requires Shaped(s) && Prepared(s, phase, n) && AdvanceSend(phase, e, n).Some? && Shake(s, e).1
    ensures var p, t := AdvanceSend(phase, e, n).value, BeforeRequests(s, e);
            && Prepared(t, p, n)
            && (t.status == HANDSHAKE_COMPLETE ==> (t.bitfieldSent <==> s.bitfieldSent || e.bitfieldView.needed))
            && (!t.bitfieldSent ==> t.peerBits == s.peerBits)
            && (t.bitfieldSent && t.amInterested && t.peerBits.Some? ==> LongEnough(t.peerBits, n))
  {
    hide Covers;
    hide Prepared;
    hide Advance;
    var t1 := Shake(s, e).0;
    var t2 := SendHaves(t1, e.haveView);
    var t3 := SendBitfield(t2, e.bitfieldView);
    ShakeSameBits(s, e);
    ShakeMoves(s, e);
    hide Shake;
    SameBitsPrepared(s, t1, phase, n);
    SendHavesPrepares(t1, e.haveView, phase, n);
    hide SendHaves;
    var p := Glimpse(phase, e.haveView, n).value;
    hide Glimpse;
    BitfieldPrepares(t2, e.bitfieldView, p, n);
    hide SendBitfield;
    SendRestSameBits(t3, e);
    MetadataKeepsStatus(t3, e);
    hide SendMetadataRequest;
    SameBitsPrepared(t3, SendMetadataRequest(t3, e), AdvanceSend(phase, e, n).value, n);
  }

  lemma MetadataKeepsStatus(s: Session, e: Env)
    ensures var t := SendMetadataRequest(s, e);
            && t.status == s.status && t.peerBits == s.peerBits
            && t.bitfieldSent == s.bitfieldSent && t.amInterested == s.amInterested
  {
  }

  lemma LearnCovers(bits: Option<PeerBits>, incoming: Incoming, view: View, n: nat)
    requires Covers(bits, n) && view.needed && view.pieceCount == n
    ensures Covers(LearnPieces(bits, incoming, view), n)
  {
  }

  lemma LearnPrepares(s: Session, incoming: Incoming, view: View, phase: Phase, n: nat)
    requires Prepared(s, phase, n) && Advance(phase, view, n).Some? && (incoming.HaveIn? || incoming.BitfieldIn?)
    ensures var learnt := s.(peerBits := LearnPieces(s.peerBits, incoming, view));
            Prepared(UpdateInterested(learnt, view), Advance(phase, view, n).value, n)
  {
    var learnt := s.(peerBits := LearnPieces(s.peerBits, incoming, view));
    assert learnt.peerBits.Some?;
    hide LearnPieces;
    InterestOf(learnt, view);
    hide UpdateInterested;
    if phase == Wanted && view.needed && s.bitfieldSent {
      LearnCovers(s.peerBits, incoming, view, n);
    }
    hide Covers;
  }

  /** A view that is seen without anything happening. */
  lemma SeenPrepares(s: Session, view: View, phase: Phase, n: nat)
    requires Prepared(s, phase, n) && Advance(phase, view, n).Some?
    ensures Prepared(s, Advance(phase, view, n).value, n)
  {
    hide Covers;
  }

  lemma ReceiveSameBits(s: Session, incoming: Incoming, view: View, now: int)
    requires !incoming.HaveIn? && !incoming.BitfieldIn?
    ensures SameBits(s, Receive(s, incoming, view, now))
  {
    if incoming.BadMessage? || incoming.ExtensionBad? {
      assert Receive(s, incoming, view, now) == Disconnect(s, now);
    } else if incoming.RequestIn? {
      assert Receive(s, incoming, view, now) == Say(s, Piece);
    } else if incoming.MetadataRequestIn? {
      assert Receive(s, incoming, view, now) == if incoming.available then Say(s, MetadataPiece) else s;
    } else {
      assert Receive(s, incoming, view, now) == Note(s, incoming);
    }
  }

  lemma ReadPrepares(s: Session, e: Env, phase: Phase, n: nat)
    requires Prepared(s, phase, n) && Advance(phase, e.incomingView, n).Some?
    ensures Prepared(ReadMessage(s, e), Advance(phase, e.incomingView, n).value, n)
  {
    hide Prepared;
    hide Advance;
    hide UpdateInterested;
    hide LearnPieces;
    var p := Advance(phase, e.incomingView, n).value;
    SeenPrepares(s, e.incomingView, phase, n);
    if ReadMessage(s, e) != s {
      var t := Hear(s, e.incoming);
      assert SameBits(s, t);
      SameBitsPrepared(s, t, phase, n);
      SameBitsPrepared(s, t, p, n);
      if e.incoming.HaveIn? || e.incoming.BitfieldIn? {
        LearnPrepares(t, e.incoming, e.incomingView, phase, n);
      } else {
        ReceiveSameBits(t, e.incoming, e.incomingView, e.now);
        hide Receive;
        SameBitsPrepared(t, ReadMessage(s, e), p, n);
      }
    }
  }

  /** A run that ends early looks at nothing. */
  lemma AbortPrepares(s: Session, e: Env, phase: Phase, n: nat)
    requires Prepared(s, phase, n) && AdvanceRun(phase, e, n).Some?
    ensures Prepared(s, AdvanceRun(phase, e, n).value, n)
  {
    var p := Glimpse(phase, e.haveView, n).value;
    var q := Advance(p, e.bitfieldView, n).value;
    var r := Advance(q, e.requestView, n).value;
    GlimpsePrepares(s, e.haveView, phase, n);
    SeenPrepares(s, e.bitfieldView, p, n);
    SeenPrepares(s, e.requestView, q, n);
    SeenPrepares(s, e.incomingView, r, n);
    hide Prepared;
    hide Advance;
    hide Glimpse;
  }

  lemma RunPrepares(s: Session, e: Env, phase: Phase, n: nat)
    requires Shaped(s) && Prepared(s, phase, n) && AdvanceRun(phase, e, n).Some?
    ensures Prepared(PeerRun(s, e), AdvanceRun(phase, e, n).value, n)
  {
    hide Prepared;
    hide Advance;
    hide Shaped;
    hide Shake;
    hide SendMetadataRequest;
    hide SendRequests;
    hide UpdateChoking;
    hide SendHaves;
    hide SendBitfield;
    hide ReadMessage;
    hide SendKeepAlive;
    hide Timeout;
    hide HandleNetwork;
    if !Shake(s, e).1 {
      ShakeSameBits(s, e);
      SameBitsPrepared(s, Shake(s, e).0, phase, n);
      AbortPrepares(Shake(s, e).0, e, phase, n);
    } else {
      var p := AdvanceSend(phase, e, n).value;
      var q := Advance(p, e.requestView, n).value;
      RequestsPrepared(s, e, phase, n);
      var t1 := BeforeRequests(s, e);
      hide AdvanceSend;
      SeenPrepares(t1, e.requestView, p, n);
      var t2 := SendRequests(t1, e);
      var t3 := UpdateChoking(t2);
      SendRestSameBits(t1, e);
      SendRestSameBits(t2, e);
      SameBitsPrepared(t1, t2, q, n);
      SameBitsPrepared(t2, t3, q, n);
      ReadPrepares(t3, e, q, n);
      var t4 := ReadMessage(t3, e);
      CloseSameBits(t4, e);
      assert PeerRun(s, e) == HandleNetwork(Timeout(SendKeepAlive(t4, e), e), e.after, e.timeoutNow).0;
      SameBitsPrepared(t4, PeerRun(s, e), AdvanceRun(phase, e, n).value, n);
    }
  }

  lemma {:induction false} EveryRunPrepares(now: int, events: seq<Event>, n: nat)
    requires After(now, events).Some? && PhaseAfter(events, n).Some?
    ensures Prepared(After(now, events).value, PhaseAfter(events, n).value, n)
  {
    if events == [] {
      assert Prepared(Fresh(now), Unknown, n);
    } else {
      var front, event := events[..|events| - 1], events[|events| - 1];
      EveryRunPrepares(now, front, n);
      var s, phase := After(now, front).value, PhaseAfter(front, n).value;
      hide PeerRun;
      hide AdvanceRun;
      hide Prepared;
      hide Inv;
      EveryRunKeeps(now, front);
      InvStarts(s);
      hide Shaped;
      hide HasBitfield;
      hide StartsWithHandshake;
      hide SameBits;
      if event.Scheduled? {
        RunPrepares(s, event.env, phase, n);
      } else {
        OtherSameBits(s, event);
        SameBitsPrepared(s, Next(s, event).value, phase, n);
      }
    }
  }

  lemma OtherSameBits(s: Session, event: Event)
    requires Next(s, event).Some? && !event.Scheduled?
    ensures SameBits(s, Next(s, event).value)
  {
    match event
    case Accepted(now) =>
    case Slot(uploader) =>
    case Finished(piece) =>
  }

  /** Over every sequence of events of one download of `n` pieces, whenever a run comes to send requests, the
      bitfield of the peer exists. It has a bit for each piece if and only if the data was seen to be needed when the
      bitfield was due, in this run or in an earlier one of the connection, or it was long enough before. */
  lemma RequestsSeeEveryPieceIff(now: int, events: seq<Event>, e: Env, n: nat)
    requires After(now, events).Some? && PhaseAfter(events + [Scheduled(e)], n).Some?
    ensures var s := After(now, events).value;
            var t := BeforeRequests(s, e);
            Shake(s, e).1 && ShouldRequest(t, e.requestView) ==>
              && t.peerBits.Some?
              && (n <= |t.peerBits.value.bits| <==>
                  e.bitfieldView.needed || HasBitfield(s.log) || LongEnough(s.peerBits, n))
  {
    var s := After(now, events).value;
    assert (events + [Scheduled(e)])[..|events|] == events;
    EveryRunPrepares(now, events, n);
    EveryRunKeeps(now, events);
    InvStarts(s);
    var phase := PhaseAfter(events, n).value;
    assert AdvanceSend(phase, e, n).Some?;
    hide After;
    hide PhaseAfter;
    hide AdvanceSend;
    hide Shaped;
    hide HasBitfield;
    hide Prepared;
    ShakeKeeps(s, e);
    hide Inv;
    if Shake(s, e).1 {
      RequestsPrepared(s, e, phase, n);
      KeptToRequests(s, e);
      InterestNeedsBits(BeforeRequests(s, e));
    }
    hide BeforeRequests;
    hide Shake;
  }

  lemma KeptToRequests(s: Session, e: Env)
    requires Inv(Shake(s, e).0)
    ensures Inv(BeforeRequests(s, e))
  {
    hide Inv;
    hide Shake;
    var t := Shake(s, e).0;
    SendHavesKeeps(t, e.haveView);
    hide SendHaves;
    BitfieldKeeps(SendHaves(t, e.haveView), e.bitfieldView);
    hide SendBitfield;
    MetadataRequestKeeps(SendBitfield(SendHaves(t, e.haveView), e.bitfieldView), e);
  }
}

/** What a peer owes after its runs: every finished piece is announced, the choking is as the upload slots have it, a
    connection that has gone quiet is given up and not taken up again too soon. */
module PeerDuties {
  import opened Options
  import opened Bitfields
  import opened PeerSessions
  import opened PeerInvariant

  // --- what the messages about pieces say ---------------------------------------------------------------

  /** The bitfield that is sent has a bit for each piece, set exactly for those that are complete, and nothing else. */
  lemma BitfieldTells(s: Session, view: View, i: nat)
    requires s.status == HANDSHAKE_COMPLETE && !s.bitfieldSent && view.needed
    ensures var log := SendBitfield(s, view).log;
            && |log| == |s.log| + 1 && log[..|s.log|] == s.log && log[|s.log|].BitfieldMsg?
            && var bits := log[|s.log|].bits;
               && view.pieceCount <= |bits| < view.pieceCount + 8
               && (i < |bits| ==> (bits[i] <==> i < view.pieceCount && view.done(i)))
  {
    hide Resized;
  }

  /** A peer is of interest exactly while it has a piece that is not here: every piece is once the download is complete,
      and none is before its data is needed. */
  lemma InterestIs(s: Session, view: View)
    requires s.peerBits.Some? && s.peerBits.value.count <= |s.peerBits.value.bits|
    ensures UpdateInterested(s, view).amInterested
       <==> !view.complete && exists i :: 0 <= i < s.peerBits.value.count && s.peerBits.value.bits[i]
                                          && !(view.needed && view.done(i))
  {
    var p := s.peerBits.value;
    if !view.complete && exists i :: 0 <= i < p.count && p.bits[i] && !(view.needed && view.done(i)) {
      var i: nat :| i < p.count && p.bits[i] && !(view.needed && view.done(i));
      assert !HaveOne(view, i) && p.bits[i];
      assert Interesting(p, view);
    }
  }

  /** After a have message the bit of its piece is set, if the bitfield has it; no other bit changes. */
  lemma HaveTells(p: PeerBits, piece: nat, view: View, i: nat)
    ensures var t := LearnPieces(Some(p), HaveIn(piece), view);
            && t.Some? && t.value.count == p.count && |t.value.bits| == |p.bits|
            && (i < |p.bits| ==> (t.value.bits[i] <==> p.bits[i] || (i == piece && i < p.count)))
  {
  }

  /** A bitfield message that fits sets and clears the bits that it has, and no other; without a bitfield to put it in,
      the bits that it does not have are clear. */
  lemma BitfieldIsLearnt(p: Option<PeerBits>, bits: seq<bool>, view: View, i: nat)
    requires p.Some? ==> |bits| <= |p.value.bits|
    requires p == None ==> |bits| <= 8 * BytesFor(if view.needed then view.pieceCount else |bits|)
    ensures var t := LearnPieces(p, BitfieldIn(bits), view);
            && t.Some? && |bits| <= |t.value.bits| && (p.Some? ==> |t.value.bits| == |p.value.bits|)
            && (i < |t.value.bits| ==>
                (t.value.bits[i] <==> if i < |bits| then bits[i] else p.Some? && i < |p.value.bits| && p.value.bits[i]))
  {
  }

  /** Enlarging the bitfield of the peer keeps its bits and adds clear ones. */
  lemma ResizedKeeps(p: PeerBits, n: nat, i: nat)
    ensures var t := Resized(Some(p), n);
            && t.Some? && |p.bits| <= |t.value.bits|
            && (i < |t.value.bits| ==> (t.value.bits[i] <==> i < |p.bits| && p.bits[i]))
  {
  }

  /** A run asks for as many chunks as were claimed for it and as ten outstanding requests allow, and for none unless
      the data is needed, the peer has unchoked us and is of interest. */
  lemma AsksExactly(s: Session, e: Env)
    requires Inv(s)
    ensures var t := SendRequests(s, e);
            var n := if e.chunksClaimed < 10 - s.pending then e.chunksClaimed else 10 - s.pending;
            if s.status == HANDSHAKE_COMPLETE && e.requestView.needed && !s.peerChoking && s.amInterested
            then t.pending == s.pending + n && t.log == s.log + seq(n, _ => Request)
            else t == s
  {
    hide SayRequests;
    assert s.pending <= 10 by { InvIsBounded(s); }
    hide Inv;
    if ShouldRequest(s, e.requestView) {
      var room := REQUEST_MSG_QUEUE_LENGTH - s.pending;
      RequestsSaid(s, if e.chunksClaimed < room then e.chunksClaimed else room);
    }
  }

  lemma InvIsBounded(s: Session)
    requires Inv(s)
    ensures s.pending <= 10
  {
    hide Proper;
    hide Remembers;
  }

  lemma {:induction false} RequestsSaid(s: Session, n: nat)
    ensures SayRequests(s, n).pending == s.pending + n && SayRequests(s, n).log == s.log + seq(n, _ => Request)
  {
    if n > 0 {
      RequestsSaid(s, n - 1);
      assert seq(n - 1, _ => Request) + [Request] == seq(n, _ => Request);
    }
  }

  // --- announcements ------------------------------------------------------------------------------------

  function HavesOf(log: seq<Msg>): seq<int> {
    if log == [] then []
    else HavesOf(log[..|log| - 1]) + if log[|log| - 1].Have? then [log[|log| - 1].piece] else []
  }

  function PastHaves(past: seq<seq<Msg>>): seq<int> {
    if past == [] then [] else PastHaves(past[..|past| - 1]) + HavesOf(past[|past| - 1])
  }

  /** The pieces that were announced, over whichever connection, and those that wait to be. */
  function Told(s: Session): seq<int> {
    PastHaves(s.past) + HavesOf(s.log) + s.progress
  }

  function FinishedIn(events: seq<Event>): seq<int> {
    if events == [] then []
    else
      var event := events[|events| - 1];
      FinishedIn(events[..|events| - 1]) + if event.Finished? then [event.piece] else []
  }

  lemma HavesSnoc(log: seq<Msg>, m: Msg)
    ensures HavesOf(log + [m]) == HavesOf(log) + if m.Have? then [m.piece] else []
  {
    assert (log + [m])[..|log|] == log;
  }

  ghost predicate SameTold(s: Session, t: Session) {
    Told(t) == Told(s)
  }

  lemma SpeaksTold(s: Session, t: Session, m: Msg)
    requires t.past == s.past && t.log == s.log + [m]
    requires if m.Have? then [m.piece] + t.progress == s.progress else t.progress == s.progress
    ensures SameTold(s, t)
  {
    HavesSnoc(s.log, m);
    hide HavesOf;
    hide PastHaves;
    if !m.Have? {
      assert HavesOf(s.log) + [] == HavesOf(s.log);
    }
  }

  lemma LeaveTold(s: Session, now: int)
    ensures SameTold(s, Disconnect(s, now))
  {
    assert (s.past + [s.log])[..|s.past|] == s.past;
    assert HavesOf([]) == [];
    assert PastHaves(s.past + [s.log]) == PastHaves(s.past) + HavesOf(s.log);
    hide HavesOf;
    hide PastHaves;
    assert PastHaves(s.past) + HavesOf(s.log) + [] == PastHaves(s.past) + HavesOf(s.log);
  }

  lemma SilentTold(s: Session, t: Session)
    requires t.past == s.past && t.log == s.log && t.progress == s.progress
    ensures SameTold(s, t)
  {
  }

  lemma NetworkTold(s: Session, n: Network, now: int)
    ensures SameTold(s, HandleNetwork(s, n, now).0)
  {
    hide Told;
    if s.socket && s.fd && n.Lost? {
      LeaveTold(s, now);
    } else {
      SilentTold(s, HandleNetwork(s, n, now).0);
    }
  }

  lemma AnswerTold(s: Session, e: Env)
    ensures SameTold(s, HandleHandshake(s, e).0)
  {
    hide Told;
    assert AnswerOk(s.received, e.infoHash) ==> |s.received| > FLAGS_AT;
    hide AnswerOk;
    var t := HandleHandshake(s, e).0;
    if s.status == HANDSHAKE_SENT && s.socket && s.fd && s.received != [] {
      if !AnswerOk(s.received, e.infoHash) {
        LeaveTold(s, e.now);
      } else if s.received[FLAGS_AT] == EXTENSIONS {
        assert t == Say(s, ExtendedHandshake).(status := HANDSHAKE_COMPLETE);
        SpeaksTold(s, t, ExtendedHandshake);
      } else {
        assert t == s.(status := HANDSHAKE_COMPLETE);
        SilentTold(s, t);
      }
    }
  }

  lemma ShakeTold(s: Session, e: Env)
    ensures SameTold(s, Shake(s, e).0)
  {
    hide Told;
    hide HandleNetwork;
    hide HandleHandshake;
    SilentTold(s, TryConnect(s, e));
    NetworkTold(TryConnect(s, e), e.before, e.now);
    var s1 := HandleNetwork(TryConnect(s, e), e.before, e.now).0;
    var s2 := SendHandshake(s1, e);
    if s2 != s1 {
      SpeaksTold(s1, s2, Handshake);
    }
    AnswerTold(s2, e);
  }

  lemma InterestTold(s: Session, view: View)
    ensures SameTold(s, UpdateInterested(s, view))
  {
    hide Told;
    hide Interesting;
    var t := UpdateInterested(s, view);
    if t != s {
      SpeaksTold(s, t, if s.amInterested then NotInterested else Interested);
    }
  }

  lemma {:induction false} HavesTold(s: Session)
    ensures SameTold(s, SayHaves(s)) && SayHaves(s).progress == []
    decreases |s.progress|
  {
    hide Told;
    if s.progress != [] {
      var t := Say(s, Have(s.progress[0])).(progress := s.progress[1..]);
      SpeaksTold(s, t, Have(s.progress[0]));
      HavesTold(t);
    }
  }

  lemma {:induction false} RequestsTold(s: Session, n: nat)
    ensures SameTold(s, SayRequests(s, n)) && Steady(s, SayRequests(s, n))
  {
    hide Told;
    if n > 0 {
      RequestsTold(s, n - 1);
      var t := SayRequests(s, n - 1);
      SpeaksTold(t, SayRequest(t), Request);
    }
  }

  // --- what a run has done at its end -------------------------------------------------------------------

  /** The flags that the duties are about are the same. */
  ghost predicate Steady(s: Session, t: Session) {
    t.status == s.status && t.progress == s.progress && t.amChoking == s.amChoking && t.uploader == s.uploader
  }

  /** An open connection has no piece left to announce, and is choked exactly if it has no upload slot. */
  ghost predicate Settled(s: Session) {
    s.status == HANDSHAKE_COMPLETE ==> s.progress == [] && (s.amChoking <==> !s.uploader)
  }

  lemma HavesSent(s: Session, view: View)
    ensures var t := SendHaves(s, view); SameTold(s, t) && (t.status == HANDSHAKE_COMPLETE ==> t.progress == [])
  {
    hide Told;
    hide SayHaves;
    HavesTold(s);
    InterestTold(SayHaves(s), view);
    hide Interesting;
  }

  lemma BitfieldTold(s: Session, view: View)
    ensures SameTold(s, SendBitfield(s, view)) && Steady(s, SendBitfield(s, view))
  {
    hide Told;
    hide Resized;
    var t := SendBitfield(s, view);
    if t != s {
      SpeaksTold(s, t, t.log[|s.log|]);
    }
  }

  lemma AsksTold(s: Session, e: Env)
    ensures var t := SendRequests(SendMetadataRequest(s, e), e); SameTold(s, t) && Steady(s, t)
  {
    hide Told;
    hide SayRequests;
    var t := SendMetadataRequest(s, e);
    if t != s {
      SpeaksTold(s, t, MetadataRequest);
    }
    if ShouldRequest(t, e.requestView) {
      var room := REQUEST_MSG_QUEUE_LENGTH - t.pending;
      RequestsTold(t, if e.chunksClaimed < room then e.chunksClaimed else room);
    }
  }

  lemma SendSettles(s: Session, e: Env)
    ensures SameTold(s, Send(s, e)) && Settled(Send(s, e))
  {
    hide Told;
    hide SendHaves;
    hide SendBitfield;
    hide SendRequests;
    hide SendMetadataRequest;
    var h := SendHaves(s, e.haveView);
    HavesSent(s, e.haveView);
    var b := SendBitfield(h, e.bitfieldView);
    BitfieldTold(h, e.bitfieldView);
    var r := SendRequests(SendMetadataRequest(b, e), e);
    AsksTold(b, e);
    var c := UpdateChoking(r);
    if c != r {
      SpeaksTold(r, c, if r.amChoking then Unchoke else Choke);
    }
  }

  /** What becomes of each message. */
  lemma ReceiveIs(s: Session, m: Incoming, view: View, now: int)
    ensures var t := Receive(s, m, view, now);
            if m.BadMessage? || m.ExtensionBad? then t == Disconnect(s, now)
            else if m.HaveIn? || m.BitfieldIn? then
              t == UpdateInterested(s.(peerBits := LearnPieces(s.peerBits, m, view)), view)
            else if m.RequestIn? then t == Say(s, Piece)
            else if m.MetadataRequestIn? then t == if m.available then Say(s, MetadataPiece) else s
            else t == Note(s, m)
  {
    hide Disconnect;
    hide LearnPieces;
    hide UpdateInterested;
    hide Say;
    hide Note;
  }

  lemma ReceiveTold(s: Session, m: Incoming, view: View, now: int)
    ensures SameTold(s, Receive(s, m, view, now))
  {
    hide Told;
    ReceiveIs(s, m, view, now);
    hide Receive;
    hide LearnPieces;
    hide UpdateInterested;
    var t := Receive(s, m, view, now);
    if m.BadMessage? || m.ExtensionBad? {
      LeaveTold(s, now);
    } else if m.HaveIn? || m.BitfieldIn? {
      var learnt := s.(peerBits := LearnPieces(s.peerBits, m, view));
      SilentTold(s, learnt);
      InterestTold(learnt, view);
    } else if m.RequestIn? {
      SpeaksTold(s, t, Piece);
    } else if m.MetadataRequestIn? {
      if m.available {
        SpeaksTold(s, t, MetadataPiece);
      }
    } else {
      SilentTold(s, Note(s, m));
    }
  }

  lemma InterestSteady(s: Session, view: View)
    ensures Steady(s, UpdateInterested(s, view)) && SameLine(s, UpdateInterested(s, view))
  {
    hide Interesting;
    var t := UpdateInterested(s, view);
    if t != s {
      if s.amInterested {
        assert t == Say(s, NotInterested).(amInterested := false);
      } else {
        assert t == Say(s, Interested).(amInterested := true);
      }
      hide UpdateInterested;
    }
  }

  lemma NoteSteady(s: Session, m: Incoming)
    ensures Steady(s, Note(s, m))
  {
  }

  lemma ReceiveSteady(s: Session, m: Incoming, view: View, now: int)
    ensures var t := Receive(s, m, view, now); t.status == UNCONNECTED || Steady(s, t)
  {
    ReceiveIs(s, m, view, now);
    hide Receive;
    hide LearnPieces;
    hide UpdateInterested;
    NoteSteady(s, m);
    hide Note;
    if m.HaveIn? || m.BitfieldIn? {
      InterestSteady(s.(peerBits := LearnPieces(s.peerBits, m, view)), view);
    }
  }

  lemma CloseSettled(s: Session, e: Env)
    requires Settled(s)
    ensures SameTold(s, ReadAndClose(s, e)) && Settled(ReadAndClose(s, e))
  {
    hide Told;
    hide Settled;
    hide HandleNetwork;
    hide ReadMessage;
    hide SendKeepAlive;
    hide Timeout;
    var s1 := ReadMessage(s, e);
    ReadSettled(s, e);
    var s2 := Timeout(SendKeepAlive(s1, e), e);
    TimeoutSettled(s1, e);
    NetworkTold(s2, e.after, e.timeoutNow);
    NetworkSettled(s2, e.after, e.timeoutNow);
  }

  lemma ReadSettled(s: Session, e: Env)
    requires Settled(s)
    ensures SameTold(s, ReadMessage(s, e)) && Settled(ReadMessage(s, e))
  {
    hide Told;
    hide Receive;
    var t := Hear(s, e.incoming);
    assert Steady(s, t) && t.past == s.past && t.log == s.log;
    hide Hear;
    SilentTold(s, t);
    ReceiveTold(t, e.incoming, e.incomingView, e.now);
    ReceiveSteady(t, e.incoming, e.incomingView, e.now);
  }

  lemma TimeoutSettled(s: Session, e: Env)
    requires Settled(s)
    ensures var t := Timeout(SendKeepAlive(s, e), e); SameTold(s, t) && Settled(t)
  {
    hide Told;
    var s1 := SendKeepAlive(s, e);
    if s1 != s {
      assert s1 == Say(s, KeepAlive);
      SpeaksTold(s, s1, KeepAlive);
    }
    LeaveTold(s1, e.timeoutNow);
  }

  lemma NetworkSettled(s: Session, n: Network, now: int)
    requires Settled(s)
    ensures Settled(HandleNetwork(s, n, now).0)
  {
  }

  /** After a run, a connection that is still open has had all finished pieces announced and is choked exactly if it
      has no upload slot. */
  lemma RunSettles(s: Session, e: Env)
    requires Inv(s)
    ensures Settled(PeerRun(s, e)) && SameTold(s, PeerRun(s, e))
  {
    hide Told;
    hide Inv;
    ShakeTold(s, e);
    var (t, ok) := Shake(s, e);
    if !ok {
      AbortIsOver(s, e);
    } else {
      SendSettles(t, e);
      CloseSettled(Send(t, e), e);
    }
    hide Shake;
    hide Send;
    hide ReadAndClose;
  }

  lemma AbortIsOver(s: Session, e: Env)
    requires !Shake(s, e).1
    ensures Shake(s, e).0.status == UNCONNECTED
  {
    hide TryConnect;
    hide SendHandshake;
    var s1 := HandleNetwork(TryConnect(s, e), e.before, e.now).0;
    NetworkFails(TryConnect(s, e), e.before, e.now);
    hide HandleNetwork;
    AnswerFails(SendHandshake(s1, e), e);
    hide HandleHandshake;
  }

  lemma NetworkFails(s: Session, n: Network, now: int)
    ensures !HandleNetwork(s, n, now).1 ==> HandleNetwork(s, n, now).0.status == UNCONNECTED
  {
  }

  lemma AnswerFails(s: Session, e: Env)
    ensures !HandleHandshake(s, e).1 ==> HandleHandshake(s, e).0.status == UNCONNECTED
  {
    assert AnswerOk(s.received, e.infoHash) ==> |s.received| > FLAGS_AT;
    hide AnswerOk;
  }

  /** Over every sequence of events, the finished pieces that a peer was told of are the ones that it has announced,
      each once and in their order, over whichever connection, followed by those that wait. */
  lemma {:induction false} EveryPieceIsAnnounced(now: int, events: seq<Event>)
    requires After(now, events).Some?
    ensures Told(After(now, events).value) == FinishedIn(events)
  {
    if events != [] {
      var front, event := events[..|events| - 1], events[|events| - 1];
      hide Inv;
      hide Next;
      hide Told;
      EveryPieceIsAnnounced(now, front);
      EveryRunKeeps(now, front);
      NextTold(After(now, front).value, event);
    } else {
      assert Told(Fresh(now)) == [];
    }
  }

  lemma FinishedTold(s: Session, piece: int)
    ensures Told(s.(progress := s.progress + [piece])) == Told(s) + [piece]
  {
    hide PastHaves;
    hide HavesOf;
  }

  lemma NextTold(s: Session, event: Event)
    requires Inv(s) && Next(s, event).Some?
    ensures Told(Next(s, event).value) == Told(s) + if event.Finished? then [event.piece] else []
  {
    hide Inv;
    hide PeerRun;
    hide Told;
    assert Told(s) + [] == Told(s);
    match event
    case Scheduled(e) =>
      RunSettles(s, e);
      hide Settled;
    case Finished(piece) => FinishedTold(s, piece);
    case Slot(uploader) => SilentTold(s, s.(uploader := uploader));
    case Accepted(now) => SilentTold(s, SetSocket(s, now));
  }

  // --- silence ------------------------------------------------------------------------------------------

  /** A connection over which nothing comes is given up exactly when more than 119.5 seconds have passed since something
      did. */
  lemma IdleRunEndsIff(s: Session, e: Env)
    requires Inv(s) && s.status == HANDSHAKE_COMPLETE && s.fd && e.before == Quiet && !e.readable && e.after == Quiet
    ensures PeerRun(s, e).status == UNCONNECTED <==> s.lastRead < e.timeoutNow - 119_500
  {
    hide Inv;
    assert s.socket by { InvIsConnected(s); }
    assert Shake(s, e) == (s, true);
    hide Shake;
    SendSteady(s, e);
    hide Send;
    IdleClose(Send(s, e), e);
    hide ReadAndClose;
  }

  lemma IdleClose(s: Session, e: Env)
    requires s.status == HANDSHAKE_COMPLETE && s.socket && !e.readable && e.after == Quiet
    ensures ReadAndClose(s, e).status == UNCONNECTED <==> s.lastRead < e.timeoutNow - 119_500
  {
    hide SendKeepAlive;
    assert ReadMessage(s, e) == s;
    hide ReadMessage;
    KeepAliveLine(s, e);
    TimeoutEnds(SendKeepAlive(s, e), e);
    hide Timeout;
    NetworkQuiet(Timeout(SendKeepAlive(s, e), e), e.timeoutNow);
    hide HandleNetwork;
  }

  lemma KeepAliveLine(s: Session, e: Env)
    ensures SameLine(s, SendKeepAlive(s, e))
  {
  }

  lemma TimeoutEnds(s: Session, e: Env)
    requires s.status == HANDSHAKE_COMPLETE && s.socket
    ensures Timeout(s, e).status == UNCONNECTED <==> s.lastRead < e.timeoutNow - 119_500
  {
  }

  lemma NetworkQuiet(s: Session, now: int)
    ensures HandleNetwork(s, Quiet, now).0 == s
  {
  }

  lemma InvIsConnected(s: Session)
    requires Inv(s)
    ensures s.socket <==> s.status != UNCONNECTED
  {
    hide Proper;
    hide Remembers;
  }

  /** Sending leaves the connection and the time of the last arrival as they are. */
  ghost predicate SameLine(s: Session, t: Session) {
    t.status == s.status && t.socket == s.socket && t.fd == s.fd && t.lastRead == s.lastRead
  }

  lemma {:induction false} HavesLine(s: Session)
    ensures SameLine(s, SayHaves(s))
    decreases |s.progress|
  {
    if s.progress != [] {
      HavesLine(Say(s, Have(s.progress[0])).(progress := s.progress[1..]));
    }
  }

  lemma {:induction false} RequestsLine(s: Session, n: nat)
    ensures SameLine(s, SayRequests(s, n))
  {
    if n > 0 {
      RequestsLine(s, n - 1);
    }
  }

  lemma SendHavesLine(s: Session, view: View)
    ensures SameLine(s, SendHaves(s, view))
  {
    HavesLine(s);
    hide SayHaves;
    InterestSteady(SayHaves(s), view);
    hide UpdateInterested;
  }

  lemma SendOthersLine(s: Session, e: Env)
    ensures SameLine(s, SendBitfield(s, e.bitfieldView)) && SameLine(s, SendMetadataRequest(s, e))
    ensures SameLine(s, SendRequests(s, e)) && SameLine(s, UpdateChoking(s))
  {
    SendRequestsLine(s, e);
    hide SendRequests;
    BitfieldLine(s, e.bitfieldView);
    hide SendBitfield;
    ChokingLine(s);
    hide UpdateChoking;
  }

  lemma BitfieldLine(s: Session, view: View)
    ensures SameLine(s, SendBitfield(s, view))
  {
    hide Resized;
  }

  lemma ChokingLine(s: Session)
    ensures SameLine(s, UpdateChoking(s))
  {
  }

  lemma SendRequestsLine(s: Session, e: Env)
    ensures SameLine(s, SendRequests(s, e))
  {
    hide SayRequests;
    if ShouldRequest(s, e.requestView) {
      var room := REQUEST_MSG_QUEUE_LENGTH - s.pending;
      RequestsLine(s, if e.chunksClaimed < room then e.chunksClaimed else room);
    }
  }

  lemma SendSteady(s: Session, e: Env)
    ensures SameLine(s, Send(s, e))
  {
    hide SendHaves;
    hide SendBitfield;
    hide SendMetadataRequest;
    hide SendRequests;
    hide UpdateChoking;
    var h := SendHaves(s, e.haveView);
    SendHavesLine(s, e.haveView);
    var b := SendBitfield(h, e.bitfieldView);
    SendOthersLine(h, e);
    var r := SendMetadataRequest(b, e);
    SendOthersLine(b, e);
    SendOthersLine(r, e);
    SendOthersLine(SendRequests(r, e), e);
  }

  // --- coming back --------------------------------------------------------------------------------------

  /** No run of these comes more than 30 seconds after the connection ended, and no socket is accepted. */
  ghost predicate Within30Seconds(ended: int, events: seq<Event>) {
    forall i :: 0 <= i < |events| ==>
      !events[i].Accepted? && (events[i].Scheduled? ==> events[i].env.now <= ended + 30_000)
  }

  lemma AwayRun(s: Session, e: Env)
    requires s.status == UNCONNECTED && !s.socket && s.log == [] && e.now <= s.reconnectDeadline
    ensures PeerRun(s, e) == s
  {
    assert Shake(s, e) == (s, true);
    hide Shake;
    assert Send(s, e) == s;
    hide Send;
  }

  /** A peer that was disconnected makes no connection for 30 seconds. */
  lemma {:induction false} StaysAway(s: Session, ended: int, events: seq<Event>)
    requires From(Disconnect(s, ended), events).Some? && Within30Seconds(ended, events)
    ensures var t := From(Disconnect(s, ended), events).value;
            && t.status == UNCONNECTED && !t.socket && t.log == []
            && t.past == s.past + [s.log] && t.reconnectDeadline == ended + 30_000
  {
    if events != [] {
      var front, event := events[..|events| - 1], events[|events| - 1];
      assert forall i :: 0 <= i < |front| ==> front[i] == events[i];
      StaysAway(s, ended, front);
      var t := From(Disconnect(s, ended), front).value;
      assert !event.Accepted? && (event.Scheduled? ==> event.env.now <= ended + 30_000);
      hide Within30Seconds;
      if event.Scheduled? {
        AwayRun(t, event.env);
      }
      hide PeerRun;
    }
  }
}

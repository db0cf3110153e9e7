/** What is said over a connection answers to what is heard over it, through every run of a peer. */
module PeerTalks {
  import opened PeerSessions
  import opened PeerInvariant

  // --- what is promised of a talk -----------------------------------------------------------------------

  /** What was said, without what was heard. */
  function SaidIn(talk: seq<Line>): seq<Msg> {
    if talk == [] then []
    else SaidIn(talk[..|talk| - 1]) + if talk[|talk| - 1].Said? then [talk[|talk| - 1].said] else []
  }

  function Lines(talk: seq<Line>, line: Line): nat {
    if talk == [] then 0 else Lines(talk[..|talk| - 1], line) + if talk[|talk| - 1] == line then 1 else 0
  }

  ghost predicate HeardAt(talk: seq<Line>, on: Incoming, off: Incoming, i: nat) {
    i < |talk| && talk[i] == Heard(on) && forall j :: i < j < |talk| ==> talk[j] != Heard(off)
  }

  /** The last of the two that was heard is `on`. */
  ghost predicate LastHeard(talk: seq<Line>, on: Incoming, off: Incoming) {
    exists i :: HeardAt(talk, on, off, i)
  }

  /** The id for metadata messages that the last extended handshake gave, unless a reject came after it. */
  function MetadataId(talk: seq<Line>): int {
    if talk == [] then 0
    else
      match talk[|talk| - 1]
      case Heard(ExtensionHandshakeIn(id)) => id
      case Heard(MetadataRejectIn) => 0
      case _ => MetadataId(talk[..|talk| - 1])
  }

  /** Nothing is asked of a peer that chokes, and no metadata of one that does not give any. */
  ghost predicate Courteous(talk: seq<Line>) {
    forall i :: 0 <= i < |talk| ==>
      && (talk[i] == Said(Request) ==> LastHeard(talk[..i], UnchokeIn, ChokeIn))
      && (talk[i] == Said(MetadataRequest) ==> MetadataId(talk[..i]) > 0)
  }

  /** `p` requests and `q` requests for metadata that is there have been heard and not been answered. */
  ghost predicate Owes(talk: seq<Line>, p: int, q: int) {
    && Lines(talk, Heard(RequestIn)) == Lines(talk, Said(Piece)) + p
    && Lines(talk, Heard(MetadataRequestIn(true))) == Lines(talk, Said(MetadataPiece)) + q
  }

  ghost predicate Fair(talk: seq<Line>) {
    Courteous(talk) && Owes(talk, 0, 0)
  }

  /** The flags about the peer are what it last said. */
  ghost predicate Knows(s: Session) {
    && SaidIn(s.talk) == s.log
    && (s.peerChoking <==> !LastHeard(s.talk, UnchokeIn, ChokeIn))
    && (s.peerInterested <==> LastHeard(s.talk, InterestedIn, NotInterestedIn))
    && s.utMetadata == MetadataId(s.talk)
    && s.piecesIn == Lines(s.talk, Heard(PieceIn))
  }

  ghost predicate PastFair(s: Session) {
    && |s.pastTalks| == |s.past|
    && forall i :: 0 <= i < |s.past| ==> Fair(s.pastTalks[i]) && SaidIn(s.pastTalks[i]) == s.past[i]
  }

  /** The open connection, with what it still owes, and the ones that are over. */
  ghost predicate Owing(s: Session, p: int, q: int) {
    Knows(s) && Courteous(s.talk) && Owes(s.talk, p, q) && PastFair(s)
  }

  ghost predicate Attentive(s: Session) {
    Owing(s, 0, 0)
  }

  // --- one line more ------------------------------------------------------------------------------------

  lemma LastHeardSnoc(talk: seq<Line>, line: Line, on: Incoming, off: Incoming)
    requires on != off
    ensures LastHeard(talk + [line], on, off)
       <==> line == Heard(on) || (line != Heard(off) && LastHeard(talk, on, off))
  {
    var more := talk + [line];
    if line == Heard(on) {
      assert HeardAt(more, on, off, |talk|);
    } else {
      forall i: nat
        ensures HeardAt(more, on, off, i) <==> line != Heard(off) && HeardAt(talk, on, off, i)
      {
        HeardAtSnoc(talk, line, on, off, i);
      }
    }
  }

  lemma HeardAtSnoc(talk: seq<Line>, line: Line, on: Incoming, off: Incoming, i: nat)
    requires on != off && line != Heard(on)
    ensures HeardAt(talk + [line], on, off, i) <==> line != Heard(off) && HeardAt(talk, on, off, i)
  {
    var more := talk + [line];
    assert more[|talk|] == line;
    assert forall j :: 0 <= j < |talk| ==> more[j] == talk[j];
  }

  lemma TalkSnoc(talk: seq<Line>, line: Line)
    ensures SaidIn(talk + [line]) == SaidIn(talk) + if line.Said? then [line.said] else []
    ensures MetadataId(talk + [line]) == match line
                                         case Heard(ExtensionHandshakeIn(id)) => id
                                         case Heard(MetadataRejectIn) => 0
                                         case _ => MetadataId(talk)
  {
    assert (talk + [line])[..|talk|] == talk;
  }

  lemma LinesSnoc(talk: seq<Line>, line: Line, l: Line)
    ensures Lines(talk + [line], l) == Lines(talk, l) + if line == l then 1 else 0
  {
    assert (talk + [line])[..|talk|] == talk;
  }

  /** The counts that are kept. */
  lemma CountsSnoc(talk: seq<Line>, line: Line)
    ensures var more := talk + [line];
            && Lines(more, Said(Piece)) == Lines(talk, Said(Piece)) + (if line == Said(Piece) then 1 else 0)
            && Lines(more, Said(MetadataPiece))
               == Lines(talk, Said(MetadataPiece)) + (if line == Said(MetadataPiece) then 1 else 0)
            && Lines(more, Heard(PieceIn)) == Lines(talk, Heard(PieceIn)) + (if line == Heard(PieceIn) then 1 else 0)
            && Lines(more, Heard(RequestIn))
               == Lines(talk, Heard(RequestIn)) + (if line == Heard(RequestIn) then 1 else 0)
            && Lines(more, Heard(MetadataRequestIn(true)))
               == Lines(talk, Heard(MetadataRequestIn(true)))
                  + (if line == Heard(MetadataRequestIn(true)) then 1 else 0)
  {
    hide Lines;
    LinesSnoc(talk, line, Said(Piece));
    LinesSnoc(talk, line, Said(MetadataPiece));
    LinesSnoc(talk, line, Heard(PieceIn));
    LinesSnoc(talk, line, Heard(RequestIn));
    LinesSnoc(talk, line, Heard(MetadataRequestIn(true)));
  }

  lemma CourteousSnoc(talk: seq<Line>, line: Line)
    requires Courteous(talk)
    requires line == Said(Request) ==> LastHeard(talk, UnchokeIn, ChokeIn)
    requires line == Said(MetadataRequest) ==> MetadataId(talk) > 0
    ensures Courteous(talk + [line])
  {
    hide LastHeard;
    hide MetadataId;
    var more := talk + [line];
    forall i | 0 <= i < |more|
      ensures more[i] == Said(Request) ==> LastHeard(more[..i], UnchokeIn, ChokeIn)
      ensures more[i] == Said(MetadataRequest) ==> MetadataId(more[..i]) > 0
    {
      if i < |talk| {
        assert more[..i] == talk[..i] && more[i] == talk[i];
      } else {
        assert more[..i] == talk;
      }
    }
  }

  // --- saying -------------------------------------------------------------------------------------------

  /** Everything that is promised here is the same. */
  ghost predicate Unmoved(s: Session, s': Session) {
    && s'.peerChoking == s.peerChoking && s'.peerInterested == s.peerInterested && s'.utMetadata == s.utMetadata
    && s'.piecesIn == s.piecesIn && s'.past == s.past && s'.pastTalks == s.pastTalks
  }

  ghost predicate Silent(s: Session, s': Session) {
    Unmoved(s, s') && s'.log == s.log && s'.talk == s.talk
  }

  lemma SilentOwes(s: Session, s': Session, p: int, q: int)
    requires Owing(s, p, q) && Silent(s, s')
    ensures Owing(s', p, q)
  {
    hide Courteous;
    hide Owes;
    hide Fair;
    hide LastHeard;
    hide MetadataId;
    hide Lines;
    hide SaidIn;
  }

  ghost predicate Speaks(s: Session, s': Session, m: Msg) {
    Unmoved(s, s') && s'.log == s.log + [m] && s'.talk == s.talk + [Said(m)]
  }

  lemma SpeaksOwes(s: Session, s': Session, m: Msg, p: int, q: int)
    requires Owing(s, p, q) && Speaks(s, s', m)
    requires (m == Request ==> !s.peerChoking) && (m == MetadataRequest ==> s.utMetadata > 0)
    ensures Owing(s', p - (if m == Piece then 1 else 0), q - (if m == MetadataPiece then 1 else 0))
  {
    var line := Said(m);
    TalkSnoc(s.talk, line);
    CountsSnoc(s.talk, line);
    LastHeardSnoc(s.talk, line, UnchokeIn, ChokeIn);
    LastHeardSnoc(s.talk, line, InterestedIn, NotInterestedIn);
    CourteousSnoc(s.talk, line);
    hide Courteous;
    hide Fair;
    hide LastHeard;
    hide MetadataId;
    hide Lines;
    hide SaidIn;
  }

  /** A message that may be said at any time. */
  ghost predicate Free(m: Msg) {
    m != Request && m != MetadataRequest && m != Piece && m != MetadataPiece
  }

  lemma SpeaksFreely(s: Session, s': Session, m: Msg)
    requires Attentive(s) && Free(m) && Speaks(s, s', m)
    ensures Attentive(s')
  {
    hide Owing;
    SpeaksOwes(s, s', m, 0, 0);
  }

  lemma LeaveAttentive(s: Session, now: int)
    requires Attentive(s)
    ensures Attentive(Disconnect(s, now))
  {
    hide Courteous;
    hide Owes;
    var s' := Disconnect(s, now);
    NothingHeard();
    forall i | 0 <= i < |s'.past|
      ensures Fair(s'.pastTalks[i]) && SaidIn(s'.pastTalks[i]) == s'.past[i]
    {
      if i < |s.past| {
        assert s'.pastTalks[i] == s.pastTalks[i] && s'.past[i] == s.past[i];
      }
    }
    hide Lines;
    hide MetadataId;
    hide SaidIn;
    hide LastHeard;
  }

  lemma NothingHeard()
    ensures SaidIn([]) == [] && MetadataId([]) == 0 && forall l :: Lines([], l) == 0
    ensures Courteous([]) && Owes([], 0, 0)
    ensures !LastHeard([], UnchokeIn, ChokeIn) && !LastHeard([], InterestedIn, NotInterestedIn)
  {
  }

  // --- the parts of a run -------------------------------------------------------------------------------

  lemma NetworkAttentive(s: Session, n: Network, now: int)
    requires Attentive(s)
    ensures Attentive(HandleNetwork(s, n, now).0)
  {
    hide Attentive;
    if s.socket && s.fd && n.Lost? {
      LeaveAttentive(s, now);
    } else {
      StaysAttentive(s, HandleNetwork(s, n, now).0);
    }
  }

  lemma StaysAttentive(s: Session, s': Session)
    requires Attentive(s) && Silent(s, s')
    ensures Attentive(s')
  {
    hide Owing;
    SilentOwes(s, s', 0, 0);
  }

  lemma AnswerAttentive(s: Session, e: Env)
    requires Attentive(s)
    ensures Attentive(HandleHandshake(s, e).0)
  {
    hide Attentive;
    assert AnswerOk(s.received, e.infoHash) ==> |s.received| > FLAGS_AT;
    hide AnswerOk;
    var t := HandleHandshake(s, e).0;
    if s.status == HANDSHAKE_SENT && s.socket && s.fd && s.received != [] {
      if !AnswerOk(s.received, e.infoHash) {
        LeaveAttentive(s, e.now);
      } else if s.received[FLAGS_AT] == EXTENSIONS {
        assert t == Say(s, ExtendedHandshake).(status := HANDSHAKE_COMPLETE);
        SpeaksFreely(s, t, ExtendedHandshake);
      } else {
        assert t == s.(status := HANDSHAKE_COMPLETE);
        StaysAttentive(s, t);
      }
    }
  }

  lemma ShakeAttentive(s: Session, e: Env)
    requires Attentive(s)
    ensures Attentive(Shake(s, e).0)
  {
    hide Attentive;
    hide HandleNetwork;
    hide HandleHandshake;
    StaysAttentive(s, TryConnect(s, e));
    NetworkAttentive(TryConnect(s, e), e.before, e.now);
    var s1 := HandleNetwork(TryConnect(s, e), e.before, e.now).0;
    var s2 := SendHandshake(s1, e);
    if s2 != s1 {
      SpeaksFreely(s1, s2, Handshake);
    }
    AnswerAttentive(s2, e);
  }

  lemma InterestAttentive(s: Session, view: View)
    requires Attentive(s)
    ensures Attentive(UpdateInterested(s, view))
  {
    hide Attentive;
    hide Interesting;
    var t := UpdateInterested(s, view);
    if t != s {
      SpeaksFreely(s, t, if s.amInterested then NotInterested else Interested);
    }
  }

  lemma {:induction false} HavesAttentive(s: Session)
    requires Attentive(s)
    ensures Attentive(SayHaves(s))
    decreases |s.progress|
  {
    hide Attentive;
    if s.progress != [] {
      var t := Say(s, Have(s.progress[0])).(progress := s.progress[1..]);
      SpeaksFreely(s, t, Have(s.progress[0]));
      HavesAttentive(t);
    }
  }

  lemma {:induction false} RequestsAttentive(s: Session, n: nat)
    requires Attentive(s) && !s.peerChoking
    ensures Attentive(SayRequests(s, n)) && !SayRequests(s, n).peerChoking
  {
    hide Owing;
    if n > 0 {
      RequestsAttentive(s, n - 1);
      var t := SayRequests(s, n - 1);
      SpeaksOwes(t, SayRequest(t), Request, 0, 0);
    }
  }

  lemma HavesAndBitfield(s: Session, e: Env)
    requires Attentive(s)
    ensures Attentive(SendBitfield(SendHaves(s, e.haveView), e.bitfieldView))
  {
    hide Attentive;
    hide SayHaves;
    hide UpdateInterested;
    HavesAttentive(s);
    InterestAttentive(SayHaves(s), e.haveView);
    var h := SendHaves(s, e.haveView);
    assert Attentive(h);
    hide SendHaves;
    var b := SendBitfield(h, e.bitfieldView);
    if b != h {
      SpeaksFreely(h, b, b.log[|h.log|]);
    }
  }

  lemma AsksAttentive(s: Session, e: Env)
    requires Attentive(s)
    ensures Attentive(SendRequests(SendMetadataRequest(s, e), e))
  {
    hide Owing;
    hide SayRequests;
    var t := SendMetadataRequest(s, e);
    if t != s {
      SpeaksOwes(s, t, MetadataRequest, 0, 0);
    }
    if ShouldRequest(t, e.requestView) {
      var room := REQUEST_MSG_QUEUE_LENGTH - t.pending;
      RequestsAttentive(t, if e.chunksClaimed < room then e.chunksClaimed else room);
    }
  }

  lemma SendAttentive(s: Session, e: Env)
    requires Attentive(s)
    ensures Attentive(Send(s, e))
  {
    hide Attentive;
    hide SendHaves;
    hide SendBitfield;
    hide SendMetadataRequest;
    hide SendRequests;
    HavesAndBitfield(s, e);
    var b := SendBitfield(SendHaves(s, e.haveView), e.bitfieldView);
    AsksAttentive(b, e);
    var r := SendRequests(SendMetadataRequest(b, e), e);
    var c := UpdateChoking(r);
    if c != r {
      SpeaksFreely(r, c, if r.amChoking then Unchoke else Choke);
    }
  }

  // --- hearing ------------------------------------------------------------------------------------------

  lemma SamePast(s: Session, t: Session)
    requires PastFair(s) && t.past == s.past && t.pastTalks == s.pastTalks
    ensures PastFair(t)
  {
    hide Fair;
    hide SaidIn;
  }

  /** What a message that is heard changes. */
  lemma HeardLine(talk: seq<Line>, m: Incoming)
    requires Courteous(talk)
    ensures var more := talk + [Heard(m)];
            && Courteous(more) && SaidIn(more) == SaidIn(talk)
            && (LastHeard(more, UnchokeIn, ChokeIn) <==>
                m == UnchokeIn || (m != ChokeIn && LastHeard(talk, UnchokeIn, ChokeIn)))
            && (LastHeard(more, InterestedIn, NotInterestedIn) <==>
                m == InterestedIn || (m != NotInterestedIn && LastHeard(talk, InterestedIn, NotInterestedIn)))
            && (MetadataId(more) == if m.ExtensionHandshakeIn? then m.utMetadata
                                    else if m.MetadataRejectIn? then 0 else MetadataId(talk))
  {
    TalkSnoc(talk, Heard(m));
    LastHeardSnoc(talk, Heard(m), UnchokeIn, ChokeIn);
    LastHeardSnoc(talk, Heard(m), InterestedIn, NotInterestedIn);
    CourteousSnoc(talk, Heard(m));
    hide Courteous;
    hide LastHeard;
    hide MetadataId;
    hide Lines;
    hide SaidIn;
    assert SaidIn(talk) + [] == SaidIn(talk);
  }

  /** A message that says nothing about the peer leaves at most an answer owing. */
  lemma HearsPlain(s: Session, m: Incoming)
    requires Attentive(s) && !m.NoMessage?
    requires !m.ChokeIn? && !m.UnchokeIn? && !m.InterestedIn? && !m.NotInterestedIn? && !m.PieceIn?
    requires !m.ExtensionHandshakeIn? && !m.MetadataRejectIn?
    ensures Owing(Hear(s, m), if m == RequestIn then 1 else 0, if m == MetadataRequestIn(true) then 1 else 0)
  {
    hide Courteous;
    hide PastFair;
    hide LastHeard;
    hide MetadataId;
    hide Lines;
    hide SaidIn;
    HeardLine(s.talk, m);
    CountsSnoc(s.talk, Heard(m));
    var t := Hear(s, m);
    assert PastFair(t) by { SamePast(s, t); }
    assert Knows(t) && Owes(t.talk, if m == RequestIn then 1 else 0, if m == MetadataRequestIn(true) then 1 else 0);
  }

  /** The other messages are noted. */
  lemma NoteAttentive(s: Session, m: Incoming)
    requires Attentive(s) && !m.NoMessage? && m != RequestIn && !m.MetadataRequestIn?
    ensures Attentive(Note(Hear(s, m), m))
  {
    hide Courteous;
    hide PastFair;
    hide LastHeard;
    hide MetadataId;
    hide Lines;
    hide SaidIn;
    HeardLine(s.talk, m);
    CountsSnoc(s.talk, Heard(m));
    var t := Note(Hear(s, m), m);
    assert PastFair(t) by { SamePast(s, t); }
    assert Knows(t) && Owes(t.talk, 0, 0);
  }

  lemma AnswersAttentive(s: Session, m: Incoming, view: View, now: int)
    requires Attentive(s) && (m == RequestIn || m.MetadataRequestIn?)
    ensures Attentive(Receive(Hear(s, m), m, view, now))
  {
    hide Owing;
    var t := Hear(s, m);
    HearsPlain(s, m);
    if m == RequestIn {
      SpeaksOwes(t, Say(t, Piece), Piece, 1, 0);
    } else if m.available {
      SpeaksOwes(t, Say(t, MetadataPiece), MetadataPiece, 0, 1);
    }
  }

  lemma ReceiveAttentive(s: Session, m: Incoming, view: View, now: int)
    requires Attentive(s)
    ensures Attentive(Receive(Hear(s, m), m, view, now))
  {
    hide LearnPieces;
    hide UpdateInterested;
    hide Owing;
    if m.NoMessage? {
      StaysAttentive(s, Note(s, m));
    } else if m == RequestIn || m.MetadataRequestIn? {
      AnswersAttentive(s, m, view, now);
    } else if m.HaveIn? || m.BitfieldIn? {
      HearsPlain(s, m);
      var t := Hear(s, m);
      var learnt := t.(peerBits := LearnPieces(t.peerBits, m, view));
      StaysAttentive(t, learnt);
      InterestAttentive(learnt, view);
    } else if m.BadMessage? || m.ExtensionBad? {
      HearsPlain(s, m);
      LeaveAttentive(Hear(s, m), now);
    } else {
      NoteAttentive(s, m);
    }
  }

  lemma CloseAttentive(s: Session, e: Env)
    requires Attentive(s)
    ensures Attentive(ReadAndClose(s, e))
  {
    hide Attentive;
    hide Receive;
    hide HandleNetwork;
    ReceiveAttentive(s, e.incoming, e.incomingView, e.now);
    var s1 := ReadMessage(s, e);
    assert Attentive(s1);
    hide ReadMessage;
    var s2 := SendKeepAlive(s1, e);
    if s2 != s1 {
      SpeaksFreely(s1, s2, KeepAlive);
    }
    LeaveAttentive(s2, e.timeoutNow);
    NetworkAttentive(Timeout(s2, e), e.after, e.timeoutNow);
  }

  lemma RunAttentive(s: Session, e: Env)
    requires Attentive(s)
    ensures Attentive(PeerRun(s, e))
  {
    hide Attentive;
    hide Shake;
    hide Send;
    hide ReadAndClose;
    ShakeAttentive(s, e);
    SendAttentive(Shake(s, e).0, e);
    CloseAttentive(Send(Shake(s, e).0, e), e);
  }

  // --- every run of a peer ------------------------------------------------------------------------------

  lemma FreshAttentive(now: int)
    ensures Attentive(Fresh(now))
  {
    NothingHeard();
    hide Courteous;
    hide Owes;
  }

  lemma NextAttentive(s: Session, event: Event)
    requires Attentive(s) && Next(s, event).Some?
    ensures Attentive(Next(s, event).value)
  {
    hide Attentive;
    hide PeerRun;
    match event
    case Scheduled(e) => RunAttentive(s, e);
    case _ => StaysAttentive(s, Next(s, event).value);
  }

  /** Over every sequence of events, what is known of the peer is what it said last over the open connection; and over
      each connection, past or open, nothing was asked of a peer that choked, no metadata of one that gives none, and
      every request was answered once. */
  lemma {:induction false} ConnectionsAreAttentive(now: int, events: seq<Event>)
    requires After(now, events).Some?
    ensures Attentive(After(now, events).value)
  {
    if events == [] {
      FreshAttentive(now);
    } else {
      hide Attentive;
      hide Next;
      ConnectionsAreAttentive(now, events[..|events| - 1]);
      NextAttentive(After(now, events[..|events| - 1]).value, events[|events| - 1]);
    }
  }
}

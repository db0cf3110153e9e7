/** What every connection is given to send, over every run of a peer. */
module PeerInvariant {
  import opened Options
  import opened PeerSessions

  function Count(log: seq<Msg>, m: Msg): nat {
    if log == [] then 0 else Count(log[..|log| - 1], m) + if log[|log| - 1] == m then 1 else 0
  }

  /** How far `on` is ahead of `off`. */
  function Lead(log: seq<Msg>, on: Msg, off: Msg): int {
    Count(log, on) - Count(log, off)
  }

  // --- what is promised of a log ------------------------------------------------------------------------

  /** `on` and `off` take turns, `on` first. */
  ghost predicate TakeTurns(log: seq<Msg>, on: Msg, off: Msg) {
    forall k :: 0 <= k <= |log| ==> 0 <= Lead(log[..k], on, off) <= 1
  }

  ghost predicate StartsWithHandshake(log: seq<Msg>) {
    forall i :: 0 <= i < |log| ==> (log[i] == Handshake <==> i == 0)
  }

  ghost predicate OneBitfield(log: seq<Msg>) {
    forall i, j :: 0 <= i < j < |log| ==> !(log[i].BitfieldMsg? && log[j].BitfieldMsg?)
  }

  /** Requests are only sent between an interested and the not-interested after it. */
  ghost predicate AsksWhenInterested(log: seq<Msg>) {
    forall i :: 0 <= i < |log| && log[i] == Request ==> Lead(log[..i], Interested, NotInterested) == 1
  }

  /** A keepalive is the last thing that a connection is given. */
  ghost predicate KeepAliveIsLast(log: seq<Msg>) {
    forall i :: 0 <= i < |log| && log[i] == KeepAlive ==> i == |log| - 1
  }

  ghost predicate Proper(log: seq<Msg>) {
    && StartsWithHandshake(log) && OneBitfield(log)
    && TakeTurns(log, Unchoke, Choke) && TakeTurns(log, Interested, NotInterested)
    && AsksWhenInterested(log) && KeepAliveIsLast(log)
  }

  /** What may come after a log. */
  ghost predicate MayFollow(log: seq<Msg>, m: Msg) {
    && (m == Handshake <==> log == [])
    && (m.BitfieldMsg? ==> forall i :: 0 <= i < |log| ==> !log[i].BitfieldMsg?)
    && (m == Unchoke ==> Lead(log, Unchoke, Choke) == 0)
    && (m == Choke ==> Lead(log, Unchoke, Choke) == 1)
    && (m == Interested ==> Lead(log, Interested, NotInterested) == 0)
    && (m == NotInterested ==> Lead(log, Interested, NotInterested) == 1)
    && (m == Request ==> Lead(log, Interested, NotInterested) == 1)
    && KeepAlive !in log
  }

  lemma CountSnoc(log: seq<Msg>, m: Msg, n: Msg)
    ensures Count(log + [m], n) == Count(log, n) + if m == n then 1 else 0
  {
    assert (log + [m])[..|log|] == log;
  }

  lemma TurnsSnoc(log: seq<Msg>, m: Msg, on: Msg, off: Msg)
    requires TakeTurns(log, on, off) && 0 <= Lead(log + [m], on, off) <= 1
    ensures TakeTurns(log + [m], on, off)
  {
    var more := log + [m];
    forall k | 0 <= k <= |more|
      ensures 0 <= Lead(more[..k], on, off) <= 1
    {
      if k <= |log| {
        assert more[..k] == log[..k];
      } else {
        assert more[..k] == more;
      }
    }
  }

  lemma AsksSnoc(log: seq<Msg>, m: Msg)
    requires AsksWhenInterested(log) && (m == Request ==> Lead(log, Interested, NotInterested) == 1)
    ensures AsksWhenInterested(log + [m])
  {
    var more := log + [m];
    forall i | 0 <= i < |more| && more[i] == Request
      ensures Lead(more[..i], Interested, NotInterested) == 1
    {
      assert more[..i] == log[..i];
      assert log[..|log|] == log;
    }
  }

  lemma ProperSnoc(log: seq<Msg>, m: Msg)
    requires Proper(log) && MayFollow(log, m)
    ensures Proper(log + [m])
  {
    assert log[..|log|] == log;
    CountSnoc(log, m, Unchoke);
    CountSnoc(log, m, Choke);
    CountSnoc(log, m, Interested);
    CountSnoc(log, m, NotInterested);
    assert 0 <= Lead(log, Unchoke, Choke) <= 1 && 0 <= Lead(log, Interested, NotInterested) <= 1;
    hide Count;
    assert OneBitfield(log + [m]) && StartsWithHandshake(log + [m]) && KeepAliveIsLast(log + [m]);
    TurnsSnoc(log, m, Unchoke, Choke);
    TurnsSnoc(log, m, Interested, NotInterested);
    AsksSnoc(log, m);
  }

  // --- the invariant ------------------------------------------------------------------------------------

  /** The state remembers what was sent. */
  ghost predicate Remembers(s: Session) {
    && Lead(s.log, Unchoke, Choke) == (if s.amChoking then 0 else 1)
    && Lead(s.log, Interested, NotInterested) == (if s.amInterested then 1 else 0)
    && (s.bitfieldSent <==> exists i :: 0 <= i < |s.log| && s.log[i].BitfieldMsg?)
    && s.pending == Count(s.log, Request) - s.piecesIn
  }

  ghost predicate Shaped(s: Session) {
    && (s.socket <==> s.status != UNCONNECTED)
    && (s.status == UNCONNECTED || s.status == CONNECTED ==> s.log == [] && s.piecesIn == 0)
    && (s.status == HANDSHAKE_SENT ==> s.log == [Handshake])
    && (s.status == HANDSHAKE_COMPLETE ==> s.log != [])
    && (s.amInterested ==> s.peerBits.Some?)
    && s.pending <= REQUEST_MSG_QUEUE_LENGTH
  }

  ghost predicate PastProper(s: Session) {
    forall i :: 0 <= i < |s.past| ==> Proper(s.past[i])
  }

  ghost predicate Inv(s: Session) {
    Shaped(s) && Remembers(s) && Proper(s.log) && KeepAlive !in s.log && PastProper(s)
  }

  /** What the state has to be for a message to be sent, after the handshake. */
  ghost predicate Allowed(s: Session, m: Msg) {
    && s.status == HANDSHAKE_COMPLETE && m != Handshake && m != KeepAlive
    && (m.BitfieldMsg? ==> !s.bitfieldSent)
    && (m == Unchoke ==> s.amChoking) && (m == Choke ==> !s.amChoking)
    && (m == Interested ==> !s.amInterested) && (m == NotInterested ==> s.amInterested)
    && (m == Request ==> s.amInterested && s.pending < REQUEST_MSG_QUEUE_LENGTH)
  }

  /** The state after sending a message, apart from what the log does not depend on. */
  ghost predicate Noted(s: Session, s': Session, m: Msg) {
    && s'.log == s.log + [m] && s'.past == s.past && s'.piecesIn == s.piecesIn
    && s'.status == s.status && s'.socket == s.socket
    && s'.amChoking == (if m == Unchoke then false else if m == Choke then true else s.amChoking)
    && s'.amInterested == (if m == Interested then true else if m == NotInterested then false else s.amInterested)
    && s'.bitfieldSent == (s.bitfieldSent || m.BitfieldMsg?)
    && s'.pending == s.pending + (if m == Request then 1 else 0)
    && (s'.amInterested ==> s'.peerBits.Some?)
  }

  lemma AllowedFollows(s: Session, m: Msg)
    requires Inv(s) && Allowed(s, m)
    ensures MayFollow(s.log, m)
  {
    hide Count;
    hide Proper;
  }

  lemma NotedRemembers(s: Session, s': Session, m: Msg)
    requires Remembers(s) && Allowed(s, m) && Noted(s, s', m)
    ensures Remembers(s')
  {
    CountSnoc(s.log, m, Unchoke);
    CountSnoc(s.log, m, Choke);
    CountSnoc(s.log, m, Interested);
    CountSnoc(s.log, m, NotInterested);
    CountSnoc(s.log, m, Request);
    hide Count;
    if s.bitfieldSent {
      var i :| 0 <= i < |s.log| && s.log[i].BitfieldMsg?;
      assert s'.log[i].BitfieldMsg?;
    } else if m.BitfieldMsg? {
      assert s'.log[|s.log|].BitfieldMsg?;
    }
  }

  lemma SayKeeps(s: Session, s': Session, m: Msg)
    requires Inv(s) && Allowed(s, m) && Noted(s, s', m)
    ensures Inv(s')
  {
    AllowedFollows(s, m);
    ProperSnoc(s.log, m);
    NotedRemembers(s, s', m);
    hide Proper;
    hide Remembers;
  }

  lemma DisconnectKeeps(s: Session, now: int)
    requires Shaped(s) && Proper(s.log) && PastProper(s)
    ensures Inv(Disconnect(s, now))
  {
    hide Proper;
    EmptyIsProper();
  }

  lemma EmptyIsProper()
    ensures Proper([])
  {
  }

  lemma InterestNeedsBits(s: Session)
    requires Inv(s)
    ensures s.amInterested ==> s.peerBits.Some?
  {
  }

  lemma InterestKeeps(s: Session, view: View)
    requires Inv(s) && s.status == HANDSHAKE_COMPLETE
    ensures Inv(UpdateInterested(s, view)) && UpdateInterested(s, view).status == HANDSHAKE_COMPLETE
  {
    var s' := UpdateInterested(s, view);
    hide Inv;
    hide Interesting;
    if s' != s {
      SayKeeps(s, s', if s.amInterested then NotInterested else Interested);
    }
  }

  lemma {:induction false} HavesKeep(s: Session)
    requires Inv(s) && s.status == HANDSHAKE_COMPLETE
    ensures Inv(SayHaves(s)) && SayHaves(s).status == HANDSHAKE_COMPLETE
    decreases |s.progress|
  {
    if s.progress != [] {
      var s' := Say(s, Have(s.progress[0])).(progress := s.progress[1..]);
      hide Inv;
      InterestNeedsBits(s);
      SayKeeps(s, s', Have(s.progress[0]));
      HavesKeep(s');
    }
  }

  lemma RequestKeeps(s: Session)
    requires Inv(s) && s.status == HANDSHAKE_COMPLETE && s.amInterested && s.pending < REQUEST_MSG_QUEUE_LENGTH
    ensures Inv(SayRequest(s))
  {
    hide Inv;
    InterestNeedsBits(s);
    SayKeeps(s, SayRequest(s), Request);
  }

  lemma {:induction false} RequestsKeep(s: Session, n: nat)
    requires Inv(s) && s.status == HANDSHAKE_COMPLETE && s.amInterested && s.pending + n <= REQUEST_MSG_QUEUE_LENGTH
    ensures var s' := SayRequests(s, n);
            Inv(s') && s'.status == HANDSHAKE_COMPLETE && s'.amInterested && s'.pending == s.pending + n
  {
    hide Inv;
    if n > 0 {
      RequestsKeep(s, n - 1);
      RequestKeeps(SayRequests(s, n - 1));
    }
  }

  lemma SendHavesKeeps(s: Session, view: View)
    requires Inv(s)
    ensures Inv(SendHaves(s, view))
  {
    hide Inv;
    hide UpdateInterested;
    hide SayHaves;
    if s.progress != [] && s.status == HANDSHAKE_COMPLETE {
      HavesKeep(s);
      InterestKeeps(SayHaves(s), view);
    }
  }

  lemma SendKeeps(s: Session, e: Env)
    requires Inv(s)
    ensures Inv(Send(s, e))
  {
    hide Inv;
    hide UpdateInterested;
    hide SayHaves;
    hide SayRequests;
    var s1 := SendHaves(s, e.haveView);
    SendHavesKeeps(s, e.haveView);
    var s2 := SendBitfield(s1, e.bitfieldView);
    BitfieldKeeps(s1, e.bitfieldView);
    var s3 := SendMetadataRequest(s2, e);
    MetadataRequestKeeps(s2, e);
    var s4 := SendRequests(s3, e);
    if ShouldRequest(s3, e.requestView) {
      var room := REQUEST_MSG_QUEUE_LENGTH - s3.pending;
      RequestsKeep(s3, if e.chunksClaimed < room then e.chunksClaimed else room);
    }
    ChokingKeeps(s4);
  }

  lemma BitfieldKeeps(s: Session, view: View)
    requires Inv(s)
    ensures Inv(SendBitfield(s, view))
  {
    hide Inv;
    InterestNeedsBits(s);
    var s' := SendBitfield(s, view);
    if s.status == HANDSHAKE_COMPLETE && !s.bitfieldSent && view.needed {
      SayKeeps(s, s', s'.log[|s.log|]);
    }
  }

  lemma MetadataRequestKeeps(s: Session, e: Env)
    requires Inv(s)
    ensures Inv(SendMetadataRequest(s, e))
  {
    hide Inv;
    InterestNeedsBits(s);
    var s' := SendMetadataRequest(s, e);
    if s' != s {
      SayKeeps(s, s', MetadataRequest);
    }
  }

  lemma ChokingKeeps(s: Session)
    requires Inv(s)
    ensures Inv(UpdateChoking(s))
  {
    hide Inv;
    InterestNeedsBits(s);
    var s' := UpdateChoking(s);
    if s' != s {
      SayKeeps(s, s', if s.amChoking then Unchoke else Choke);
    }
  }

  // --- the rest of a run --------------------------------------------------------------------------------

  lemma ConnectKeeps(s: Session, e: Env)
    requires Inv(s)
    ensures Inv(TryConnect(s, e))
  {
    hide Proper;
    hide Remembers;
    var s' := TryConnect(s, e);
    assert Remembers(s') by { SameMemory(s, s'); }
  }

  /** What the log and the flags about it do not depend on. */
  lemma SameMemory(s: Session, s': Session)
    requires Remembers(s) && s'.log == s.log && s'.amChoking == s.amChoking && s'.amInterested == s.amInterested
    requires s'.bitfieldSent == s.bitfieldSent && s'.pending + s'.piecesIn == s.pending + s.piecesIn
    ensures Remembers(s')
  {
    hide Count;
  }

  lemma NetworkKeeps(s: Session, n: Network, now: int)
    requires Inv(s)
    ensures Inv(HandleNetwork(s, n, now).0)
  {
    hide Proper;
    hide Remembers;
    if s.socket && s.fd && n == Lost {
      DisconnectKeeps(s, now);
    } else {
      SameMemory(s, HandleNetwork(s, n, now).0);
    }
  }

  lemma FirstMessage()
    ensures Proper([Handshake]) && KeepAlive !in [Handshake]
    ensures Lead([Handshake], Unchoke, Choke) == 0 && Lead([Handshake], Interested, NotInterested) == 0
    ensures Count([Handshake], Request) == 0
  {
    hide Proper;
    hide Count;
    NothingCounted();
    EmptyIsProper();
    assert [] + [Handshake] == [Handshake];
    ProperSnoc([], Handshake);
    CountSnoc([], Handshake, Unchoke);
    CountSnoc([], Handshake, Choke);
    CountSnoc([], Handshake, Interested);
    CountSnoc([], Handshake, NotInterested);
    CountSnoc([], Handshake, Request);
  }

  lemma FirstIsRemembered(s: Session, s': Session)
    requires Shaped(s) && Remembers(s) && s.status == CONNECTED && s' == Say(s, Handshake).(status := HANDSHAKE_SENT)
    ensures s'.log == [Handshake] && Remembers(s')
  {
    FirstMessage();
    hide Proper;
    hide Count;
    assert [] + [Handshake] == [Handshake];
    assert !s.bitfieldSent && Lead([], Unchoke, Choke) == 0 && Lead([], Interested, NotInterested) == 0
        && s.pending == 0 by {
      NothingCounted();
    }
  }

  lemma NothingCounted()
    ensures forall m :: Count([], m) == 0
  {
  }

  lemma HandshakeKeeps(s: Session, e: Env)
    requires Inv(s)
    ensures Inv(SendHandshake(s, e))
  {
    hide Proper;
    hide Remembers;
    hide Count;
    if s.status == CONNECTED && s.socket && s.fd && e.writable {
      FirstIsRemembered(s, SendHandshake(s, e));
      FirstMessage();
    }
  }

  lemma CompleteKeeps(s: Session)
    requires Inv(s) && s.status == HANDSHAKE_SENT
    ensures Inv(s.(status := HANDSHAKE_COMPLETE))
  {
    hide Proper;
    SameMemory(s, s.(status := HANDSHAKE_COMPLETE));
    hide Remembers;
  }

  lemma AnswerKeeps(s: Session, e: Env)
    requires Inv(s)
    ensures Inv(HandleHandshake(s, e).0)
  {
    hide Inv;
    hide AnswerOk;
    if s.status == HANDSHAKE_SENT && s.socket && s.fd && s.received != [] {
      if !AnswerOk(s.received, e.infoHash) {
        LossKeeps(s, e.now);
      } else {
        var done := s.(status := HANDSHAKE_COMPLETE);
        CompleteKeeps(s);
        if HandleHandshake(s, e).0 != done {
          InterestNeedsBits(done);
          SayKeeps(done, HandleHandshake(s, e).0, ExtendedHandshake);
        }
      }
    }
  }

  /** The same log and the same memory of it. */
  ghost predicate SameTalk(s: Session, s': Session) {
    && s'.log == s.log && s'.past == s.past && s'.status == s.status && s'.socket == s.socket
    && s'.amChoking == s.amChoking && s'.amInterested == s.amInterested && s'.bitfieldSent == s.bitfieldSent
    && s'.pending + s'.piecesIn == s.pending + s.piecesIn && s'.pending <= s.pending
    && (s.status != HANDSHAKE_COMPLETE ==> s'.piecesIn == s.piecesIn)
    && (s.peerBits.Some? ==> s'.peerBits.Some?)
  }

  lemma SameTalkKeeps(s: Session, s': Session)
    requires Inv(s) && SameTalk(s, s')
    ensures Inv(s')
  {
    hide Proper;
    SameMemory(s, s');
    hide Remembers;
  }

  lemma NoteKeeps(s: Session, incoming: Incoming)
    requires Inv(s) && s.status == HANDSHAKE_COMPLETE
    ensures Inv(Note(s, incoming))
  {
    hide Inv;
    SameTalkKeeps(s, Note(s, incoming));
  }

  lemma AnswerToRequestKeeps(s: Session, m: Msg)
    requires Inv(s) && s.status == HANDSHAKE_COMPLETE && (m == Piece || m == MetadataPiece)
    ensures Inv(Say(s, m))
  {
    hide Inv;
    InterestNeedsBits(s);
    SayKeeps(s, Say(s, m), m);
  }

  lemma ReceiveKeeps(s: Session, incoming: Incoming, view: View, now: int)
    requires Inv(s) && s.status == HANDSHAKE_COMPLETE
    ensures Inv(Receive(s, incoming, view, now))
  {
    hide Inv;
    hide LearnPieces;
    hide UpdateInterested;
    hide Disconnect;
    hide Say;
    hide Note;
    LossKeeps(s, now);
    AnswerToRequestKeeps(s, Piece);
    AnswerToRequestKeeps(s, MetadataPiece);
    NoteKeeps(s, incoming);
    if incoming.HaveIn? || incoming.BitfieldIn? {
      LearnKeeps(s, incoming, view);
    }
  }

  lemma LossKeeps(s: Session, now: int)
    requires Inv(s)
    ensures Inv(Disconnect(s, now))
  {
    DisconnectKeeps(s, now);
  }

  lemma LearnKeeps(s: Session, incoming: Incoming, view: View)
    requires Inv(s) && s.status == HANDSHAKE_COMPLETE && (incoming.HaveIn? || incoming.BitfieldIn?)
    ensures Inv(UpdateInterested(s.(peerBits := LearnPieces(s.peerBits, incoming, view)), view))
  {
    var learnt := s.(peerBits := LearnPieces(s.peerBits, incoming, view));
    assert learnt.peerBits.Some?;
    hide Inv;
    hide LearnPieces;
    SameTalkKeeps(s, learnt);
    InterestKeeps(learnt, view);
  }

  /** A keepalive is due only when the timeout is due as well, so the connection that was given one is dropped in the
      same run, before the network is written to again. */
  lemma KeepAliveIsDropped(s: Session, e: Env)
    requires SendKeepAlive(s, e) != s && e.keepAliveNow <= e.timeoutNow
    ensures var s' := Timeout(SendKeepAlive(s, e), e);
            s'.status == UNCONNECTED && !s'.socket && s'.past == s.past + [s.log + [KeepAlive]]
  {
  }

  lemma CloseKeeps(s: Session, e: Env)
    requires Inv(s) && e.keepAliveNow <= e.timeoutNow
    ensures Inv(Timeout(SendKeepAlive(s, e), e))
  {
    var s1 := SendKeepAlive(s, e);
    if s1 != s {
      KeepAliveFollows(s);
      hide Proper;
      hide Remembers;
      assert TimesOut(s1, e.timeoutNow);
      DisconnectKeeps(s1, e.timeoutNow);
    } else if TimesOut(s, e.timeoutNow) {
      DisconnectKeeps(s, e.timeoutNow);
    }
  }

  lemma KeepAliveFollows(s: Session)
    requires Inv(s) && s.log != []
    ensures Proper(s.log + [KeepAlive])
  {
    ProperSnoc(s.log, KeepAlive);
  }

  lemma ShakeKeeps(s: Session, e: Env)
    requires Inv(s)
    ensures Inv(Shake(s, e).0)
  {
    hide Inv;
    hide TryConnect;
    hide HandleNetwork;
    hide SendHandshake;
    hide HandleHandshake;
    ConnectKeeps(s, e);
    NetworkKeeps(TryConnect(s, e), e.before, e.now);
    var s1 := HandleNetwork(TryConnect(s, e), e.before, e.now).0;
    HandshakeKeeps(s1, e);
    AnswerKeeps(SendHandshake(s1, e), e);
  }

  lemma HearKeeps(s: Session, incoming: Incoming)
    requires Inv(s)
    ensures Inv(Hear(s, incoming)) && Hear(s, incoming).status == s.status
  {
    hide Inv;
    SameTalkKeeps(s, Hear(s, incoming));
  }

  lemma RunKeeps(s: Session, e: Env)
    requires Inv(s) && e.keepAliveNow <= e.timeoutNow
    ensures Inv(PeerRun(s, e))
  {
    hide Inv;
    hide TryConnect;
    hide HandleNetwork;
    hide SendHandshake;
    hide HandleHandshake;
    hide Send;
    hide Receive;
    hide SendKeepAlive;
    hide Timeout;
    ShakeKeeps(s, e);
    hide Shake;
    var s2 := Shake(s, e).0;
    SendKeeps(s2, e);
    var s3 := Send(s2, e);
    if s3.status == HANDSHAKE_COMPLETE {
      HearKeeps(s3, e.incoming);
      ReceiveKeeps(Hear(s3, e.incoming), e.incoming, e.incomingView, e.now);
    }
    var s4 := ReadMessage(s3, e);
    CloseKeeps(s4, e);
    NetworkKeeps(Timeout(SendKeepAlive(s4, e), e), e.after, e.timeoutNow);
  }

  // --- every run of a peer ------------------------------------------------------------------------------

  /** What happens to a peer: it is scheduled, or another thread gives it a socket, an upload slot or a finished
      piece. What other threads do while the peer runs counts as done before or after that run, so a slot or a
      finished piece can also meet a peer that is not past its handshake. */
  datatype Event =
    | Accepted(now: int)
    | Slot(uploader: bool)
    | Finished(piece: int)
    | Scheduled(env: Env)

  /** A socket is only given to a peer that has none, and the clock does not go back during a run. */
  function Next(s: Session, event: Event): Option<Session> {
    match event
    case Accepted(now) => if s.status == UNCONNECTED then Some(SetSocket(s, now)) else None
    case Slot(uploader) => Some(s.(uploader := uploader))
    case Finished(piece) => Some(s.(progress := s.progress + [piece]))
    case Scheduled(e) => if e.keepAliveNow <= e.timeoutNow then Some(PeerRun(s, e)) else None
  }

  /** The state after a sequence of events, or None if one of them cannot happen. */
  function From(s: Session, events: seq<Event>): Option<Session> {
    if events == [] then Some(s)
    else
      var before := From(s, events[..|events| - 1]);
      if before == None then None else Next(before.value, events[|events| - 1])
  }

  function After(now: int, events: seq<Event>): Option<Session> {
    From(Fresh(now), events)
  }

  lemma SocketKeeps(s: Session, now: int)
    requires Inv(s) && s.status == UNCONNECTED
    ensures Inv(SetSocket(s, now))
  {
    hide Proper;
    SameMemory(s, SetSocket(s, now));
    hide Remembers;
  }

  lemma NextKeeps(s: Session, event: Event)
    requires Inv(s) && Next(s, event).Some?
    ensures Inv(Next(s, event).value)
  {
    hide Inv;
    hide PeerRun;
    match event
    case Accepted(now) => SocketKeeps(s, now);
    case Scheduled(e) => RunKeeps(s, e);
    case _ => SameTalkKeeps(s, Next(s, event).value);
  }

  lemma {:induction false} EveryRunKeeps(now: int, events: seq<Event>)
    requires After(now, events).Some?
    ensures Inv(After(now, events).value)
  {
    if events == [] {
      EmptyIsProper();
    } else {
      hide Inv;
      hide Next;
      EveryRunKeeps(now, events[..|events| - 1]);
      NextKeeps(After(now, events[..|events| - 1]).value, events[|events| - 1]);
    }
  }

  ghost predicate LastAt(log: seq<Msg>, on: Msg, off: Msg, i: nat) {
    i < |log| && log[i] == on && forall j :: i < j < |log| ==> log[j] != off
  }

  /** The last of the two that was sent is `on`. */
  ghost predicate LastSent(log: seq<Msg>, on: Msg, off: Msg) {
    exists i :: LastAt(log, on, off, i)
  }

  lemma {:induction false} LeadIsLast(log: seq<Msg>, on: Msg, off: Msg)
    requires TakeTurns(log, on, off) && on != off
    ensures LastSent(log, on, off) <==> Lead(log, on, off) == 1
  {
    if log != [] {
      var front, m := log[..|log| - 1], log[|log| - 1];
      forall k | 0 <= k <= |front|
        ensures 0 <= Lead(front[..k], on, off) <= 1
      {
        assert front[..k] == log[..k];
      }
      LeadIsLast(front, on, off);
      assert front[..|front|] == front && log[..|log|] == log;
      assert 0 <= Lead(front, on, off) <= 1 && 0 <= Lead(log, on, off) <= 1;
      LastSnoc(front, m, on, off);
      assert log == front + [m];
      hide LastSent;
    }
  }

  lemma LastSnoc(log: seq<Msg>, m: Msg, on: Msg, off: Msg)
    requires on != off
    ensures LastSent(log + [m], on, off) <==> m == on || (m != off && LastSent(log, on, off))
  {
    var more := log + [m];
    if m == on {
      assert LastAt(more, on, off, |log|);
    } else {
      forall i: nat
        ensures LastAt(more, on, off, i) <==> m != off && LastAt(log, on, off, i)
      {
        LastAtSnoc(log, m, on, off, i);
      }
    }
  }

  lemma LastAtSnoc(log: seq<Msg>, m: Msg, on: Msg, off: Msg, i: nat)
    requires on != off && m != on
    ensures LastAt(log + [m], on, off, i) <==> m != off && LastAt(log, on, off, i)
  {
    var more := log + [m];
    assert more[|log|] == m;
    assert forall j :: 0 <= j < |log| ==> more[j] == log[j];
  }

  /** What each connection, past or open, was given to send is proper; the choking and interest flags say what was
      last sent over the open one; its requests that are not yet answered are counted and never more than ten; and it
      has not been given a keepalive. */
  ghost predicate Sound(s: Session) {
    && Proper(s.log) && PastProper(s)
    && (s.amChoking <==> !LastSent(s.log, Unchoke, Choke))
    && (s.amInterested <==> LastSent(s.log, Interested, NotInterested))
    && s.pending == Count(s.log, Request) - s.piecesIn && s.pending <= 10
    && KeepAlive !in s.log
  }

  lemma InvIsSound(s: Session)
    requires Inv(s)
    ensures Sound(s)
  {
    LeadIsLast(s.log, Unchoke, Choke);
    LeadIsLast(s.log, Interested, NotInterested);
    hide TakeTurns;
    hide LastSent;
    hide Count;
  }

  /** Over every sequence of events. */
  lemma ConnectionsAreProper(now: int, events: seq<Event>)
    requires After(now, events).Some?
    ensures Sound(After(now, events).value)
  {
    EveryRunKeeps(now, events);
    hide Inv;
    hide Sound;
    hide After;
    InvIsSound(After(now, events).value);
  }
}

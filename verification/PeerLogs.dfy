/** How the log of a connection grows, and where the bitfield comes in it. */
module PeerLogs {
  import opened Bytes
  import opened PeerSessions
  import opened PeerInvariant

  // --- growing logs -------------------------------------------------------------------------------------

  /** `b` is `a` followed by messages other than the bitfield. */
  ghost predicate Adds(a: seq<Msg>, b: seq<Msg>) {
    a <= b && forall i :: |a| <= i < |b| ==> !b[i].BitfieldMsg?
  }

  lemma AddsTwice(a: seq<Msg>, b: seq<Msg>, c: seq<Msg>)
    requires Adds(a, b) && Adds(b, c)
    ensures Adds(a, c)
  {
    assert forall i :: 0 <= i < |b| ==> b[i] == c[i];
  }

  /** The connection goes on. */
  ghost predicate Goes(s: Session, s': Session) {
    s'.past == s.past && Adds(s.log, s'.log)
  }

  /** The connection is over, and its log is with the past ones. */
  ghost predicate Ends(s: Session, s': Session) {
    && |s'.past| == |s.past| + 1 && s'.past[..|s.past|] == s.past
    && Adds(s.log, s'.past[|s.past|]) && s'.log == [] && !s'.socket
  }

  ghost predicate Moves(s: Session, s': Session) {
    Goes(s, s') || Ends(s, s')
  }

  lemma GoesThenMoves(s: Session, s': Session, s'': Session)
    requires Goes(s, s') && Moves(s', s'')
    ensures Moves(s, s'')
    ensures Goes(s', s'') ==> Goes(s, s'')
  {
    if Goes(s', s'') {
      AddsTwice(s.log, s'.log, s''.log);
    } else {
      AddsTwice(s.log, s'.log, s''.past[|s.past|]);
    }
  }

  lemma SayGoes(s: Session, s': Session, m: Msg)
    requires s'.log == s.log + [m] && s'.past == s.past && !m.BitfieldMsg?
    ensures Goes(s, s')
  {
  }

  lemma DisconnectEnds(s: Session, now: int)
    ensures Ends(s, Disconnect(s, now))
  {
    assert (s.past + [s.log])[..|s.past|] == s.past;
  }

  lemma InterestGoes(s: Session, view: View)
    ensures Goes(s, UpdateInterested(s, view))
    ensures var s' := UpdateInterested(s, view);
            && s'.status == s.status && s'.bitfieldSent == s.bitfieldSent
            && s'.progress == s.progress && s'.socket == s.socket
  {
    hide Interesting;
    var s' := UpdateInterested(s, view);
    if s' != s {
      SayGoes(s, s', if s.amInterested then NotInterested else Interested);
    }
  }

  lemma {:induction false} HavesGo(s: Session)
    ensures Goes(s, SayHaves(s)) && |SayHaves(s).log| == |s.log| + |s.progress|
    ensures var s' := SayHaves(s); s'.status == s.status && s'.bitfieldSent == s.bitfieldSent && s'.socket == s.socket
    decreases |s.progress|
  {
    if s.progress != [] {
      var s' := Say(s, Have(s.progress[0])).(progress := s.progress[1..]);
      SayGoes(s, s', Have(s.progress[0]));
      HavesGo(s');
      GoesThenMoves(s, s', SayHaves(s'));
    }
  }

  lemma SendHavesGoes(s: Session, view: View)
    ensures Goes(s, SendHaves(s, view))
            && |SendHaves(s, view).log| >= |s.log| + if s.status == HANDSHAKE_COMPLETE then |s.progress| else 0
    ensures s.progress == [] ==> SendHaves(s, view) == s
    ensures var s' := SendHaves(s, view);
            s'.status == s.status && s'.bitfieldSent == s.bitfieldSent && s'.socket == s.socket
  {
    HavesGo(s);
    InterestGoes(SayHaves(s), view);
    GoesThenMoves(s, SayHaves(s), UpdateInterested(SayHaves(s), view));
    hide SayHaves;
    hide UpdateInterested;
  }

  lemma {:induction false} RequestsGo(s: Session, n: nat)
    ensures Goes(s, SayRequests(s, n)) && SayRequests(s, n).socket == s.socket
  {
    if n > 0 {
      var s' := SayRequests(s, n - 1);
      RequestsGo(s, n - 1);
      SayGoes(s', SayRequest(s'), Request);
      GoesThenMoves(s, s', SayRequest(s'));
    }
  }

  /** What a run sends after the bitfield. */
  function SendRest(s: Session, e: Env): Session {
    UpdateChoking(SendRequests(SendMetadataRequest(s, e), e))
  }

  lemma MetadataRequestGoes(s: Session, e: Env)
    ensures Goes(s, SendMetadataRequest(s, e))
  {
    var s' := SendMetadataRequest(s, e);
    if s' != s {
      SayGoes(s, s', MetadataRequest);
    }
  }

  lemma SendRequestsGoes(s: Session, e: Env)
    ensures Goes(s, SendRequests(s, e))
  {
    hide SayRequests;
    if ShouldRequest(s, e.requestView) {
      var room := REQUEST_MSG_QUEUE_LENGTH - s.pending;
      RequestsGo(s, if e.chunksClaimed < room then e.chunksClaimed else room);
    }
  }

  lemma ChokingGoes(s: Session)
    ensures Goes(s, UpdateChoking(s))
  {
    var s' := UpdateChoking(s);
    if s' != s {
      SayGoes(s, s', if s.amChoking then Unchoke else Choke);
    }
  }

  lemma SendRestGoes(s: Session, e: Env)
    ensures Goes(s, SendRest(s, e))
  {
    hide SendMetadataRequest;
    hide SendRequests;
    hide UpdateChoking;
    hide Goes;
    hide Ends;
    var s1 := SendMetadataRequest(s, e);
    var s2 := SendRequests(s1, e);
    MetadataRequestGoes(s, e);
    SendRequestsGoes(s1, e);
    ChokingGoes(s2);
    GoesThenMoves(s, s1, s2);
    GoesThenMoves(s, s2, UpdateChoking(s2));
  }

  lemma LearnGoes(s: Session, incoming: Incoming, view: View)
    ensures Goes(s, UpdateInterested(s.(peerBits := LearnPieces(s.peerBits, incoming, view)), view))
  {
    hide UpdateInterested;
    hide LearnPieces;
    InterestGoes(s.(peerBits := LearnPieces(s.peerBits, incoming, view)), view);
  }

  lemma ReceiveMoves(s: Session, incoming: Incoming, view: View, now: int)
    ensures Moves(s, Receive(s, incoming, view, now))
  {
    hide Disconnect;
    hide UpdateInterested;
    hide LearnPieces;
    hide Note;
    hide Say;
    DisconnectEnds(s, now);
    AnswerGoes(s);
    NoteGoes(s, incoming);
    LearnGoes(s, incoming, view);
    hide Goes;
    hide Ends;
  }

  lemma AnswerGoes(s: Session)
    ensures Goes(s, Say(s, Piece)) && Goes(s, Say(s, MetadataPiece)) && Goes(s, s)
  {
    SayGoes(s, Say(s, Piece), Piece);
    SayGoes(s, Say(s, MetadataPiece), MetadataPiece);
  }

  lemma NoteGoes(s: Session, incoming: Incoming)
    ensures Goes(s, Note(s, incoming))
  {
  }

  lemma HearGoes(s: Session, incoming: Incoming)
    ensures Goes(s, Hear(s, incoming))
  {
  }

  lemma CloseMoves(s: Session, e: Env)
    ensures Moves(s, ReadAndClose(s, e))
  {
    hide Receive;
    HearGoes(s, e.incoming);
    ReceiveMoves(Hear(s, e.incoming), e.incoming, e.incomingView, e.now);
    GoesThenMoves(s, Hear(s, e.incoming), Receive(Hear(s, e.incoming), e.incoming, e.incomingView, e.now));
    AnswerGoes(s);
    var s1 := ReadMessage(s, e);
    if Ends(s, s1) {
      assert ReadAndClose(s, e) == s1;
    } else {
      var s2 := SendKeepAlive(s1, e);
      if s2 != s1 {
        SayGoes(s1, s2, KeepAlive);
      }
      hide ReadMessage;
      GoesThenMoves(s, s1, s2);
      TailMoves(s2, e);
      GoesThenMoves(s, s2, HandleNetwork(Timeout(s2, e), e.after, e.timeoutNow).0);
    }
  }

  lemma TailMoves(s: Session, e: Env)
    ensures Moves(s, HandleNetwork(Timeout(s, e), e.after, e.timeoutNow).0)
  {
    DisconnectEnds(s, e.timeoutNow);
  }

  // --- the place of the bitfield ------------------------------------------------------------------------

  predicate Offers(answer: seq<byte>) {
    |answer| > FLAGS_AT && answer[FLAGS_AT] == EXTENSIONS
  }

  /** What has arrived over the connection when a run looks for the handshake. */
  function Heard(s: Session, e: Env): seq<byte> {
    (if ShouldConnect(s, e) then [] else s.received) + if e.before.Received? then e.before.data else []
  }

  /** A run up to the sending of the handshake says nothing. */
  lemma ReadyIsSilent(s: Session, e: Env)
    requires HandleNetwork(TryConnect(s, e), e.before, e.now).1
    ensures var t := HandleNetwork(TryConnect(s, e), e.before, e.now).0;
            && t.log == s.log && t.past == s.past && t.progress == s.progress && t.bitfieldSent == s.bitfieldSent
            && (t.socket && t.fd ==> t.received == Heard(s, e))
            && t.status == if ShouldConnect(s, e) then CONNECTED else s.status
  {
    ConnectIsSilent(s, e);
    hide TryConnect;
    NetworkIsSilent(TryConnect(s, e), e.before, e.now);
  }

  ghost predicate SaidSame(s: Session, t: Session) {
    t.log == s.log && t.past == s.past && t.progress == s.progress && t.bitfieldSent == s.bitfieldSent
  }

  lemma ConnectIsSilent(s: Session, e: Env)
    ensures SaidSame(s, TryConnect(s, e))
    ensures TryConnect(s, e).status == if ShouldConnect(s, e) then CONNECTED else s.status
    ensures TryConnect(s, e).received == if ShouldConnect(s, e) then [] else s.received
  {
    if ShouldConnect(s, e) {
      assert TryConnect(s, e)
          == s.(status := CONNECTED, socket := true, fd := e.fdOk, received := [], lastRead := e.now);
    } else {
      assert TryConnect(s, e) == s;
    }
  }

  lemma NetworkIsSilent(s: Session, n: Network, now: int)
    requires HandleNetwork(s, n, now).1
    ensures SaidSame(s, HandleNetwork(s, n, now).0) && HandleNetwork(s, n, now).0.status == s.status
    ensures var t := HandleNetwork(s, n, now).0;
            t.socket && t.fd ==> t.received == s.received + if n.Received? then n.data else []
  {
    if s.socket && s.fd && n.Received? {
      assert HandleNetwork(s, n, now).0 == s.(lastRead := n.at, received := s.received + n.data);
    } else {
      assert HandleNetwork(s, n, now).0 == s;
    }
  }

  lemma HelloGoes(s: Session, e: Env)
    ensures var t := SendHandshake(s, e);
            && Goes(s, t) && t.progress == s.progress && t.bitfieldSent == s.bitfieldSent
            && t.received == s.received && t.socket == s.socket && t.fd == s.fd
            && (t == s || (s.status == CONNECTED && t.status == HANDSHAKE_SENT && t.log == s.log + [Handshake]))
  {
    var t := SendHandshake(s, e);
    if t != s {
      SayGoes(s, t, Handshake);
    }
  }

  /** A run up to the sending of the handshake. */
  lemma StartGoes(s: Session, e: Env)
    requires Shaped(s) && HandleNetwork(TryConnect(s, e), e.before, e.now).1
    ensures var t := SendHandshake(HandleNetwork(TryConnect(s, e), e.before, e.now).0, e);
            && Goes(s, t) && t.progress == s.progress && t.bitfieldSent == s.bitfieldSent
            && (t.status == HANDSHAKE_COMPLETE <==> s.status == HANDSHAKE_COMPLETE)
            && (t.status == HANDSHAKE_COMPLETE ==> t.log == s.log != [])
            && (t.status == HANDSHAKE_SENT ==> t.log == [Handshake] && |s.log| <= 1)
            && (t.socket && t.fd ==> t.received == Heard(s, e))
  {
    ReadyIsSilent(s, e);
    HelloGoes(HandleNetwork(TryConnect(s, e), e.before, e.now).0, e);
    hide TryConnect;
    hide HandleNetwork;
    hide SendHandshake;
    hide Adds;
  }

  lemma StartMoves(s: Session, e: Env)
    ensures Moves(s, HandleNetwork(TryConnect(s, e), e.before, e.now).0)
  {
    ConnectIsSilent(s, e);
    hide TryConnect;
    var s1 := TryConnect(s, e);
    if HandleNetwork(s1, e.before, e.now).1 {
      NetworkIsSilent(s1, e.before, e.now);
    } else {
      assert HandleNetwork(s1, e.before, e.now).0 == Disconnect(s1, e.now);
      DisconnectEnds(s1, e.now);
      hide Disconnect;
    }
  }

  lemma AnswerMoves(s: Session, e: Env)
    ensures Moves(s, HandleHandshake(s, e).0)
    ensures var (t, ok) := HandleHandshake(s, e);
            ok ==>
              && Goes(s, t) && t.progress == s.progress && t.bitfieldSent == s.bitfieldSent
              && (if s.status == HANDSHAKE_SENT && t.status == HANDSHAKE_COMPLETE
                  then s.socket && s.fd && |t.log| == |s.log| + (if Offers(s.received) then 1 else 0)
                  else t == s)
  {
    var t := HandleHandshake(s, e).0;
    assert AnswerOk(s.received, e.infoHash) ==> |s.received| > FLAGS_AT;
    hide AnswerOk;
    if s.status == HANDSHAKE_SENT && s.socket && s.fd && s.received != [] {
      if !AnswerOk(s.received, e.infoHash) {
        DisconnectEnds(s, e.now);
        hide Disconnect;
      } else if Offers(s.received) {
        assert t == Say(s, ExtendedHandshake).(status := HANDSHAKE_COMPLETE);
        SayGoes(s, t, ExtendedHandshake);
      } else {
        assert t == s.(status := HANDSHAKE_COMPLETE);
      }
    } else {
      assert t == s;
    }
  }

  /** The first part of a run: what it says is the handshake and, to a peer that offers extensions, the extended
      handshake. */
  lemma ShakeMoves(s: Session, e: Env)
    requires Shaped(s)
    ensures Moves(s, Shake(s, e).0) && (Shake(s, e).1 ==> Goes(s, Shake(s, e).0))
    ensures var (t, ok) := Shake(s, e);
            ok ==>
              && t.progress == s.progress && t.bitfieldSent == s.bitfieldSent
              && (t.status == HANDSHAKE_COMPLETE ==>
                    (|t.log| == 1 <==> |s.log| <= 1 && (s.status == HANDSHAKE_COMPLETE || !Offers(Heard(s, e)))))
  {
    hide TryConnect;
    hide HandleNetwork;
    hide SendHandshake;
    hide HandleHandshake;
    hide Adds;
    hide Offers;
    var (s2, ok) := HandleNetwork(TryConnect(s, e), e.before, e.now);
    StartMoves(s, e);
    if ok {
      var s3 := SendHandshake(s2, e);
      StartGoes(s, e);
      AnswerMoves(s3, e);
      GoesThenMoves(s, s3, HandleHandshake(s3, e).0);
    }
  }

  /** This run sends the bitfield. */
  predicate SendsBitfield(s: Session, e: Env) {
    var (t, ok) := Shake(s, e);
    ok && t.status == HANDSHAKE_COMPLETE && !t.bitfieldSent && e.bitfieldView.needed
  }

  /** The connection has been given the handshake at most, no finished piece waits to be announced, and this run does
      not answer with an extended handshake. */
  predicate Prompt(s: Session, e: Env) {
    |s.log| <= 1 && s.progress == [] && (s.status == HANDSHAKE_COMPLETE || !Offers(Heard(s, e)))
  }

  ghost predicate HasBitfield(log: seq<Msg>) {
    exists i :: 0 <= i < |log| && log[i].BitfieldMsg?
  }

  /** If the log has a bitfield, then it is the message after the handshake exactly if `first`. */
  ghost predicate Placed(log: seq<Msg>, first: bool) {
    HasBitfield(log) ==> ((|log| > 1 && log[1].BitfieldMsg?) <==> first)
  }

  lemma PlacedAdds(a: seq<Msg>, b: seq<Msg>, first: bool)
    requires Placed(a, first) && Adds(a, b) && StartsWithHandshake(a)
    ensures Placed(b, first)
  {
    if HasBitfield(b) {
      var i :| 0 <= i < |b| && b[i].BitfieldMsg?;
      assert i < |a| && a[i] == b[i];
      assert a[0] == Handshake && i > 0;
      assert a[1] == b[1];
    }
  }

  /** The log of a connection after a move, open or not. */
  ghost function Given(s: Session, s': Session): seq<Msg> {
    if |s'.past| == |s.past| + 1 then s'.past[|s.past|] else s'.log
  }

  lemma PlacedMoves(s: Session, s': Session, first: bool)
    requires Moves(s, s') && Placed(s.log, first) && StartsWithHandshake(s.log)
    ensures Placed(Given(s, s'), first) && Moves(s, s')
  {
    hide Placed;
    hide StartsWithHandshake;
    PlacedAdds(s.log, Given(s, s'), first);
  }

  /** Sending, in a run that sends the bitfield: it comes right after what the run has said before. */
  lemma SendPlaces(t: Session, e: Env)
    requires t.status == HANDSHAKE_COMPLETE && !t.bitfieldSent
    requires e.bitfieldView.needed && t.log != [] && !HasBitfield(t.log)
    ensures Send(t, e).past == t.past && t.log <= Send(t, e).log
    ensures Placed(Send(t, e).log, |t.log| == 1 && t.progress == []) && HasBitfield(Send(t, e).log)
  {
    var h := SendHaves(t, e.haveView);
    SendHavesGoes(t, e.haveView);
    hide SendHaves;
    var b := SendBitfield(h, e.bitfieldView);
    assert b.log[..|h.log|] == h.log && b.log[|h.log|].BitfieldMsg? && |b.log| == |h.log| + 1 && b.past == t.past;
    hide SendBitfield;
    SendRestGoes(b, e);
    assert Send(t, e) == SendRest(b, e);
    hide SendRest;
    hide Send;
    var log := Send(t, e).log;
    assert b.log <= log && log[|h.log|].BitfieldMsg?;
    assert forall i :: 0 <= i < |h.log| ==> !h.log[i].BitfieldMsg? && log[i] == h.log[i];
    assert t.progress == [] ==> h == t;
  }

  lemma SendGoes(t: Session, e: Env)
    requires !(t.status == HANDSHAKE_COMPLETE && !t.bitfieldSent && e.bitfieldView.needed)
    ensures Goes(t, Send(t, e))
  {
    var h := SendHaves(t, e.haveView);
    SendHavesGoes(t, e.haveView);
    hide SendHaves;
    assert SendBitfield(h, e.bitfieldView) == h;
    hide SendBitfield;
    SendRestGoes(h, e);
    hide SendRequests;
    hide UpdateChoking;
    hide SendMetadataRequest;
    GoesThenMoves(t, h, SendRest(h, e));
  }

  ghost predicate Steps(s: Session, s': Session) {
    s'.past == s.past || (|s'.past| == |s.past| + 1 && s'.past[..|s.past|] == s.past && s'.log == [])
  }

  lemma MovesIsStep(s: Session, s': Session)
    requires Moves(s, s')
    ensures Steps(s, s')
  {
    hide Adds;
  }

  function Place(s: Session, e: Env, first: bool): bool {
    if SendsBitfield(s, e) then Prompt(s, e) else first
  }

  /** A run up to what it sends. */
  lemma SentPlaces(s: Session, e: Env, first: bool)
    requires Inv(s) && Placed(s.log, first) && Shake(s, e).1
    ensures var u := Send(Shake(s, e).0, e); u.past == s.past && Placed(u.log, Place(s, e, first)) && Inv(u)
  {
    hide Inv;
    var t := Shake(s, e).0;
    InvStarts(s);
    ShakeMoves(s, e);
    ShakeKeeps(s, e);
    InvStarts(t);
    SendKeeps(t, e);
    hide Shake;
    hide Offers;
    hide HasBitfield;
    hide StartsWithHandshake;
    if SendsBitfield(s, e) {
      SendPlaces(t, e);
      hide Send;
      hide Placed;
    } else {
      SendGoes(t, e);
      hide Send;
      hide Placed;
      GoesThenMoves(s, t, Send(t, e));
      PlacedMoves(s, Send(t, e), first);
      hide Adds;
    }
  }

  /** One run moves the place of the bitfield only if it sends one, and then `Prompt` decides. */
  lemma RunPlaces(s: Session, e: Env, first: bool)
    requires Inv(s) && Placed(s.log, first)
    ensures Placed(Given(s, PeerRun(s, e)), Place(s, e, first)) && Steps(s, PeerRun(s, e))
  {
    hide Inv;
    hide Placed;
    var (t, ok) := Shake(s, e);
    if !ok {
      InvStarts(s);
      ShakeMoves(s, e);
      assert Place(s, e, first) == first && PeerRun(s, e) == t;
      hide Shake;
      hide PeerRun;
      hide Place;
      hide StartsWithHandshake;
      PlacedMoves(s, t, first);
      MovesIsStep(s, t);
    } else {
      SentPlaces(s, e, first);
      var u := Send(t, e);
      assert PeerRun(s, e) == ReadAndClose(u, e);
      hide Shake;
      hide Send;
      hide PeerRun;
      hide Place;
      InvStarts(u);
      CloseMoves(u, e);
      hide ReadAndClose;
      hide StartsWithHandshake;
      PlacedMoves(u, ReadAndClose(u, e), Place(s, e, first));
      MovesIsStep(u, ReadAndClose(u, e));
      hide Moves;
    }
  }

  lemma InvStarts(s: Session)
    requires Inv(s)
    ensures Shaped(s) && StartsWithHandshake(s.log) && (s.bitfieldSent <==> HasBitfield(s.log))
  {
    hide Count;
    hide TakeTurns;
    hide AsksWhenInterested;
    hide OneBitfield;
    hide KeepAliveIsLast;
  }

  // --- over every sequence of events --------------------------------------------------------------------

  /** For the open connection and for each past one: was its bitfield sent by a prompt run? */
  datatype Verdicts = Verdicts(open: bool, closed: seq<bool>)

  /** The judgement is passed when a bitfield is sent, and kept with the connection. */
  function Judge(now: int, events: seq<Event>): Verdicts
    requires After(now, events).Some?
  {
    if events == [] then Verdicts(false, [])
    else
      var front, event := events[..|events| - 1], events[|events| - 1];
      var s, s', v := After(now, front).value, After(now, events).value, Judge(now, front);
      Later(s, s', v, if event.Scheduled? then Place(s, event.env, v.open) else v.open)
  }

  function Later(s: Session, s': Session, v: Verdicts, open: bool): Verdicts {
    if |s'.past| == |s.past| then Verdicts(open, v.closed) else Verdicts(false, v.closed + [open])
  }

  ghost predicate AllPlaced(s: Session, v: Verdicts) {
    && |v.closed| == |s.past| && Placed(s.log, v.open)
    && forall i :: 0 <= i < |s.past| ==> Placed(s.past[i], v.closed[i])
  }

  lemma NothingPlaced(first: bool)
    ensures Placed([], first)
  {
  }

  lemma LaterPlaced(s: Session, s': Session, v: Verdicts, open: bool)
    requires AllPlaced(s, v) && Steps(s, s') && Placed(Given(s, s'), open)
    ensures AllPlaced(s', Later(s, s', v, open))
  {
    hide Placed;
    NothingPlaced(false);
    if s'.past != s.past {
      assert forall i :: 0 <= i < |s.past| ==> s'.past[i] == s'.past[..|s.past|][i] == s.past[i];
    }
  }

  lemma NextPlaces(s: Session, event: Event, v: Verdicts)
    requires Inv(s) && Next(s, event).Some? && AllPlaced(s, v)
    ensures AllPlaced(Next(s, event).value,
                      Later(s, Next(s, event).value, v,
                            if event.Scheduled? then Place(s, event.env, v.open) else v.open))
  {
    hide Inv;
    hide Placed;
    hide PeerRun;
    hide Place;
    if event.Scheduled? {
      RunPlaces(s, event.env, v.open);
      LaterPlaced(s, PeerRun(s, event.env), v, Place(s, event.env, v.open));
    } else {
      OtherEvents(s, event);
      LaterPlaced(s, Next(s, event).value, v, v.open);
    }
  }

  lemma OtherEvents(s: Session, event: Event)
    requires Next(s, event).Some? && !event.Scheduled?
    ensures Next(s, event).value.log == s.log && Next(s, event).value.past == s.past
  {
    match event
    case Accepted(now) =>
    case Slot(uploader) =>
    case Finished(piece) =>
  }

  /** BEP 3 has the bitfield sent as the first message after the handshake. Over every sequence of events, and for
      every connection that was given a bitfield, open or past: it is the message after the handshake if and only if
      the run that sent it was prompt. */
  lemma {:induction false} BitfieldIsFirstIff(now: int, events: seq<Event>)
    requires After(now, events).Some?
    ensures AllPlaced(After(now, events).value, Judge(now, events))
  {
    if events == [] {
      NothingPlaced(false);
    } else {
      var front, event := events[..|events| - 1], events[|events| - 1];
      BitfieldIsFirstIff(now, front);
      EveryRunKeeps(now, front);
      hide Inv;
      hide AllPlaced;
      NextPlaces(After(now, front).value, event, Judge(now, front));
      hide Next;
    }
  }
}

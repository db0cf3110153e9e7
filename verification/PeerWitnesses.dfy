/** Runs of the program in which a promise about a connection fails: the bitfield is not the first message, one run for
    each way in which that can be, and the bitfield of a peer is too short when requests look at it. */
module PeerWitnesses {
  import opened Bytes
  import opened Options
  import opened PeerSessions
  import opened PeerInvariant
  import opened PeerLogs
  import opened PeerPieces

  // --- what the other threads do ------------------------------------------------------------------------

  /** What torrent.c asks of a peer before it gives it something: a socket comes with a new peer, an upload slot is
      for an interested peer, and a finished piece is announced to those that are past the handshake. */
  ghost predicate Due(s: Session, event: Event, first: bool) {
    match event
    case Accepted(_) => first
    case Slot(_) => s.status == HANDSHAKE_COMPLETE && s.peerInterested
    case Finished(_) => s.status == HANDSHAKE_COMPLETE
    case Scheduled(_) => true
  }

  ghost predicate AllDue(now: int, events: seq<Event>) {
    events == [] ||
      var front := events[..|events| - 1];
      && AllDue(now, front) && After(now, front).Some?
      && Due(After(now, front).value, events[|events| - 1], front == [])
  }

  /** These events happen in the program, and lead there. */
  ghost predicate Leads(now: int, events: seq<Event>, s: Session) {
    AllDue(now, events) && After(now, events) == Some(s)
  }

  lemma LeadsOn(now: int, events: seq<Event>, s: Session, event: Event, all: seq<Event>, s': Session)
    requires Leads(now, events, s) && Due(s, event, events == [])
    requires Next(s, event) == Some(s') && all == events + [event]
    ensures Leads(now, all, s')
  {
    hide Next;
    hide Due;
    assert all[..|all| - 1] == events;
  }

  // --- calm runs ----------------------------------------------------------------------------------------

  /** A run in which everything works and nothing arrives. */
  function Calm(t: int, hash: InfoHash, view: View): Env {
    Env(t, true, Quiet, true, hash, view, view, false, false, view, 0, false, NoMessage, view, t, t, Quiet)
  }

  /** The same run with octets that arrive before it does anything else. */
  function Arrives(e: Env, data: seq<byte>): Env {
    e.(before := Received(e.now, data))
  }

  /** The same run with octets that end in a message, which it reads. */
  function Brings(e: Env, data: seq<byte>, incoming: Incoming): Env {
    Arrives(e, data).(readable := true, incoming := incoming)
  }

  /** A torrent whose metadata is still missing, and one of `n` pieces of which none is there. */
  const MISSING := View(false, false, 0, _ => false)

  function Wants(n: nat): View {
    View(true, false, n, _ => false)
  }

  const UNCHOKE: seq<byte> := [0, 0, 0, 1, 1]
  const INTERESTED: seq<byte> := [0, 0, 0, 1, 2]
  const FIRST_EIGHT: seq<byte> := [0, 0, 0, 2, 5, 0xFF]

  /** An answer for our torrent, without the extensions or with them. */
  predicate Answers(answer: seq<byte>, hash: InfoHash, extensions: bool) {
    |answer| == HANDSHAKE_SIZE && AnswerOk(answer, hash) && Offers(answer) == extensions
  }

  function Hello(extensions: bool): seq<Msg> {
    if extensions then [Handshake, ExtendedHandshake] else [Handshake]
  }

  function Spoken(log: seq<Msg>): seq<Line> {
    seq(|log|, i requires 0 <= i < |log| => Said(log[i]))
  }

  function Greeted(now: int): Session {
    Fresh(now).(status := HANDSHAKE_SENT, socket := true, fd := true, lastRead := now + 1,
                log := [Handshake], talk := [Said(Handshake)])
  }

  function Open(now: int, data: seq<byte>, extensions: bool): Session {
    Greeted(now).(status := HANDSHAKE_COMPLETE, received := data, lastRead := now + 2,
                  log := Hello(extensions), talk := Spoken(Hello(extensions)))
  }

  /** Neither a keepalive nor the timeout is due. */
  ghost predicate Soon(s: Session, e: Env) {
    e.after == Quiet && e.keepAliveNow == e.timeoutNow == e.now <= s.lastRead + HANDSHAKE_TIMEOUT_MS
  }

  lemma NothingDue(s: Session, e: Env)
    requires Soon(s, e)
    ensures HandleNetwork(Timeout(SendKeepAlive(s, e), e), e.after, e.timeoutNow).0 == s
  {
    assert SendKeepAlive(s, e) == s;
    assert Timeout(s, e) == s;
  }

  lemma QuietClose(s: Session, e: Env)
    requires Soon(s, e) && !e.readable
    ensures ReadAndClose(s, e) == s
  {
    NothingDue(s, e);
    hide SendKeepAlive;
    hide Timeout;
    hide HandleNetwork;
  }

  /** Before the handshake is answered nothing else is sent. */
  lemma NothingSent(s: Session, e: Env)
    requires s.status != HANDSHAKE_COMPLETE
    ensures Send(s, e) == s
  {
  }

  lemma FirstRun(now: int, hash: InfoHash, view: View)
    ensures PeerRun(Fresh(now), Calm(now + 1, hash, view)) == Greeted(now)
  {
    var s, e := Fresh(now), Calm(now + 1, hash, view);
    var s1 := s.(status := CONNECTED, socket := true, fd := true, lastRead := now + 1);
    assert TryConnect(s, e) == s1;
    assert HandleNetwork(s1, e.before, e.now) == (s1, true);
    assert [] + [Handshake] == [Handshake] && [] + [Said(Handshake)] == [Said(Handshake)];
    assert SendHandshake(s1, e) == Greeted(now);
    assert HandleHandshake(Greeted(now), e) == (Greeted(now), true);
    NothingSent(Greeted(now), e);
    QuietClose(Greeted(now), e);
    hide Send;
    hide ReadAndClose;
  }

  /** The answer arrives, with or without a message after it. */
  lemma AnswerArrives(now: int, e: Env, answer: seq<byte>, more: seq<byte>, extensions: bool)
    requires e.now == now + 2 && e.before == Received(now + 2, answer + more) && Answers(answer, e.infoHash, extensions)
    ensures Shake(Greeted(now), e) == (Open(now, answer + more, extensions), true)
  {
    var s, data := Greeted(now), answer + more;
    assert AnswerOk(data, e.infoHash) && (data[FLAGS_AT] == EXTENSIONS <==> extensions) by {
      assert forall i :: 0 <= i < |answer| ==> data[i] == answer[i];
    }
    hide AnswerOk;
    assert [] + data == data;
    var s1 := s.(received := data, lastRead := now + 2);
    assert TryConnect(s, e) == s;
    assert HandleNetwork(s, e.before, e.now) == (s1, true);
    assert SendHandshake(s1, e) == s1;
    assert data != [];
    assert [Handshake] + [ExtendedHandshake] == [Handshake, ExtendedHandshake];
    assert Spoken([Handshake]) == [Said(Handshake)];
    assert Spoken([Handshake, ExtendedHandshake]) == [Said(Handshake)] + [Said(ExtendedHandshake)];
    assert HandleHandshake(s1, e) == (Open(now, data, extensions), true);
  }

  /** A run of an open connection goes straight to what it sends. */
  lemma OpenShake(s: Session, e: Env)
    requires s.status == HANDSHAKE_COMPLETE && s.socket && s.fd && !e.before.Lost?
    ensures var t := if !e.before.Received? then s
                     else s.(lastRead := e.before.at, received := s.received + e.before.data);
            Shake(s, e) == (t, true)
  {
    assert TryConnect(s, e) == s;
  }

  /** While the metadata is missing, all that an open connection can be given is a change of choking. */
  lemma SendsWhenMissing(s: Session, e: Env)
    requires s.status == HANDSHAKE_COMPLETE && s.progress == [] && !e.metadataNeeded
    requires !e.bitfieldView.needed && !e.requestView.needed
    ensures Send(s, e) == UpdateChoking(s)
  {
    assert SendHaves(s, e.haveView) == s;
    assert SendBitfield(s, e.bitfieldView) == s;
    assert SendMetadataRequest(s, e) == s;
    assert SendRequests(s, e) == s;
  }

  /** The run that sees the data needed sends the bitfield after what was said before. */
  lemma BitfieldRun(s: Session, e: Env, t: Session)
    requires Shake(s, e) == (t, true) && Soon(t, e) && !e.readable && e.bitfieldView.needed
    requires t.status == HANDSHAKE_COMPLETE && !t.bitfieldSent && t.log != [] && !HasBitfield(t.log)
    ensures t.log <= PeerRun(s, e).log && HasBitfield(PeerRun(s, e).log)
  {
    hide Shake;
    hide HasBitfield;
    SendPlaces(t, e);
    SendKeepsTime(t, e);
    hide Send;
    QuietClose(Send(t, e), e);
    hide ReadAndClose;
  }

  // --- the time of the last read ------------------------------------------------------------------------

  lemma HavesKeepTime(s: Session, view: View)
    ensures SendHaves(s, view).lastRead == s.lastRead
  {
    SayHavesTime(s);
    hide SayHaves;
    hide Interesting;
  }

  lemma {:induction false} SayHavesTime(s: Session)
    ensures SayHaves(s).lastRead == s.lastRead
    decreases |s.progress|
  {
    if s.progress != [] {
      SayHavesTime(Say(s, Have(s.progress[0])).(progress := s.progress[1..]));
    }
  }

  lemma OthersKeepTime(s: Session, e: Env)
    ensures SendBitfield(s, e.bitfieldView).lastRead == SendMetadataRequest(s, e).lastRead == s.lastRead
    ensures UpdateChoking(s).lastRead == s.lastRead
  {
    hide Resized;
  }

  lemma SendKeepsTime(s: Session, e: Env)
    ensures Send(s, e).lastRead == s.lastRead
  {
    hide SendHaves;
    hide SendBitfield;
    hide SendMetadataRequest;
    hide SendRequests;
    hide UpdateChoking;
    var s1 := SendHaves(s, e.haveView);
    var s2 := SendBitfield(s1, e.bitfieldView);
    var s3 := SendMetadataRequest(s2, e);
    HavesKeepTime(s, e.haveView);
    OthersKeepTime(s1, e);
    OthersKeepTime(s2, e);
    RequestsKeepTime(s3, e);
    OthersKeepTime(SendRequests(s3, e), e);
  }

  lemma RequestsKeepTime(s: Session, e: Env)
    ensures SendRequests(s, e).lastRead == s.lastRead
  {
    if ShouldRequest(s, e.requestView) {
      var room := REQUEST_MSG_QUEUE_LENGTH - s.pending;
      SayRequestsTime(s, if e.chunksClaimed < room then e.chunksClaimed else room);
    }
  }

  lemma {:induction false} SayRequestsTime(s: Session, n: nat)
    ensures SayRequests(s, n).lastRead == s.lastRead
  {
    if n > 0 {
      SayRequestsTime(s, n - 1);
    }
  }

  // --- the beginning that the runs share ----------------------------------------------------------------

  /** The connection is made in the first run, and its socket has received nothing yet. */
  lemma LeadsToGreeted(now: int, hash: InfoHash)
    ensures Leads(now, [Scheduled(Calm(now + 1, hash, MISSING))], Greeted(now))
  {
    var e := Calm(now + 1, hash, MISSING);
    FirstRun(now, hash, MISSING);
    assert Leads(now, [], Fresh(now));
    hide PeerRun;
    LeadsOn(now, [], Fresh(now), Scheduled(e), [Scheduled(e)], Greeted(now));
  }

  /** The answer arrives in the second, while the metadata is missing. */
  lemma LeadsToOpen(now: int, hash: InfoHash, answer: seq<byte>, extensions: bool)
    requires Answers(answer, hash, extensions)
    ensures Leads(now, [Scheduled(Calm(now + 1, hash, MISSING)),
                        Scheduled(Arrives(Calm(now + 2, hash, MISSING), answer))], Open(now, answer, extensions))
  {
    var e := Arrives(Calm(now + 2, hash, MISSING), answer);
    var t := Open(now, answer, extensions);
    LeadsToGreeted(now, hash);
    assert answer + [] == answer;
    AnswerArrives(now, e, answer, [], extensions);
    hide Answers;
    hide Shake;
    SendsWhenMissing(t, e);
    assert UpdateChoking(t) == t;
    hide Send;
    QuietClose(t, e);
    hide ReadAndClose;
    assert PeerRun(Greeted(now), e) == t;
    hide PeerRun;
    hide Leads;
    var first := Scheduled(Calm(now + 1, hash, MISSING));
    LeadsOn(now, [first], Greeted(now), Scheduled(e), [first, Scheduled(e)], t);
  }

  /** The answer and a message arrive in the second. */
  lemma LeadsToMessage(now: int, hash: InfoHash, answer: seq<byte>, more: seq<byte>, incoming: Incoming)
    requires Answers(answer, hash, false)
    requires var t := Hear(Open(now, answer + more, false), incoming);
             Receive(t, incoming, MISSING, now + 2).lastRead == t.lastRead
    ensures Leads(now, [Scheduled(Calm(now + 1, hash, MISSING)),
                        Scheduled(Brings(Calm(now + 2, hash, MISSING), answer + more, incoming))],
                  Receive(Hear(Open(now, answer + more, false), incoming), incoming, MISSING, now + 2))
  {
    var e := Brings(Calm(now + 2, hash, MISSING), answer + more, incoming);
    var t := Open(now, answer + more, false);
    LeadsToGreeted(now, hash);
    AnswerArrives(now, e, answer, more, false);
    hide Answers;
    hide Shake;
    hide Receive;
    hide Leads;
    ReadsOne(t, e, incoming);
    var u := Receive(Hear(t, incoming), incoming, MISSING, now + 2);
    assert PeerRun(Greeted(now), e) == u;
    hide PeerRun;
    var first := Scheduled(Calm(now + 1, hash, MISSING));
    LeadsOn(now, [first], Greeted(now), Scheduled(e), [first, Scheduled(e)], u);
  }

  /** A run of an open connection that only reads a message. */
  lemma ReadsOne(t: Session, e: Env, incoming: Incoming)
    requires t.status == HANDSHAKE_COMPLETE && t.socket && t.fd && t.progress == [] && !t.uploader && t.amChoking
    requires !e.metadataNeeded && !e.bitfieldView.needed
    requires !e.requestView.needed && e.readable && e.incoming == incoming
    requires Soon(Receive(Hear(t, incoming), incoming, e.incomingView, e.now), e)
    ensures ReadAndClose(Send(t, e), e) == Receive(Hear(t, incoming), incoming, e.incomingView, e.now)
  {
    hide Receive;
    SendsWhenMissing(t, e);
    assert UpdateChoking(t) == t;
    hide Send;
    var u := Receive(Hear(t, incoming), incoming, e.incomingView, e.now);
    assert ReadMessage(t, e) == u;
    hide ReadMessage;
    NothingDue(u, e);
    hide SendKeepAlive;
    hide Timeout;
    hide HandleNetwork;
  }

  // --- the bitfield is not the first message ------------------------------------------------------------

  /** The bitfield was sent, and another message came before it. */
  ghost predicate Late(log: seq<Msg>, before: Msg) {
    HasBitfield(log) && |log| > 1 && log[1] == before
  }

  /** Events of the program after which the bitfield has come late. */
  ghost predicate LateAfter(now: int, events: seq<Event>, before: Msg) {
    AllDue(now, events) && After(now, events).Some? && Late(After(now, events).value.log, before)
  }

  lemma IsLate(now: int, events: seq<Event>, s: Session, t: Session, before: Msg)
    requires Leads(now, events, s) && |t.log| > 1 && t.log[1] == before && t.log <= s.log && HasBitfield(s.log)
    ensures LateAfter(now, events, before)
  {
  }

  lemma NoBitfieldYet(m: Msg)
    requires !m.BitfieldMsg?
    ensures !HasBitfield([Handshake, m])
  {
  }

  /** To every peer that offers extensions the extended handshake goes first, even if the data is needed by then. */
  lemma LateForExtensions(now: int, hash: InfoHash, answer: seq<byte>, n: nat)
    requires Answers(answer, hash, true)
    ensures LateAfter(now, [Scheduled(Calm(now + 1, hash, MISSING)),
                            Scheduled(Arrives(Calm(now + 2, hash, Wants(n)), answer))], ExtendedHandshake)
  {
    var first, e := Scheduled(Calm(now + 1, hash, MISSING)), Arrives(Calm(now + 2, hash, Wants(n)), answer);
    var s, t := Greeted(now), Open(now, answer, true);
    LeadsToGreeted(now, hash);
    assert answer + [] == answer;
    AnswerArrives(now, e, answer, [], true);
    hide Answers;
    hide Shake;
    hide Leads;
    hide HasBitfield;
    assert !HasBitfield(t.log) by { NoBitfieldYet(ExtendedHandshake); }
    BitfieldRun(s, e, t);
    hide PeerRun;
    LeadsOn(now, [first], s, Scheduled(e), [first, Scheduled(e)], PeerRun(s, e));
    IsLate(now, [first, Scheduled(e)], PeerRun(s, e), t, ExtendedHandshake);
    hide LateAfter;
  }

  /** A piece that was finished after the handshake, before the first run that sees the data needed, is announced
      first. */
  lemma LateForHave(now: int, hash: InfoHash, answer: seq<byte>, n: nat, piece: int)
    requires Answers(answer, hash, false)
    ensures LateAfter(now, [Scheduled(Calm(now + 1, hash, MISSING)),
                            Scheduled(Arrives(Calm(now + 2, hash, MISSING), answer)),
                            Finished(piece),
                            Scheduled(Calm(now + 3, hash, Wants(n)))], Have(piece))
  {
    var a := Scheduled(Calm(now + 1, hash, MISSING));
    var b := Scheduled(Arrives(Calm(now + 2, hash, MISSING), answer));
    var e := Calm(now + 3, hash, Wants(n));
    var s := Open(now, answer, false);
    LeadsToOpen(now, hash, answer, false);
    hide Answers;
    var s1 := s.(progress := [piece]);
    assert Next(s, Finished(piece)) == Some(s1) by {
      assert [] + [piece] == [piece];
    }
    hide Leads;
    LeadsOn(now, [a, b], s, Finished(piece), [a, b, Finished(piece)], s1);
    OpenShake(s1, e);
    hide Shake;
    AnnouncesFirst(s1, e, piece);
    hide PeerRun;
    LeadsOn(now, [a, b, Finished(piece)], s1, Scheduled(e), [a, b, Finished(piece), Scheduled(e)], PeerRun(s1, e));
    hide HasBitfield;
    hide LateAfter;
    var t := s1.(progress := [], log := [Handshake, Have(piece)], talk := s1.talk + [Said(Have(piece))]);
    IsLate(now, [a, b, Finished(piece), Scheduled(e)], PeerRun(s1, e), t, Have(piece));
  }

  lemma AnnouncesFirst(s: Session, e: Env, piece: int)
    requires Shake(s, e) == (s, true) && Soon(s, e) && !e.readable && e.bitfieldView.needed
    requires s.status == HANDSHAKE_COMPLETE && !s.bitfieldSent && s.log == [Handshake]
    requires s.progress == [piece] && s.peerBits == None
    ensures [Handshake, Have(piece)] <= PeerRun(s, e).log && HasBitfield(PeerRun(s, e).log)
  {
    hide Shake;
    hide HasBitfield;
    var t := s.(progress := [], log := [Handshake, Have(piece)], talk := s.talk + [Said(Have(piece))]);
    HaveSaid(s, e, piece);
    hide Send;
    NoBitfieldYet(Have(piece));
    SendPlaces(t, e);
    SendKeepsTime(t, e);
    QuietClose(Send(t, e), e);
    hide ReadAndClose;
  }

  /** The announcement comes before everything else that is sent. */
  lemma HaveSaid(s: Session, e: Env, piece: int)
    requires s.status == HANDSHAKE_COMPLETE && s.log == [Handshake] && s.progress == [piece] && s.peerBits == None
    ensures var t := s.(progress := [], log := [Handshake, Have(piece)], talk := s.talk + [Said(Have(piece))]);
            Send(s, e) == Send(t, e)
  {
    hide SendBitfield;
    hide SendMetadataRequest;
    hide SendRequests;
    hide UpdateChoking;
    var t := s.(progress := [], log := [Handshake, Have(piece)], talk := s.talk + [Said(Have(piece))]);
    assert [piece][1..] == [] && [Handshake] + [Have(piece)] == [Handshake, Have(piece)];
    assert SayHaves(t) == t;
    assert SayHaves(s) == SayHaves(t);
    assert SendHaves(s, e.haveView) == t == SendHaves(t, e.haveView);
  }

  /** A peer that said that it is interested and got an upload slot while the metadata was still missing is unchoked
      first. */
  lemma LateForEarlierRun(now: int, hash: InfoHash, answer: seq<byte>, n: nat)
    requires Answers(answer, hash, false)
    ensures LateAfter(now, Interests(now, hash, answer) + [Slot(true), Scheduled(Calm(now + 3, hash, MISSING)),
                                                           Scheduled(Calm(now + 4, hash, Wants(n)))], Unchoke)
  {
    var e, e' := Calm(now + 3, hash, MISSING), Calm(now + 4, hash, Wants(n));
    var events := Interests(now, hash, answer);
    var s := IsInterested(now, answer).(uploader := true);
    var t := s.(amChoking := false, log := [Handshake, Unchoke], talk := s.talk + [Said(Unchoke)]);
    hide Leads;
    hide LateAfter;
    LeadsToInterested(now, hash, answer);
    hide Interests;
    hide Answers;
    LeadsOn(now, events, IsInterested(now, answer), Slot(true), events + [Slot(true)], s);
    Unchokes(s, e, t);
    hide PeerRun;
    LeadsOn(now, events + [Slot(true)], s, Scheduled(e), events + [Slot(true), Scheduled(e)], t);
    UnchokedFirst(now, events + [Slot(true), Scheduled(e)], t, e', events + [Slot(true), Scheduled(e), Scheduled(e')]);
  }

  /** The answer comes with a message that the peer is interested. */
  function Interests(now: int, hash: InfoHash, answer: seq<byte>): seq<Event> {
    [Scheduled(Calm(now + 1, hash, MISSING)),
     Scheduled(Brings(Calm(now + 2, hash, MISSING), answer + INTERESTED, InterestedIn))]
  }

  function IsInterested(now: int, answer: seq<byte>): Session {
    Hear(Open(now, answer + INTERESTED, false), InterestedIn).(peerInterested := true)
  }

  lemma LeadsToInterested(now: int, hash: InfoHash, answer: seq<byte>)
    requires Answers(answer, hash, false)
    ensures Leads(now, Interests(now, hash, answer), IsInterested(now, answer))
  {
    hide Answers;
    hide Leads;
    NotesInterest(Hear(Open(now, answer + INTERESTED, false), InterestedIn), now + 2);
    hide Receive;
    LeadsToMessage(now, hash, answer, INTERESTED, InterestedIn);
  }

  lemma NotesInterest(s: Session, now: int)
    ensures Receive(s, InterestedIn, MISSING, now) == s.(peerInterested := true)
  {
  }

  lemma UnchokedFirst(now: int, events: seq<Event>, s: Session, e: Env, all: seq<Event>)
    requires Leads(now, events, s) && events != [] && all == events + [Scheduled(e)]
    requires s.status == HANDSHAKE_COMPLETE && s.socket && s.fd && !s.bitfieldSent && s.log == [Handshake, Unchoke]
    requires e.before == Quiet && Soon(s, e) && !e.readable && e.bitfieldView.needed
    ensures LateAfter(now, all, Unchoke)
  {
    hide Leads;
    OpenShake(s, e);
    hide Shake;
    hide HasBitfield;
    NoBitfieldYet(Unchoke);
    BitfieldRun(s, e, s);
    hide PeerRun;
    LeadsOn(now, events, s, Scheduled(e), all, PeerRun(s, e));
    IsLate(now, all, PeerRun(s, e), s, Unchoke);
    hide LateAfter;
  }

  lemma Unchokes(s: Session, e: Env, t: Session)
    requires e == Calm(e.now, e.infoHash, MISSING) && Soon(s, e) && s.progress == []
    requires s.status == HANDSHAKE_COMPLETE && s.socket && s.fd && s.uploader && s.amChoking && s.log == [Handshake]
    requires t == s.(amChoking := false, log := [Handshake, Unchoke], talk := s.talk + [Said(Unchoke)])
    ensures PeerRun(s, e) == t
  {
    OpenShake(s, e);
    hide Shake;
    SendsWhenMissing(s, e);
    assert [Handshake] + [Unchoke] == [Handshake, Unchoke];
    assert UpdateChoking(s) == t;
    hide Send;
    QuietClose(t, e);
    hide ReadAndClose;
  }

  // --- requests that look past the bitfield of the peer -------------------------------------------------

  /** The data becomes needed between the two looks that one run takes at it: a peer that sent an octet of pieces before
      the metadata was there has its eight bits looked up for every one of `n` pieces. */
  lemma RequestsLookPast(now: int, hash: InfoHash, answer: seq<byte>, n: nat)
    requires Answers(answer, hash, false) && n > 8
    ensures var bits := seq(8, _ => true);
            var events := [Scheduled(Calm(now + 1, hash, MISSING)),
                           Scheduled(Brings(Calm(now + 2, hash, MISSING), answer + FIRST_EIGHT, BitfieldIn(bits))),
                           Scheduled(Brings(Calm(now + 3, hash, MISSING), UNCHOKE, UnchokeIn))];
            var e := Calm(now + 4, hash, MISSING).(requestView := Wants(n), incomingView := Wants(n));
            && AllDue(now, events) && After(now, events).Some? && PhaseAfter(events + [Scheduled(e)], n).Some?
            && var s := After(now, events).value;
               var t := BeforeRequests(s, e);
               Shake(s, e).1 && ShouldRequest(t, e.requestView) && t.peerBits.Some? && |t.peerBits.value.bits| == 8
  {
    var bits := seq(8, _ => true);
    var a := Scheduled(Calm(now + 1, hash, MISSING));
    var b := Scheduled(Brings(Calm(now + 2, hash, MISSING), answer + FIRST_EIGHT, BitfieldIn(bits)));
    var e := Brings(Calm(now + 3, hash, MISSING), UNCHOKE, UnchokeIn);
    var t := Hear(Open(now, answer + FIRST_EIGHT, false), BitfieldIn(bits));
    var s := t.(peerBits := Some(PeerBits(8, bits)), amInterested := true, log := [Handshake, Interested],
                talk := t.talk + [Said(Interested)]);
    LearnsEight(t, bits, now + 2);
    LeadsToMessage(now, hash, answer, FIRST_EIGHT, BitfieldIn(bits));
    hide Answers;
    var s1 := s.(received := s.received + UNCHOKE, lastRead := now + 3, peerChoking := false,
                 talk := s.talk + [Heard(UnchokeIn)]);
    IsUnchoked(s, e, s1);
    hide PeerRun;
    LeadsOn(now, [a, b], s, Scheduled(e), [a, b, Scheduled(e)], s1);
    var e' := Calm(now + 4, hash, MISSING).(requestView := Wants(n), incomingView := Wants(n));
    hide After;
    OpenShake(s1, e');
    hide Shake;
    assert BeforeRequests(s1, e') == s1;
    StillUnknown(a, b, Scheduled(e), e', n);
  }

  lemma LearnsEight(t: Session, bits: seq<bool>, now: int)
    requires t.peerBits == None && !t.amInterested && t.log == [Handshake] && bits == seq(8, _ => true)
    ensures Receive(t, BitfieldIn(bits), MISSING, now)
         == t.(peerBits := Some(PeerBits(8, bits)), amInterested := true, log := [Handshake, Interested],
               talk := t.talk + [Said(Interested)])
  {
    assert Overwritten(seq(8, _ => false), bits) == bits;
    assert LearnPieces(None, BitfieldIn(bits), MISSING) == Some(PeerBits(8, bits));
    assert !HaveOne(MISSING, 0) && bits[0];
    assert Interesting(PeerBits(8, bits), MISSING);
    assert [Handshake] + [Interested] == [Handshake, Interested];
  }

  lemma IsUnchoked(s: Session, e: Env, t: Session)
    requires e == Brings(Calm(e.now, e.infoHash, MISSING), UNCHOKE, UnchokeIn)
    requires s.status == HANDSHAKE_COMPLETE && s.socket && s.fd && !s.uploader && s.amChoking && s.progress == []
    requires t == s.(received := s.received + UNCHOKE, lastRead := e.now, peerChoking := false,
                     talk := s.talk + [Heard(UnchokeIn)])
    ensures PeerRun(s, e) == t
  {
    OpenShake(s, e);
    hide Shake;
    var u := s.(received := s.received + UNCHOKE, lastRead := e.now);
    SendsWhenMissing(u, e);
    assert UpdateChoking(u) == u;
    hide Send;
    assert ReadMessage(u, e) == t;
    NothingDue(t, e);
    assert ReadAndClose(u, e) == t;
    hide ReadAndClose;
  }

  lemma StillUnknown(a: Event, b: Event, c: Event, e: Env, n: nat)
    requires a.Scheduled? && MissingRun(a.env) && b.Scheduled? && MissingRun(b.env) && c.Scheduled? && MissingRun(c.env)
    requires !e.haveView.needed && !e.bitfieldView.needed && e.requestView == e.incomingView == Wants(n)
    ensures PhaseAfter([a, b, c] + [Scheduled(e)], n).Some?
  {
    assert PhaseAfter([], n) == Some(Unknown);
    assert [a][..0] == [] && [a, b][..1] == [a] && [a, b, c][..2] == [a, b];
    assert PhaseAfter([a], n) == Some(Unknown);
    assert PhaseAfter([a, b], n) == Some(Unknown);
    assert PhaseAfter([a, b, c], n) == Some(Unknown);
    assert ([a, b, c] + [Scheduled(e)])[..3] == [a, b, c];
  }

  ghost predicate MissingRun(e: Env) {
    !e.haveView.needed && !e.bitfieldView.needed && !e.requestView.needed && !e.incomingView.needed
  }
}

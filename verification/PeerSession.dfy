/** A peer's connection (src/peer/peer.c, src/peer/peer_connect.c, src/peer/peer_messages.c): peer_run as a
    transition function, and what may be said over one connection. */
module PeerSessions {
  import opened Bytes
  import opened Options
  import opened Bitfields
  import Frames

  datatype Status = UNCONNECTED | CONNECTED | HANDSHAKE_SENT | HANDSHAKE_COMPLETE

  /** What is handed to the socket of a connection. */
  datatype Msg =
    | Handshake
    | ExtendedHandshake
    | Have(piece: int)
    | BitfieldMsg(bits: seq<bool>)
    | MetadataRequest
    | Request
    | Unchoke
    | Choke
    | Interested
    | NotInterested
    | Piece
    | MetadataPiece
    | KeepAlive

  const REQUEST_MSG_QUEUE_LENGTH := Frames.REQUEST_MSG_QUEUE_LENGTH
  const RECONNECT_MS := 30_000
  const KEEPALIVE_MS := 120_000
  const TIMEOUT_MS := 120_000 - 500
  const HANDSHAKE_TIMEOUT_MS := 10_000

  /** peer_bitfield: its bit_count and all the bits of its bytes. */
  datatype PeerBits = PeerBits(count: nat, bits: seq<bool>)

  datatype Session = Session(
    status: Status,
    socket: bool,          // p->socket is not NULL
    fd: bool,              // and it holds a descriptor
    received: seq<byte>,   // what has arrived over this connection: the read buffer, up to the handshake
    lastRead: int,         // last_download_rate_update
    reconnectDeadline: int,
    amChoking: bool,
    amInterested: bool,
    peerChoking: bool,
    peerInterested: bool,
    uploader: bool,
    bitfieldSent: bool,
    pending: int,          // pending_request_count
    utMetadata: int,
    peerBits: Option<PeerBits>,
    progress: seq<int>,    // progress_queue
    log: seq<Msg>,         // what this connection has been given to send
    piecesIn: nat,         // piece messages received over this connection
    past: seq<seq<Msg>>,   // the logs of the connections that are over
    talk: seq<Line>,       // what was said and heard over this connection, in order
    pastTalks: seq<seq<Line>>)

  /** What goes over a connection: a message that it is given to send, or one that is read from it. */
  datatype Line = Said(said: Msg) | Heard(heard: Incoming)

  /** What the peer sees of the torrent. */
  datatype View = View(needed: bool, complete: bool, pieceCount: nat, done: nat -> bool)

  datatype Network = Quiet | Received(at: int, data: seq<byte>) | Lost

  // PEER_HANDSHAKE: the length and the text of the protocol's name, 8 reserved octets, the info hash and the peer id
  const HANDSHAKE_SIZE := 68
  const FLAGS_AT := 25
  const HASH_AT := 28
  const COMPARED := 8
  const EXTENSIONS: byte := 0x10

  type InfoHash = s: seq<byte> | |s| == 20 witness seq(20, _ => 0)

  /** The answers that peer_handle_handshake accepts: long enough, and the info hash agrees in the octets that it
      compares. */
  predicate AnswerOk(answer: seq<byte>, infoHash: InfoHash) {
    && |answer| >= HANDSHAKE_SIZE
    && forall i :: 0 <= i < COMPARED ==> answer[HASH_AT + i] == infoHash[i]
  }

  datatype Incoming =
    | NoMessage
    | BadMessage
    | ChokeIn
    | UnchokeIn
    | InterestedIn
    | NotInterestedIn
    | HaveIn(piece: nat)
    | BitfieldIn(bits: seq<bool>)
    | RequestIn
    | PieceIn
    | ExtensionBad
    | ExtensionHandshakeIn(utMetadata: int)
    | MetadataRequestIn(available: bool)
    | MetadataRejectIn
    | OtherIn

  /** What the surroundings answer during one run. */
  datatype Env = Env(
    now: int,
    fdOk: bool,
    before: Network,
    writable: bool,
    infoHash: InfoHash,
    haveView: View,        // the torrent as each part of the run sees it: the data can become needed in between
    bitfieldView: View,
    metadataNeeded: bool,
    metadataClaimed: bool,
    requestView: View,
    chunksClaimed: nat,
    readable: bool,
    incoming: Incoming,
    incomingView: View,
    keepAliveNow: int,
    timeoutNow: int,
    after: Network)

  function Fresh(now: int): Session {
    Session(UNCONNECTED, false, false, [], now, now, true, false, true, false, false, false, 0, 0, None, [], [], 0, [],
            [], [])
  }

  function Say(s: Session, m: Msg): Session {
    s.(log := s.log + [m], talk := s.talk + [Said(m)])
  }

  /** peer_disconnect, with the reset that it does. */
  function Disconnect(s: Session, now: int): Session {
    Session(UNCONNECTED, false, false, [], s.lastRead, now + RECONNECT_MS, true, false, true, false, false, false, 0, 0,
            s.peerBits, s.progress, [], 0, s.past + [s.log], [], s.pastTalks + [s.talk])
  }

  /** peer_set_socket */
  function SetSocket(s: Session, now: int): Session {
    s.(status := CONNECTED, socket := true, fd := true, received := [], lastRead := now)
  }

  /** peer_should_connect */
  predicate ShouldConnect(s: Session, e: Env) {
    s.status == UNCONNECTED && s.reconnectDeadline < e.now
  }

  /** peer_should_connect and peer_connect. A failed connect is not noticed: its error return is 1, and -1 is what is
      tested. `fdOk` is whether socket() gave a descriptor; the failures after it leave the descriptor in place. */
  function TryConnect(s: Session, e: Env): Session {
    if ShouldConnect(s, e) then
      s.(status := CONNECTED, socket := true, fd := e.fdOk, received := [], lastRead := e.now)
    else s
  }

  /** peer_handle_network_buffers, when there is a descriptor. */
  function HandleNetwork(s: Session, n: Network, now: int): (Session, bool) {
    if !s.socket || !s.fd then (s, true)
    else
      match n
      case Quiet => (s, true)
      case Received(at, data) => (s.(lastRead := at, received := s.received + data), true)
      case Lost => (Disconnect(s, now), false)
  }

  function SendHandshake(s: Session, e: Env): Session {
    if s.status == CONNECTED && s.socket && s.fd && e.writable then Say(s, Handshake).(status := HANDSHAKE_SENT) else s
  }

  function HandleHandshake(s: Session, e: Env): (Session, bool) {
    if s.status == HANDSHAKE_SENT && s.socket && s.fd && s.received != [] then
      if !AnswerOk(s.received, e.infoHash) then (Disconnect(s, e.now), false)
      else if s.received[FLAGS_AT] == EXTENSIONS then (Say(s, ExtendedHandshake).(status := HANDSHAKE_COMPLETE), true)
      else (s.(status := HANDSHAKE_COMPLETE), true)
    else (s, true)
  }

  predicate HaveOne(view: View, i: nat) {
    view.complete || (view.needed && view.done(i))
  }

  /** The peer has a piece that is still missing here. */
  predicate Interesting(p: PeerBits, view: View) {
    exists i: nat | i < p.count && i < |p.bits| :: !HaveOne(view, i) && p.bits[i]
  }

  /** peer_update_interested */
  function UpdateInterested(s: Session, view: View): Session {
    if s.peerBits == None then s
    else if !s.amInterested && Interesting(s.peerBits.value, view) then Say(s, Interested).(amInterested := true)
    else if s.amInterested && !Interesting(s.peerBits.value, view) then Say(s, NotInterested).(amInterested := false)
    else s
  }

  function SayHaves(s: Session): Session
    decreases |s.progress|
  {
    if s.progress == [] then s else SayHaves(Say(s, Have(s.progress[0])).(progress := s.progress[1..]))
  }

  /** peer_should_send_msg_have and peer_send_msg_have */
  function SendHaves(s: Session, view: View): Session {
    if s.progress != [] && s.status == HANDSHAKE_COMPLETE then UpdateInterested(SayHaves(s), view) else s
  }

  /** A peer bitfield that is too short is copied to one of the right size. */
  function Resized(p: Option<PeerBits>, pieceCount: nat): Option<PeerBits> {
    var size := 8 * BytesFor(pieceCount);
    if p.Some? && |p.value.bits| < size then
      Some(PeerBits(pieceCount, p.value.bits + seq(size - |p.value.bits|, _ => false)))
    else p
  }

  /** peer_should_send_msg_bitfield and peer_send_msg_bitfield */
  function SendBitfield(s: Session, view: View): Session {
    if s.status == HANDSHAKE_COMPLETE && !s.bitfieldSent && view.needed then
      var bits := seq(8 * BytesFor(view.pieceCount), i requires 0 <= i => i < view.pieceCount && view.done(i));
      Say(s, BitfieldMsg(bits)).(bitfieldSent := true, peerBits := Resized(s.peerBits, view.pieceCount))
    else s
  }

  function SendMetadataRequest(s: Session, e: Env): Session {
    if e.metadataNeeded && s.utMetadata > 0 && s.status == HANDSHAKE_COMPLETE && e.metadataClaimed
    then Say(s, MetadataRequest)
    else s
  }

  function SayRequest(s: Session): Session {
    Say(s, Request).(pending := s.pending + 1)
  }

  function SayRequests(s: Session, n: nat): Session {
    if n == 0 then s else SayRequest(SayRequests(s, n - 1))
  }

  predicate ShouldRequest(s: Session, view: View) {
    && s.status == HANDSHAKE_COMPLETE && view.needed
    && s.pending < REQUEST_MSG_QUEUE_LENGTH && !s.peerChoking && s.amInterested
  }

  /** peer_should_send_msg_request and peer_send_msg_request, which sends as many requests as chunks were claimed for
      it. */
  function SendRequests(s: Session, e: Env): Session {
    if ShouldRequest(s, e.requestView) then
      var room := REQUEST_MSG_QUEUE_LENGTH - s.pending;
      SayRequests(s, if e.chunksClaimed < room then e.chunksClaimed else room)
    else s
  }

  function UpdateChoking(s: Session): Session {
    if s.status != HANDSHAKE_COMPLETE then s
    else if s.uploader && s.amChoking then Say(s, Unchoke).(amChoking := false)
    else if !s.uploader && !s.amChoking then Say(s, Choke).(amChoking := true)
    else s
  }

  /** The bits that a message brings, over those that were there. */
  function Overwritten(old_: seq<bool>, bits: seq<bool>): seq<bool> {
    if |bits| <= |old_| then bits + old_[|bits|..] else old_
  }

  /** peer_handle_msg_have and peer_handle_msg_bitfield up to the bits of the peer. */
  function LearnPieces(p: Option<PeerBits>, incoming: Incoming, view: View): Option<PeerBits> {
    match incoming
    case HaveIn(piece) =>
      var b := if p.Some? then p.value else PeerBits(view.pieceCount, seq(8 * BytesFor(view.pieceCount), _ => false));
      Some(if piece < b.count && piece < |b.bits| then b.(bits := b.bits[piece := true]) else b)
    case BitfieldIn(bits) =>
      var count := if view.needed then view.pieceCount else |bits|;
      var b := if p.Some? then p.value else PeerBits(count, seq(8 * BytesFor(count), _ => false));
      Some(b.(bits := Overwritten(b.bits, bits)))
    case _ => p
  }

  /** The messages that only change what is known of the peer. */
  function Note(s: Session, incoming: Incoming): Session {
    var piece := if incoming.PieceIn? then 1 else 0;
    s.(peerChoking := incoming.ChokeIn? || (s.peerChoking && !incoming.UnchokeIn?),
       peerInterested := incoming.InterestedIn? || (s.peerInterested && !incoming.NotInterestedIn?),
       pending := s.pending - piece,
       piecesIn := s.piecesIn + piece,
       utMetadata := if incoming.ExtensionHandshakeIn? then incoming.utMetadata
                     else if incoming.MetadataRejectIn? then 0
                     else s.utMetadata)
  }

  /** The switch over the message that was read. */
  function Receive(s: Session, incoming: Incoming, view: View, now: int): Session {
    match incoming
    case BadMessage => Disconnect(s, now)
    case ExtensionBad => Disconnect(s, now)
    case HaveIn(_) => UpdateInterested(s.(peerBits := LearnPieces(s.peerBits, incoming, view)), view)
    case BitfieldIn(_) => UpdateInterested(s.(peerBits := LearnPieces(s.peerBits, incoming, view)), view)
    case RequestIn => Say(s, Piece)
    case MetadataRequestIn(available) => if available then Say(s, MetadataPiece) else s
    case _ => Note(s, incoming)
  }

  /** peer_read_message, which may have no message to return. */
  function Hear(s: Session, incoming: Incoming): Session {
    if incoming.NoMessage? then s else s.(talk := s.talk + [Heard(incoming)])
  }

  function ReadMessage(s: Session, e: Env): Session {
    if s.status == HANDSHAKE_COMPLETE && s.socket && s.fd && e.readable
    then Receive(Hear(s, e.incoming), e.incoming, e.incomingView, e.now)
    else s
  }

  function SendKeepAlive(s: Session, e: Env): Session {
    if s.socket && s.status == HANDSHAKE_COMPLETE && s.lastRead < e.keepAliveNow - KEEPALIVE_MS
    then Say(s, KeepAlive)
    else s
  }

  /** peer_should_timeout */
  predicate TimesOut(s: Session, now: int) {
    s.socket && s.lastRead < now - (if s.status == HANDSHAKE_COMPLETE then TIMEOUT_MS else HANDSHAKE_TIMEOUT_MS)
  }

  function Timeout(s: Session, e: Env): Session {
    if TimesOut(s, e.timeoutNow) then Disconnect(s, e.timeoutNow) else s
  }

  /** The part of peer_run that sends messages, once the handshake has been dealt with. */
  function Send(s: Session, e: Env): Session {
    UpdateChoking(SendRequests(SendMetadataRequest(SendBitfield(SendHaves(s, e.haveView), e.bitfieldView), e), e))
  }

  /** The part of peer_run after that. */
  function ReadAndClose(s: Session, e: Env): Session {
    HandleNetwork(Timeout(SendKeepAlive(ReadMessage(s, e), e), e), e.after, e.timeoutNow).0
  }

  /** The part of peer_run up to the answered handshake, and whether the run goes on. */
  function Shake(s: Session, e: Env): (Session, bool) {
    var (connected, ok) := HandleNetwork(TryConnect(s, e), e.before, e.now);
    if !ok then (connected, false) else HandleHandshake(SendHandshake(connected, e), e)
  }

  /** peer_run */
  function PeerRun(s: Session, e: Env): Session {
    var (shaken, ok) := Shake(s, e);
    if !ok then shaken else ReadAndClose(Send(shaken, e), e)
  }
}

/** src/peer/peer.c: a peer as the program runs it. The parts of peer_run that work by loops are methods here; the
    others are the functions of PeerSessions. */
module PeerRunner {
  import opened Bytes
  import opened Options
  import opened Bitfields
  import opened PeerSessions
  import opened PeerInvariant
  import opened PeerPieces
  import opened PeerTalks
  import opened PeerDuties

  /** The count of a peer bitfield stays within its bits. */
  ghost predicate BitsOk(p: Option<PeerBits>) {
    p.Some? ==> p.value.count <= |p.value.bits|
  }

  lemma LearntBitsOk(p: Option<PeerBits>, incoming: Incoming, view: View)
    requires BitsOk(p)
    ensures BitsOk(LearnPieces(p, incoming, view)) && BitsOk(Resized(p, view.pieceCount))
  {
  }

  /** The loop of peer_handle_handshake over the info hash. */
  method CompareHash(answer: seq<byte>, infoHash: InfoHash) returns (same: bool)
    requires |answer| >= HANDSHAKE_SIZE
    ensures same <==> AnswerOk(answer, infoHash)
  {
    for i := 0 to COMPARED
      invariant forall j :: 0 <= j < i ==> answer[HASH_AT + j] == infoHash[j]
    {
      if answer[HASH_AT + i] != infoHash[i] {
        return false;
      }
    }
    same := true;
  }

  /** The loop of peer_update_interested. */
  method FindInteresting(p: PeerBits, view: View) returns (interesting: bool)
    requires p.count <= |p.bits|
    ensures interesting <==> Interesting(p, view)
  {
    var i := 0;
    while i < p.count
      invariant 0 <= i <= p.count
      invariant forall j: nat :: j < i ==> HaveOne(view, j) || !p.bits[j]
    {
      var have := view.complete || (view.needed && view.done(i));
      if !have && p.bits[i] {
        return true;
      }
      i := i + 1;
    }
    interesting := false;
  }

  /** The loop of peer_send_msg_bitfield. */
  method CompletedBits(view: View) returns (bits: seq<bool>)
    ensures |bits| == 8 * BytesFor(view.pieceCount)
    ensures forall j: nat :: j < |bits| ==> bits[j] == (j < view.pieceCount && view.done(j))
  {
    bits := seq(8 * BytesFor(view.pieceCount), _ => false);
    for i := 0 to view.pieceCount
      invariant |bits| == 8 * BytesFor(view.pieceCount)
      invariant forall j: nat :: j < |bits| ==> bits[j] == (j < i && view.done(j))
    {
      bits := bits[i := view.done(i)];
    }
  }

  class Peer {
    var p: Session

    /** What holds between runs. */
    ghost predicate Valid()
      reads this
    {
      Inv(p) && Attentive(p) && BitsOk(p.peerBits)
    }

    /** peer_new */
    constructor (now: int)
      ensures Valid() && p == Fresh(now)
    {
      p := Fresh(now);
      new;
      hide Inv;
      hide Attentive;
      EveryRunKeeps(now, []);
      FreshAttentive(now);
    }

    /** peer_handle_handshake */
    method HandleHandshake(e: Env) returns (ok: bool)
      modifies this
      ensures (p, ok) == PeerSessions.HandleHandshake(old(p), e)
    {
      hide AnswerOk;
      ok := true;
      if p.status == HANDSHAKE_SENT && p.socket && p.fd && p.received != [] {
        ok := false;
        if |p.received| >= HANDSHAKE_SIZE {
          ok := CompareHash(p.received, e.infoHash);
        } else {
          TooShort(p.received, e.infoHash);
        }
        if !ok {
          p := Disconnect(p, e.now);
        } else {
          p := if p.received[FLAGS_AT] == EXTENSIONS then Say(p, ExtendedHandshake) else p;
          p := p.(status := HANDSHAKE_COMPLETE);
        }
      }
    }

    static lemma TooShort(answer: seq<byte>, infoHash: InfoHash)
      requires |answer| < HANDSHAKE_SIZE
      ensures !AnswerOk(answer, infoHash)
    {
    }

    /** peer_update_interested */
    method UpdateInterested(view: View)
      requires BitsOk(p.peerBits)
      modifies this
      ensures p == PeerSessions.UpdateInterested(old(p), view)
      ensures p.peerBits == old(p.peerBits)
      ensures p.peerBits.Some? ==> (p.amInterested <==> Interesting(p.peerBits.value, view))
    {
      hide Interesting;
      if p.peerBits == None {
        return;
      }
      var interesting := FindInteresting(p.peerBits.value, view);
      if !p.amInterested && interesting {
        p := Say(p, Interested).(amInterested := true);
      } else if p.amInterested && !interesting {
        p := Say(p, NotInterested).(amInterested := false);
      }
    }

    /** peer_send_msg_have: the loop over the finished pieces, and the interest after it. */
    method SendHaves(view: View)
      requires BitsOk(p.peerBits)
      modifies this
      ensures p == PeerSessions.SendHaves(old(p), view) && p.peerBits == old(p.peerBits)
    {
      hide PeerSessions.UpdateInterested;
      if p.progress != [] && p.status == HANDSHAKE_COMPLETE {
        while p.progress != []
          invariant SayHaves(p) == SayHaves(old(p)) && p.peerBits == old(p.peerBits)
          decreases |p.progress|
        {
          var piece := p.progress[0];
          p := Say(p, Have(piece)).(progress := p.progress[1..]);
        }
        UpdateInterested(view);
      }
    }

    /** peer_send_msg_bitfield */
    method SendBitfield(view: View)
      requires BitsOk(p.peerBits)
      modifies this
      ensures p == PeerSessions.SendBitfield(old(p), view) && BitsOk(p.peerBits)
    {
      if p.status == HANDSHAKE_COMPLETE && !p.bitfieldSent && view.needed {
        var bits := CompletedBits(view);
        assert bits == seq(8 * BytesFor(view.pieceCount), i requires 0 <= i => i < view.pieceCount && view.done(i));
        LearntBitsOk(p.peerBits, NoMessage, view);
        hide Resized;
        p := Say(p, BitfieldMsg(bits)).(bitfieldSent := true, peerBits := Resized(p.peerBits, view.pieceCount));
      }
    }

    /** The loop of peer_send_msg_request over the chunks that were claimed for it. */
    method SendRequests(e: Env)
      modifies this
      ensures p == PeerSessions.SendRequests(old(p), e) && p.peerBits == old(p.peerBits)
    {
      if ShouldRequest(p, e.requestView) {
        var room := REQUEST_MSG_QUEUE_LENGTH - p.pending;
        var n := if e.chunksClaimed < room then e.chunksClaimed else room;
        var i := 0;
        while i < n
          invariant 0 <= i <= n && p == SayRequests(old(p), i) && p.peerBits == old(p.peerBits)
        {
          p := Say(p, Request).(pending := p.pending + 1);
          i := i + 1;
        }
      }
    }

    /** The messages that peer_run writes. */
    method Send(e: Env)
      requires BitsOk(p.peerBits)
      modifies this
      ensures p == PeerSessions.Send(old(p), e) && BitsOk(p.peerBits)
    {
      hide PeerSessions.SendHaves;
      hide PeerSessions.SendBitfield;
      hide PeerSessions.SendRequests;
      SendHaves(e.haveView);
      SendBitfield(e.bitfieldView);
      p := SendMetadataRequest(p, e);
      SendRequests(e);
      p := UpdateChoking(p);
    }

    /** peer_handle_msg_have and peer_handle_msg_bitfield: afterwards interest is as the peer's pieces call for. */
    method Learn(incoming: Incoming, view: View)
      requires BitsOk(p.peerBits) && (incoming.HaveIn? || incoming.BitfieldIn?)
      modifies this
      ensures var bits := LearnPieces(old(p.peerBits), incoming, view);
              && p == PeerSessions.UpdateInterested(old(p).(peerBits := bits), view)
              && BitsOk(p.peerBits) && p.peerBits == bits && bits.Some?
              && (p.amInterested <==> Interesting(bits.value, view))
    {
      hide PeerSessions.UpdateInterested;
      hide Interesting;
      LearntBitsOk(p.peerBits, incoming, view);
      p := p.(peerBits := LearnPieces(p.peerBits, incoming, view));
      UpdateInterested(view);
    }

    /** The switch of peer_run. */
    method Receive(incoming: Incoming, view: View, now: int)
      requires BitsOk(p.peerBits)
      modifies this
      ensures p == PeerSessions.Receive(old(p), incoming, view, now) && BitsOk(p.peerBits)
    {
      hide PeerSessions.UpdateInterested;
      hide Interesting;
      hide BitsOk;
      hide LearnPieces;
      if incoming.HaveIn? || incoming.BitfieldIn? {
        Learn(incoming, view);
      } else {
        ReceiveSameBits(p, incoming, view, now);
        hide PeerSessions.Receive;
        p := PeerSessions.Receive(p, incoming, view, now);
      }
    }

    /** peer_run: one run keeps everything that is promised of the connections, and leaves an open one settled. */
    method Run(e: Env)
      requires Valid() && e.keepAliveNow <= e.timeoutNow
      modifies this
      ensures p == PeerRun(old(p), e)
      ensures Valid() && Sound(p) && Settled(p)
    {
      RunKeeps(p, e);
      InvIsSound(PeerRun(p, e));
      RunAttentive(p, e);
      RunSettles(p, e);
      hide Inv;
      hide Sound;
      hide Attentive;
      hide Settled;
      hide BitsOk;
      RunParts(e);
    }

    /** The body of peer_run. */
    method RunParts(e: Env)
      requires BitsOk(p.peerBits)
      modifies this
      ensures p == PeerRun(old(p), e) && BitsOk(p.peerBits)
    {
      hide BitsOk;
      hide TryConnect;
      hide HandleNetwork;
      hide SendHandshake;
      hide PeerSessions.HandleHandshake;
      hide PeerSessions.Send;
      hide PeerSessions.Receive;
      hide SendKeepAlive;
      hide Timeout;
      ConnectSameBits(p, e);
      p := TryConnect(p, e);
      NetworkSameBits(p, e.before, e.now);
      var read := HandleNetwork(p, e.before, e.now);
      p := read.0;
      if !read.1 {
        return;
      }
      ConnectSameBits(p, e);
      p := SendHandshake(p, e);
      AnswerSameBits(p, e);
      var ok := HandleHandshake(e);
      if !ok {
        return;
      }
      Send(e);
      if p.status == HANDSHAKE_COMPLETE && p.socket && p.fd && e.readable {
        p := Hear(p, e.incoming);
        Receive(e.incoming, e.incomingView, e.now);
      }
      CloseSameBits(p, e);
      p := HandleNetwork(Timeout(SendKeepAlive(p, e), e), e.after, e.timeoutNow).0;
    }
  }
}

/** The beginning of a connection (src/peer/peer_connect.c): which answers complete the handshake, and what becomes of a
    connection that could not be made. */
module PeerHandshake {
  import opened Bytes
  import opened Options
  import opened PeerSessions
  import opened PeerInvariant
  import opened PeerLogs

  // --- the answer ---------------------------------------------------------------------------------------

  /** An answer with these flags and this info hash; `name` and `id` are what comes before and after them. */
  function Answer(name: seq<byte>, flags: seq<byte>, hash: InfoHash, id: seq<byte>): seq<byte> {
    name + flags + hash + id
  }

  ghost predicate Whole(name: seq<byte>, flags: seq<byte>, id: seq<byte>) {
    |name| == 20 && |flags| == 8 && |id| == 20
  }

  lemma AnswerParts(name: seq<byte>, flags: seq<byte>, hash: InfoHash, id: seq<byte>)
    requires Whole(name, flags, id)
    ensures var a := Answer(name, flags, hash, id);
            |a| == 68 && a[FLAGS_AT] == flags[5] && a[HASH_AT..HASH_AT + 20] == hash
  {
    var a := Answer(name, flags, hash, id);
    assert a[HASH_AT..HASH_AT + 20] == hash;
  }

  /** A peer that waits for the answer and has some of it completes the handshake exactly when all 68 octets are
      there and the first eight of the info hash agree; otherwise the connection is dropped. A longer buffer is no
      obstacle. */
  lemma HandshakeCompletesIff(s: Session, e: Env)
    requires s.status == HANDSHAKE_SENT && s.socket && s.fd && s.received != []
    ensures var (s', ok) := HandleHandshake(s, e);
            && (s'.status == HANDSHAKE_COMPLETE <==> ok) && (s'.status == UNCONNECTED <==> !ok)
            && (ok <==> |s.received| >= 68 && s.received[28..36] == e.infoHash[..8])
  {
    if |s.received| >= HANDSHAKE_SIZE {
      var got := s.received[HASH_AT..HASH_AT + COMPARED];
      if AnswerOk(s.received, e.infoHash) {
        assert forall i :: 0 <= i < COMPARED ==> got[i] == s.received[HASH_AT + i];
        assert got == e.infoHash[..COMPARED];
      } else {
        var i :| 0 <= i < COMPARED && s.received[HASH_AT + i] != e.infoHash[i];
        assert got[i] != e.infoHash[..COMPARED][i];
      }
    }
  }

  /** So the comparison tells two info hashes apart exactly when they differ in their first eight octets. */
  lemma HashToldApartIff(name: seq<byte>, flags: seq<byte>, theirs: InfoHash, id: seq<byte>, ours: InfoHash)
    requires Whole(name, flags, id)
    ensures AnswerOk(Answer(name, flags, theirs, id), ours) <==> theirs[..8] == ours[..8]
  {
    AnswerParts(name, flags, theirs, id);
    var a := Answer(name, flags, theirs, id);
    assert forall i :: 0 <= i < 20 ==> a[HASH_AT + i] == theirs[i];
    if theirs[..COMPARED] == ours[..COMPARED] {
      assert forall i :: 0 <= i < COMPARED ==> theirs[i] == theirs[..COMPARED][i] == ours[..COMPARED][i] == ours[i];
    }
  }

  /** For every torrent there is another whose peers are taken for its own. */
  lemma WrongHashAccepted(name: seq<byte>, flags: seq<byte>, id: seq<byte>, ours: InfoHash) returns (theirs: InfoHash)
    requires Whole(name, flags, id)
    ensures theirs != ours && AnswerOk(Answer(name, flags, theirs, id), ours)
  {
    theirs := ours[19 := !ours[19]];
    assert theirs[19] != ours[19];
    assert theirs[..COMPARED] == ours[..COMPARED];
    HashToldApartIff(name, flags, theirs, id, ours);
  }

  // --- a connection that could not be made --------------------------------------------------------------

  /** What peer_connect leaves behind when no descriptor could be had. */
  ghost predicate Stranded(s: Session) {
    s.status == CONNECTED && s.socket && !s.fd && s.log == []
  }

  /** The run that tries to connect and gets no descriptor leaves the peer so, unless it is over only ten seconds
      later. */
  lemma FailedConnectRun(s: Session, e: Env)
    requires Inv(s) && ShouldConnect(s, e) && !e.fdOk
    ensures var s' := PeerRun(s, e);
            && (Stranded(s') <==> e.timeoutNow <= e.now + 10_000)
            && if Stranded(s') then s'.lastRead == e.now && s'.past == s.past else |s'.past| == |s.past| + 1
  {
    hide Proper;
    hide Remembers;
    var t := TryConnect(s, e);
    assert HandleNetwork(t, e.before, e.now) == (t, true) && SendHandshake(t, e) == t;
    assert Shake(s, e) == (t, true);
    hide Shake;
    hide TryConnect;
    Strands(t, e);
  }

  /** A run does nothing to such a peer, except that it disconnects it once ten seconds have passed since the
      attempt. */
  lemma StrandedRun(s: Session, e: Env)
    requires Stranded(s)
    ensures PeerRun(s, e) == if s.lastRead < e.timeoutNow - HANDSHAKE_TIMEOUT_MS then Disconnect(s, e.timeoutNow) else s
  {
    assert Shake(s, e) == (s, true);
    hide Shake;
    Strands(s, e);
  }

  lemma Strands(s: Session, e: Env)
    requires Stranded(s)
    ensures ReadAndClose(Send(s, e), e)
         == if s.lastRead < e.timeoutNow - HANDSHAKE_TIMEOUT_MS then Disconnect(s, e.timeoutNow) else s
  {
    assert Send(s, e) == s;
    hide Send;
  }

  /** A run that comes more than ten seconds after the attempt. */
  ghost predicate Overdue(s: Session, event: Event) {
    event.Scheduled? && s.lastRead < event.env.timeoutNow - HANDSHAKE_TIMEOUT_MS
  }

  ghost predicate OnTime(s: Session, events: seq<Event>) {
    forall i :: 0 <= i < |events| ==> !Overdue(s, events[i])
  }

  lemma OnTimeSnoc(s: Session, events: seq<Event>)
    requires events != []
    ensures OnTime(s, events) <==> OnTime(s, events[..|events| - 1]) && !Overdue(s, events[|events| - 1])
  {
    hide Overdue;
    var front := events[..|events| - 1];
    if OnTime(s, front) && !Overdue(s, events[|events| - 1]) {
      forall i | 0 <= i < |events|
        ensures !Overdue(s, events[i])
      {
        assert i < |front| ==> events[i] == front[i];
      }
    }
    assert forall i :: 0 <= i < |front| ==> front[i] == events[i];
  }

  /** Still the same attempt: connected, without a descriptor, with nothing given to send. */
  ghost predicate StillStranded(s: Session, s': Session) {
    Stranded(s') && s'.past == s.past && s'.lastRead == s.lastRead
  }

  lemma StrandedStep(s: Session, t: Session, event: Event)
    requires Stranded(s) && StillStranded(s, t) && Next(t, event).Some?
    ensures var t' := Next(t, event).value;
            if Overdue(s, event) then |t'.past| == |s.past| + 1 else StillStranded(s, t')
  {
    match event
    case Scheduled(e) => StrandedRun(t, e);
    case Slot(uploader) =>
    case Finished(piece) =>
    case Accepted(now) =>
  }

  lemma PastGrows(s: Session, event: Event)
    requires Inv(s) && Next(s, event).Some?
    ensures |Next(s, event).value.past| >= |s.past|
  {
    hide Inv;
    match event
    case Scheduled(e) =>
      hide PeerRun;
      hide Placed;
      PlacedSomehow(s.log);
      if Placed(s.log, true) {
        RunPlaces(s, e, true);
      } else {
        RunPlaces(s, e, false);
      }
    case _ => OtherEvents(s, event);
  }

  lemma PlacedSomehow(log: seq<Msg>)
    ensures Placed(log, true) || Placed(log, false)
  {
  }

  /** Through every sequence of events a stranded peer stays so, with nothing ever given to send, exactly as long as no
      run comes more than ten seconds after the attempt. */
  lemma {:induction false} StrandedIff(s: Session, events: seq<Event>)
    requires Inv(s) && Stranded(s) && From(s, events).Some?
    ensures var s' := From(s, events).value;
            && Inv(s') && |s'.past| >= |s.past|
            && (StillStranded(s, s') <==> OnTime(s, events)) && (StillStranded(s, s') <==> |s'.past| == |s.past|)
  {
    if events != [] {
      var front, event := events[..|events| - 1], events[|events| - 1];
      StrandedIff(s, front);
      var t := From(s, front).value;
      NextKeeps(t, event);
      PastGrows(t, event);
      OnTimeSnoc(s, events);
      hide Inv;
      hide Next;
      hide OnTime;
      hide Overdue;
      if StillStranded(s, t) {
        StrandedStep(s, t, event);
      }
      hide Stranded;
    }
  }

  lemma {:induction false} FromCons(s: Session, event: Event, events: seq<Event>)
    requires Next(s, event).Some?
    ensures From(s, [event] + events) == From(Next(s, event).value, events)
  {
    hide Next;
    if events == [] {
      assert [event] + events == [event] && [event][..0] == [];
      assert From(s, []) == Some(s);
    } else {
      FromCons(s, event, events[..|events| - 1]);
      assert ([event] + events)[..|events|] == [event] + events[..|events| - 1];
    }
  }

  lemma {:induction false} FromGrows(s: Session, events: seq<Event>)
    requires Inv(s) && From(s, events).Some?
    ensures Inv(From(s, events).value) && |From(s, events).value.past| >= |s.past|
  {
    if events != [] {
      var front, event := events[..|events| - 1], events[|events| - 1];
      FromGrows(s, front);
      hide Inv;
      hide Next;
      NextKeeps(From(s, front).value, event);
      PastGrows(From(s, front).value, event);
    }
  }

  lemma {:induction false} FirstIsPossible(s: Session, event: Event, events: seq<Event>)
    requires From(s, [event] + events).Some?
    ensures Next(s, event).Some?
  {
    hide Next;
    if events == [] {
      assert [event] + events == [event] && [event][..0] == [];
      assert From(s, []) == Some(s);
    } else {
      assert ([event] + events)[..|events|] == [event] + events[..|events| - 1];
      FirstIsPossible(s, event, events[..|events| - 1]);
    }
  }

  /** The attempt to connect that the run `e` made, in the state `s`, is still under way in `s'`. */
  ghost predicate StillTrying(s: Session, e: Env, s': Session) {
    Stranded(s') && s'.past == s.past && s'.lastRead == e.now
  }

  ghost predicate WithinTenSeconds(e: Env, events: seq<Event>) {
    && e.timeoutNow <= e.now + 10_000
    && forall i :: 0 <= i < |events| && events[i].Scheduled? ==>
         events[i].env.timeoutNow <= e.now + 10_000
  }

  /** A run tries to connect and gets no descriptor. Through every sequence of events after it the attempt goes on, with
      nothing ever given to send, if and only if no run, this one included, ends more than ten seconds after the
      attempt: the failure is not noticed, and nothing but the timeout ends the connection. */
  lemma FailedConnectIff(s: Session, e: Env, events: seq<Event>)
    requires Inv(s) && ShouldConnect(s, e) && !e.fdOk && From(s, [Scheduled(e)] + events).Some?
    ensures var s' := From(s, [Scheduled(e)] + events).value;
            && (StillTrying(s, e, s') <==> WithinTenSeconds(e, events))
            && (StillTrying(s, e, s') <==> |s'.past| == |s.past|)
  {
    hide Inv;
    hide PeerRun;
    hide From;
    hide ShouldConnect;
    FirstIsPossible(s, Scheduled(e), events);
    FromCons(s, Scheduled(e), events);
    NextKeeps(s, Scheduled(e));
    FailedConnectRun(s, e);
    assert Next(s, Scheduled(e)) == Some(PeerRun(s, e));
    hide Next;
    hide Stranded;
    AttemptLasts(s, e, PeerRun(s, e), events);
  }

  lemma AttemptLasts(s: Session, e: Env, t: Session, events: seq<Event>)
    requires Inv(t) && From(t, events).Some?
    requires Stranded(t) <==> e.timeoutNow <= e.now + 10_000
    requires if Stranded(t) then t.lastRead == e.now && t.past == s.past else |t.past| == |s.past| + 1
    ensures var s' := From(t, events).value;
            && (StillTrying(s, e, s') <==> WithinTenSeconds(e, events))
            && (StillTrying(s, e, s') <==> |s'.past| == |s.past|)
  {
    hide Inv;
    hide From;
    hide Stranded;
    FromGrows(t, events);
    if Stranded(t) {
      StrandedIff(t, events);
      assert OnTime(t, events) <==> WithinTenSeconds(e, events);
    }
  }
}

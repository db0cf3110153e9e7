/** Length-prefixed messages on a byte stream: what a reader should get out of the stream. */
module Frames {
  import opened Bytes

  /** How many requests may wait for an answer. */
  const REQUEST_MSG_QUEUE_LENGTH := 10

  /** The message ids that VALID_MSG_IDS lists. */
  predicate ValidId(id: byte) {
    id <= 9 || id == 20
  }

  /** A whole message: its four length octets, its id and the rest. */
  predicate IsFrame(f: seq<byte>) {
    |f| >= 5 && |f| == 4 + FromBE32(f[..4]) && ValidId(f[4])
  }

  /** Five octets whose id is not one that the protocol has. */
  predicate BadHead(s: seq<byte>) {
    |s| >= 5 && !ValidId(s[4])
  }

  function HeadLength(s: seq<byte>): nat
    requires |s| >= 4
  {
    FromBE32(s[..4])
  }

  /** The messages at the front of a stream, up to the first that is incomplete, has a bad id or has length zero. */
  function Parse(s: seq<byte>): seq<seq<byte>>
    decreases |s|
  {
    if |s| < 5 || BadHead(s) || HeadLength(s) == 0 || |s| < 4 + HeadLength(s) then []
    else [s[..4 + HeadLength(s)]] + Parse(s[4 + HeadLength(s)..])
  }

  ghost predicate AllFrames(frames: seq<seq<byte>>) {
    forall i :: 0 <= i < |frames| ==> IsFrame(frames[i])
  }

  lemma ParseOne(f: seq<byte>, rest: seq<byte>)
    requires IsFrame(f)
    ensures Parse(f + rest) == [f] + Parse(rest)
  {
    hide FromBE32;
    var s := f + rest;
    assert s[..4] == f[..4] && s[4] == f[4];
    assert s[..|f|] == f && s[|f|..] == rest;
  }

  /** Whole messages parse to themselves, whatever follows. */
  lemma {:induction false} ParseFlatten(frames: seq<seq<byte>>, rest: seq<byte>)
    requires AllFrames(frames)
    ensures Parse(Flatten(frames) + rest) == frames + Parse(rest)
  {
    hide Parse;
    hide IsFrame;
    if frames == [] {
      assert Flatten(frames) + rest == rest;
    } else {
      ParseFlatten(frames[1..], rest);
      assert Flatten(frames) + rest == frames[0] + (Flatten(frames[1..]) + rest);
      ParseOne(frames[0], Flatten(frames[1..]) + rest);
      assert frames == [frames[0]] + frames[1..];
    }
  }

  // --- keepalives ---------------------------------------------------------------------------------------

  /** What a peer may send: a keepalive, which is a length of zero and nothing else, or a message. */
  datatype Sent = KeepAlive | Message(frame: seq<byte>)

  function Wire(sent: seq<Sent>): seq<byte> {
    if sent == [] then []
    else (if sent[0].KeepAlive? then ToBE32(0) else sent[0].frame) + Wire(sent[1..])
  }

  function Messages(sent: seq<Sent>): seq<seq<byte>> {
    if sent == [] then []
    else if sent[0].KeepAlive? then Messages(sent[1..])
    else [sent[0].frame] + Messages(sent[1..])
  }

  /** The messages that come before any keepalive. */
  function BeforeKeepAlive(sent: seq<Sent>): seq<seq<byte>> {
    if sent == [] || sent[0].KeepAlive? then [] else [sent[0].frame] + BeforeKeepAlive(sent[1..])
  }

  ghost predicate SentOk(sent: seq<Sent>) {
    forall i :: 0 <= i < |sent| && sent[i].Message? ==> IsFrame(sent[i].frame)
  }

  lemma ZeroLengthHead(rest: seq<byte>)
    ensures Parse(ToBE32(0) + rest) == []
  {
    hide ToBE32;
    hide FromBE32;
    BE32RoundTrip(0);
    var s := ToBE32(0) + rest;
    assert s[..4] == ToBE32(0);
    assert HeadLength(s) == 0;
  }

  lemma {:induction false} KeepAliveEndsReading(sent: seq<Sent>)
    requires SentOk(sent)
    ensures Parse(Wire(sent)) == BeforeKeepAlive(sent)
  {
    if sent != [] {
      if sent[0].KeepAlive? {
        ZeroLengthHead(Wire(sent[1..]));
      } else {
        ParseOne(sent[0].frame, Wire(sent[1..]));
        KeepAliveEndsReading(sent[1..]);
      }
    }
  }

  lemma {:induction false} BeforeIsAll(sent: seq<Sent>)
    ensures BeforeKeepAlive(sent) <= Messages(sent)
    ensures BeforeKeepAlive(sent) == Messages(sent) <==>
              !exists i, j :: 0 <= i < j < |sent| && sent[i].KeepAlive? && sent[j].Message?
  {
    if sent != [] {
      var rest := sent[1..];
      BeforeIsAll(rest);
      NoMessages(rest);
      assert forall i :: 0 <= i < |rest| ==> rest[i] == sent[i + 1];
      if sent[0].KeepAlive? {
        if Messages(rest) != [] {
          var j :| 0 <= j < |rest| && rest[j].Message?;
          assert sent[0].KeepAlive? && sent[j + 1].Message?;
        }
      } else {
        assert BeforeKeepAlive(sent) == Messages(sent) <==> BeforeKeepAlive(rest) == Messages(rest) by {
          assert BeforeKeepAlive(sent)[1..] == BeforeKeepAlive(rest) && Messages(sent)[1..] == Messages(rest);
        }
        if exists i, j :: 0 <= i < j < |sent| && sent[i].KeepAlive? && sent[j].Message? {
          var i, j :| 0 <= i < j < |sent| && sent[i].KeepAlive? && sent[j].Message?;
          assert rest[i - 1].KeepAlive? && rest[j - 1].Message?;
        }
        if exists i, j :: 0 <= i < j < |rest| && rest[i].KeepAlive? && rest[j].Message? {
          var i, j :| 0 <= i < j < |rest| && rest[i].KeepAlive? && rest[j].Message?;
          assert sent[i + 1].KeepAlive? && sent[j + 1].Message?;
        }
      }
    }
  }

  lemma {:induction false} NoMessages(sent: seq<Sent>)
    ensures Messages(sent) == [] <==> forall i :: 0 <= i < |sent| ==> sent[i].KeepAlive?
  {
    if sent != [] {
      NoMessages(sent[1..]);
      assert forall i :: 1 <= i < |sent| ==> sent[i] == sent[1..][i - 1];
    }
  }

  /** Every message of a well-formed conversation is read exactly when no message follows a keepalive. */
  lemma AllReadIff(sent: seq<Sent>)
    requires SentOk(sent)
    ensures Parse(Wire(sent)) == Messages(sent) <==>
              !exists i, j :: 0 <= i < j < |sent| && sent[i].KeepAlive? && sent[j].Message?
  {
    KeepAliveEndsReading(sent);
    BeforeIsAll(sent);
  }
}

/** peer_read_message (src/peer/peer_messages.c) over the read side of src/buffered_socket/buffered_socket.c. */
module FrameReaders {
  import opened Bytes
  import opened Options
  import opened Frames

  /** The read buffer and the header that has been taken from it; a closed reader belongs to a disconnected peer. */
  datatype Reader = Reader(buffer: seq<byte>, length: Option<seq<byte>>, id: Option<byte>, open: bool)

  const FRESH := Reader([], None, None, true)
  const CLOSED := Reader([], None, None, false)

  /** An id is loaded only after a length; a loaded header waits for at least one more octet, or has length zero. */
  ghost predicate ReaderInv(r: Reader) {
    && (r.length.Some? ==> |r.length.value| == 4)
    && (r.id.Some? ==> r.length.Some? && ValidId(r.id.value) && FromBE32(r.length.value) != 1)
    && (!r.open ==> r == CLOSED)
  }

  /** The octets that were received and not yet returned. */
  function Pending(r: Reader): seq<byte> {
    (if r.length.Some? then r.length.value else [])
    + (if r.id.Some? then [r.id.value] else [])
    + r.buffer
  }

  /** peer_read_message on a connected peer: the next state and the message, if one is complete. */
  function Read(r: Reader): (Reader, Option<seq<byte>>)
    requires r.length.Some? ==> |r.length.value| == 4
  {
    if r.length == None && |r.buffer| < 4 then (r, None)
    else
      var r1 := if r.length.Some? then r else r.(length := Some(r.buffer[..4]), buffer := r.buffer[4..]);
      if r1.id == None && r1.buffer == [] then (r1, None)
      else
        var r2 := if r1.id.Some? then r1 else r1.(id := Some(r1.buffer[0]), buffer := r1.buffer[1..]);
        ReadLoaded(r2)
  }

  /** The part of peer_read_message after the header is loaded. */
  function ReadLoaded(r: Reader): (Reader, Option<seq<byte>>)
    requires r.length.Some? && |r.length.value| == 4 && r.id.Some?
  {
    if !ValidId(r.id.value) then (CLOSED, None)
    else
      var n := FromBE32(r.length.value);
      if n == 0 || |r.buffer| < n - 1 then (r, None)
      else (Reader(r.buffer[n - 1..], None, None, true), Some(r.length.value + [r.id.value] + r.buffer[..n - 1]))
  }

  // --- every run ----------------------------------------------------------------------------------------

  /** The network delivers some octets, or peer_run looks for a message. */
  datatype Event = Arrive(bytes: seq<byte>) | Poll

  /** A poll is made only when the buffer is not empty (peer_should_read_message). */
  function Step(r: Reader, e: Event): (Reader, Option<seq<byte>>)
    requires r.length.Some? ==> |r.length.value| == 4
  {
    if !r.open then (r, None)
    else match e
      case Arrive(bytes) => (r.(buffer := r.buffer + bytes), None)
      case Poll => if r.buffer == [] then (r, None) else Read(r)
  }

  datatype Run = Run(reader: Reader, frames: seq<seq<byte>>)

  function After(events: seq<Event>): (run: Run)
    ensures ReaderInv(run.reader)
  {
    if events == [] then Run(FRESH, [])
    else
      var before := After(events[..|events| - 1]);
      var (r, frame) := Step(before.reader, events[|events| - 1]);
      StepKeepsInv(before.reader, events[|events| - 1]);
      Run(r, before.frames + if frame.Some? then [frame.value] else [])
  }

  function Received(events: seq<Event>): seq<byte> {
    if events == [] then []
    else
      var e := events[|events| - 1];
      Received(events[..|events| - 1]) + if e.Arrive? then e.bytes else []
  }

  lemma StepKeepsInv(r: Reader, e: Event)
    requires ReaderInv(r)
    ensures ReaderInv(Step(r, e).0)
  {
  }

  /** A result takes the first message off the pending octets, when it is complete and well formed, and nothing
      otherwise. */
  ghost predicate TakesFirst(all: seq<byte>, r': Reader, frame: Option<seq<byte>>) {
    && (frame.Some? <==> Parse(all) != [])
    && (frame.Some? ==> r'.open && IsFrame(frame.value) && frame.value == Parse(all)[0])
    && (r'.open ==> all == (if frame.Some? then frame.value else []) + Pending(r'))
    && (!r'.open ==> BadHead(all))
  }

  lemma ReadIsParse(r: Reader)
    requires ReaderInv(r) && r.open
    ensures TakesFirst(Pending(r), Read(r).0, Read(r).1)
  {
    hide FromBE32;
    hide Parse;
    hide IsFrame;
    hide ReadLoaded;
    var all := Pending(r);
    if r.length == None && |r.buffer| < 4 {
      ShortParse(all);
    } else {
      var r1 := if r.length.Some? then r else r.(length := Some(r.buffer[..4]), buffer := r.buffer[4..]);
      assert Pending(r1) == all;
      if r1.id == None && r1.buffer == [] {
        ShortParse(all);
      } else {
        var r2 := if r1.id.Some? then r1 else r1.(id := Some(r1.buffer[0]), buffer := r1.buffer[1..]);
        assert Pending(r2) == all;
        ReadBody(r2);
        hide TakesFirst;
      }
    }
  }

  lemma ShortParse(s: seq<byte>)
    requires |s| < 5
    ensures Parse(s) == []
  {
  }

  lemma ReadBody(r: Reader)
    requires r.length.Some? && |r.length.value| == 4 && r.id.Some? && r.open
    ensures TakesFirst(Pending(r), ReadLoaded(r).0, ReadLoaded(r).1)
  {
    hide FromBE32;
    hide Parse;
    var all, n := Pending(r), FromBE32(r.length.value);
    assert all[..4] == r.length.value && all[4] == r.id.value && |all| == 5 + |r.buffer|;
    if ValidId(r.id.value) && 0 < n <= |r.buffer| + 1 {
      var frame := r.length.value + [r.id.value] + r.buffer[..n - 1];
      assert frame[..4] == r.length.value;
      assert all == frame + r.buffer[n - 1..];
      ParseOne(frame, r.buffer[n - 1..]);
    } else {
      NoMessageYet(all);
    }
  }

  lemma NoMessageYet(s: seq<byte>)
    requires |s| >= 5 && (BadHead(s) || HeadLength(s) == 0 || |s| < 4 + HeadLength(s))
    ensures Parse(s) == []
  {
  }

  /** What has been returned and what is pending account for what was received. */
  ghost predicate Accounted(r: Reader, frames: seq<seq<byte>>, got: seq<byte>) {
    && AllFrames(frames)
    && (r.open ==> got == Flatten(frames) + Pending(r))
    && (!r.open ==> Flatten(frames) <= got && BadHead(got[|Flatten(frames)|..]))
  }

  lemma ArriveAccounted(r: Reader, frames: seq<seq<byte>>, got: seq<byte>, bytes: seq<byte>)
    requires ReaderInv(r) && Accounted(r, frames, got)
    ensures Accounted(Step(r, Arrive(bytes)).0, frames, got + bytes)
  {
    hide Flatten;
    hide AllFrames;
    var done := Flatten(frames);
    if r.open {
      assert Pending(r.(buffer := r.buffer + bytes)) == Pending(r) + bytes;
    } else {
      assert (got + bytes)[|done|..] == got[|done|..] + bytes;
    }
  }

  lemma PollAccounted(r: Reader, frames: seq<seq<byte>>, got: seq<byte>)
    requires ReaderInv(r) && r.open && Accounted(r, frames, got)
    ensures var (r', frame) := Read(r);
            Accounted(r', frames + if frame.Some? then [frame.value] else [], got)
  {
    ReadIsParse(r);
    hide Read;
    hide Pending;
    hide IsFrame;
    hide Parse;
    hide BadHead;
    hide Flatten;
    var (r', frame) := Read(r);
    if frame.Some? {
      FrameAccounted(frames, frame.value, got, Pending(r'));
    } else {
      assert frames + [] == frames;
      assert got[|Flatten(frames)|..] == Pending(r);
      assert [] + Pending(r') == Pending(r');
    }
  }

  lemma FrameAccounted(frames: seq<seq<byte>>, f: seq<byte>, got: seq<byte>, rest: seq<byte>)
    requires AllFrames(frames) && IsFrame(f) && got == Flatten(frames) + (f + rest)
    ensures AllFrames(frames + [f]) && got == Flatten(frames + [f]) + rest
  {
    hide IsFrame;
    FlattenSnoc(frames, f);
    assert Flatten(frames) + (f + rest) == (Flatten(frames) + f) + rest;
  }

  /** Nothing is lost, duplicated or reordered: for every fragmentation of the stream and every interleaving of
      arrivals and polls, the returned messages followed by the pending octets are the octets received, until an
      octet that is no message id closes the connection. */
  lemma {:induction false} Conservation(events: seq<Event>)
    ensures Accounted(After(events).reader, After(events).frames, Received(events))
  {
    if events != [] {
      var front, e := events[..|events| - 1], events[|events| - 1];
      Conservation(front);
      hide Accounted;
      hide ReaderInv;
      var before := After(front);
      match e
      case Arrive(bytes) =>
        ArriveAccounted(before.reader, before.frames, Received(front), bytes);
        assert before.frames + [] == before.frames;
      case Poll =>
        assert before.frames + [] == before.frames && Received(front) + [] == Received(front);
        if before.reader.open && before.reader.buffer != [] {
          PollAccounted(before.reader, before.frames, Received(front));
        }
    }
  }

  /** The decoded messages depend only on the octets received: what has been returned, with what the pending octets
      still hold, is what the whole stream parses to. */
  lemma DecodingIgnoresFragmentation(events: seq<Event>)
    ensures var run := After(events);
            Parse(Received(events)) == run.frames + if run.reader.open then Parse(Pending(run.reader)) else []
  {
    Conservation(events);
    hide After;
    hide Received;
    hide Parse;
    var run := After(events);
    if run.reader.open {
      ParseFlatten(run.frames, Pending(run.reader));
    } else {
      var dropped := Received(events)[|Flatten(run.frames)|..];
      assert Received(events) == Flatten(run.frames) + dropped;
      ParseFlatten(run.frames, dropped);
      BadHeadParse(dropped);
    }
  }

  lemma BadHeadParse(s: seq<byte>)
    requires BadHead(s)
    ensures Parse(s) == []
  {
  }

  /** A poll that finds a complete message returns it, so two runs over the same octets that have nothing left to
      return have returned the same messages. */
  lemma SameStreamSameMessages(events: seq<Event>, events': seq<Event>)
    requires Received(events) == Received(events')
    requires Step(After(events).reader, Poll).1 == None && Step(After(events').reader, Poll).1 == None
    ensures After(events).frames == After(events').frames
  {
    hide After;
    hide Received;
    hide Parse;
    DecodingIgnoresFragmentation(events);
    DecodingIgnoresFragmentation(events');
    PollsDry(After(events).reader);
    PollsDry(After(events').reader);
    assert After(events).frames + [] == After(events).frames && After(events').frames + [] == After(events').frames;
  }

  lemma PollsDry(r: Reader)
    requires ReaderInv(r) && Step(r, Poll).1 == None
    ensures r.open ==> Parse(Pending(r)) == []
  {
    if r.open {
      ReadIsParse(r);
      if r.buffer == [] {
        EmptyBufferHoldsNothing(r);
      }
    }
  }

  lemma EmptyBufferHoldsNothing(r: Reader)
    requires ReaderInv(r) && r.open && r.buffer == []
    ensures Parse(Pending(r)) == []
  {
    hide FromBE32;
    if r.id.Some? {
      ReadBody(r);
      assert ReadLoaded(r).1 == None;
    }
  }

  /** Once the header of a keepalive has been loaded with the octet after it, the connection yields no message again. */
  lemma {:induction false} KeepAliveStops(events: seq<Event>, more: seq<Event>)
    requires var r := After(events).reader; r.open && r.id.Some? && FromBE32(r.length.value) == 0
    ensures After(events + more).frames == After(events).frames
    ensures var r, r' := After(events).reader, After(events + more).reader; r' == r.(buffer := r'.buffer)
  {
    hide FromBE32;
    if more == [] {
      assert events + more == events;
    } else {
      KeepAliveStops(events, more[..|more| - 1]);
      assert (events + more)[..|events + more| - 1] == events + more[..|more| - 1];
    }
  }

  // --- the implementation -------------------------------------------------------------------------------

  /** The message-reading fields of a Peer, with the read buffer of its socket. */
  class MessageReader {
    var readBuffer: seq<byte>
    var networkOrderedLength: seq<byte>
    var lengthLoaded: bool
    var msgId: byte
    var idLoaded: bool
    var connected: bool

    ghost predicate Valid()
      reads this
    {
      |networkOrderedLength| == 4 && (idLoaded ==> lengthLoaded) && ReaderInv(Abs())
    }

    ghost function Abs(): Reader
      reads this
    {
      Reader(readBuffer,
             if lengthLoaded then Some(networkOrderedLength) else None,
             if idLoaded then Some(msgId) else None,
             connected)
    }

    constructor ()
      ensures Valid() && Abs() == FRESH
    {
      readBuffer, networkOrderedLength, msgId := [], [0, 0, 0, 0], 0;
      lengthLoaded, idLoaded, connected := false, false, true;
    }

    /** buffered_socket_network_read: what one read of the network returned goes to the end of the buffer. */
    method NetworkRead(bytes: seq<byte>)
      requires Valid() && connected
      modifies this
      ensures Valid() && Abs() == Step(old(Abs()), Arrive(bytes)).0
    {
      readBuffer := if |readBuffer| == 0 then bytes else readBuffer + bytes;
    }

    /** buffered_socket_read: all of the octets asked for, or none. */
    method SocketRead(n: nat) returns (data: Option<seq<byte>>)
      modifies this`readBuffer
      ensures data == None <==> n > |old(readBuffer)|
      ensures data == None ==> readBuffer == old(readBuffer)
      ensures data.Some? ==> |data.value| == n && data.value + readBuffer == old(readBuffer)
    {
      if n > |readBuffer| {
        return None;
      }
      data := Some(readBuffer[..n]);
      readBuffer := readBuffer[n..];
    }

    /** peer_disconnect, as far as reading goes: the socket and its buffer are gone and the fields are reset. */
    method Disconnect()
      modifies this
      ensures Valid() && Abs() == CLOSED
    {
      readBuffer, networkOrderedLength, msgId := [], [0, 0, 0, 0], 0;
      lengthLoaded, idLoaded, connected := false, false, false;
    }

    method ReadMessage() returns (message: Option<seq<byte>>)
      requires Valid() && connected
      modifies this
      ensures Valid()
      ensures (Abs(), message) == Read(old(Abs()))
    {
      hide FromBE32;
      if !lengthLoaded {
        var length := SocketRead(4);
        if length == None {
          return None;
        }
        assert old(readBuffer)[..4] == length.value && old(readBuffer)[4..] == readBuffer;
        networkOrderedLength, lengthLoaded := length.value, true;
      }
      ghost var r1 := Abs();
      if !idLoaded {
        var id := SocketRead(1);
        if id == None {
          return None;
        }
        assert id.value == [r1.buffer[0]] && readBuffer == r1.buffer[1..];
        msgId, idLoaded := id.value[0], true;
      }
      if !ValidId(msgId) {
        Disconnect();
        return None;
      }
      message := ReadRest();
    }

    /** The message body, once its header is loaded. */
    method ReadRest() returns (message: Option<seq<byte>>)
      requires connected && lengthLoaded && idLoaded && |networkOrderedLength| == 4 && ValidId(msgId)
      modifies this
      ensures Valid()
      ensures var r, n := old(Abs()), FromBE32(old(networkOrderedLength));
              (Abs(), message) ==
                if n == 0 || |r.buffer| < n - 1 then (r, None)
                else (Reader(r.buffer[n - 1..], None, None, true),
                      Some(old(networkOrderedLength) + [old(msgId)] + r.buffer[..n - 1]))
    {
      hide FromBE32;
      var msgLength := FromBE32(networkOrderedLength);
      if msgLength == 0 {
        return None;
      }
      var buffer := networkOrderedLength + [msgId];
      ghost var before := readBuffer;
      if msgLength - 1 > 0 {
        var rest := SocketRead(msgLength - 1);
        if rest == None {
          return None;
        }
        assert before[..msgLength - 1] == rest.value && before[msgLength - 1..] == readBuffer;
        buffer := buffer + rest.value;
      } else {
        assert before[..0] == [] && before[0..] == before && buffer + [] == buffer;
      }
      networkOrderedLength, lengthLoaded, msgId, idLoaded := [0, 0, 0, 0], false, 0, false;
      message := Some(buffer);
    }
  }
}

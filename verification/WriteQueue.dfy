/** The write side of src/buffered_socket/buffered_socket.c: a list of buffers that the network drains. */
module WriteQueues {
  import opened Bytes

  datatype WriteBuffer = WriteBuffer(data: seq<byte>, sent: nat) {
    ghost predicate Valid() { sent <= |data| }

    function Rest(): seq<byte>
      requires sent <= |data|
    {
      data[sent..]
    }
  }

  /** The buffers from the head on, and whether the tail pointer is set; it is not after every drain. */
  datatype Queue = Queue(buffers: seq<WriteBuffer>, tail: bool) {
    ghost predicate Valid() {
      forall i :: 0 <= i < |buffers| ==> buffers[i].Valid()
    }
  }

  function Unsent(buffers: seq<WriteBuffer>): seq<byte>
    requires forall i :: 0 <= i < |buffers| ==> buffers[i].sent <= |buffers[i].data|
  {
    if buffers == [] then [] else buffers[0].Rest() + Unsent(buffers[1..])
  }

  /** buffered_socket_write: with no tail, the new buffer becomes the head as well. */
  function Put(q: Queue, data: seq<byte>): Queue {
    Queue(if q.tail then q.buffers + [WriteBuffer(data, 0)] else [WriteBuffer(data, 0)], true)
  }

  /** What is left of the list when the network takes `capacity` octets. */
  function Drained(buffers: seq<WriteBuffer>, capacity: nat): (rest: seq<WriteBuffer>)
    requires forall i :: 0 <= i < |buffers| ==> buffers[i].sent <= |buffers[i].data|
    ensures forall i :: 0 <= i < |rest| ==> rest[i].sent <= |rest[i].data|
  {
    if buffers == [] then []
    else
      var n := |buffers[0].Rest()|;
      if capacity < n then [buffers[0].(sent := buffers[0].sent + capacity)] + buffers[1..]
      else Drained(buffers[1..], capacity - n)
  }

  /** The network stopped between two buffers, with something left to send. */
  predicate AtBoundary(buffers: seq<WriteBuffer>, capacity: nat)
    requires forall i :: 0 <= i < |buffers| ==> buffers[i].sent <= |buffers[i].data|
  {
    && buffers != []
    && (capacity == 0
        || (|buffers[0].Rest()| <= capacity && AtBoundary(buffers[1..], capacity - |buffers[0].Rest()|)))
  }

  /** buffered_socket_network_write clears the tail pointer unless a write() of zero octets made it return early. */
  function Drain(q: Queue, capacity: nat, zero: bool): (q': Queue)
    requires forall i :: 0 <= i < |q.buffers| ==> q.buffers[i].sent <= |q.buffers[i].data|
    ensures q'.Valid()
  {
    Queue(Drained(q.buffers, capacity), q.tail && zero && AtBoundary(q.buffers, capacity))
  }

  lemma {:induction false} DrainedIsSuffix(buffers: seq<WriteBuffer>, capacity: nat)
    requires forall i :: 0 <= i < |buffers| ==> buffers[i].sent <= |buffers[i].data|
    ensures Unsent(Drained(buffers, capacity)) == Unsent(buffers)[Min(capacity, |Unsent(buffers)|)..]
  {
    hide Drained;
    hide Unsent;
    if buffers == [] {
      NothingToDrain();
    } else {
      var head, tail := buffers[0].Rest(), Unsent(buffers[1..]);
      UnsentCons(buffers);
      if capacity < |head| {
        PartlyDrained(buffers, capacity);
        assert (head + tail)[capacity..] == head[capacity..] + tail;
      } else {
        DrainedIsSuffix(buffers[1..], capacity - |head|);
        HeadDrained(buffers, capacity);
        var m := Min(capacity - |head|, |tail|);
        assert (head + tail)[|head| + m..] == tail[m..];
      }
    }
  }

  lemma UnsentCons(buffers: seq<WriteBuffer>)
    requires (forall i :: 0 <= i < |buffers| ==> buffers[i].sent <= |buffers[i].data|) && buffers != []
    ensures Unsent(buffers) == buffers[0].Rest() + Unsent(buffers[1..])
  {
  }

  lemma HeadDrained(buffers: seq<WriteBuffer>, capacity: nat)
    requires forall i :: 0 <= i < |buffers| ==> buffers[i].sent <= |buffers[i].data|
    requires buffers != [] && |buffers[0].Rest()| <= capacity
    ensures Drained(buffers, capacity) == Drained(buffers[1..], capacity - |buffers[0].Rest()|)
  {
  }

  lemma NothingToDrain()
    ensures forall capacity: nat :: Drained([], capacity) == [] && !AtBoundary([], capacity)
    ensures Unsent([]) == []
  {
  }

  lemma PartlyDrained(buffers: seq<WriteBuffer>, capacity: nat)
    requires forall i :: 0 <= i < |buffers| ==> buffers[i].sent <= |buffers[i].data|
    requires buffers != [] && capacity < |buffers[0].Rest()|
    ensures Unsent(Drained(buffers, capacity)) == buffers[0].Rest()[capacity..] + Unsent(buffers[1..])
  {
    var rest := [buffers[0].(sent := buffers[0].sent + capacity)] + buffers[1..];
    assert Drained(buffers, capacity) == rest;
    hide Drained;
    assert rest[1..] == buffers[1..] && rest[0].Rest() == buffers[0].Rest()[capacity..];
  }

  lemma {:induction false} UnsentSnoc(buffers: seq<WriteBuffer>, b: WriteBuffer)
    requires (forall i :: 0 <= i < |buffers| ==> buffers[i].sent <= |buffers[i].data|) && b.sent <= |b.data|
    ensures Unsent(buffers + [b]) == Unsent(buffers) + b.Rest()
  {
    if buffers == [] {
      assert [b][1..] == [];
    } else {
      assert (buffers + [b])[1..] == buffers[1..] + [b];
      UnsentSnoc(buffers[1..], b);
    }
  }

  // --- every run ----------------------------------------------------------------------------------------

  /** A message is written, or the network takes some octets and then reports a full buffer or, with `zero`, a write of
      no octets. Every message has at least its length prefix. */
  datatype Event = Write(data: seq<byte>) | NetworkWrite(capacity: nat, zero: bool)

  ghost predicate EventsOk(events: seq<Event>) {
    forall i :: 0 <= i < |events| && events[i].Write? ==> events[i].data != []
  }

  datatype Run = Run(queue: Queue, sent: seq<byte>)

  function After(events: seq<Event>): (run: Run)
    ensures run.queue.Valid()
  {
    if events == [] then Run(Queue([], false), [])
    else
      var run := After(events[..|events| - 1]);
      var q := run.queue;
      match events[|events| - 1]
      case Write(data) => run.(queue := Put(q, data))
      case NetworkWrite(capacity, zero) =>
        if q.buffers == [] then run
        else
          var unsent := Unsent(q.buffers);
          Run(Drain(q, capacity, zero), run.sent + unsent[..Min(capacity, |unsent|)])
  }

  function Written(events: seq<Event>): seq<byte> {
    if events == [] then []
    else
      var e := events[|events| - 1];
      Written(events[..|events| - 1]) + if e.Write? then e.data else []
  }

  /** No message is written while an earlier one is only partly drained. */
  ghost predicate NeverWritesOverPending(events: seq<Event>) {
    events != [] ==>
      var front, q := events[..|events| - 1], After(events[..|events| - 1]).queue;
      && NeverWritesOverPending(front)
      && (events[|events| - 1].Write? && !q.tail ==> q.buffers == [])
  }

  /** Sent and unsent octets are never more than were written, and in the good case they are those that were written. */
  ghost predicate Accounted(q: Queue, sent: seq<byte>, written: seq<byte>, good: bool)
    requires q.Valid()
  {
    var all := sent + Unsent(q.buffers);
    && Nonempty(q.buffers)
    && (good ==> all == written)
    && (!good ==> |all| < |written|)
  }

  lemma PutAccounted(q: Queue, sent: seq<byte>, written: seq<byte>, good: bool, data: seq<byte>)
    requires q.Valid() && Accounted(q, sent, written, good) && data != []
    ensures Put(q, data).Valid()
    ensures Accounted(Put(q, data), sent, written + data, good && (q.tail || q.buffers == []))
  {
    var unsent := Unsent(q.buffers);
    if q.tail {
      UnsentSnoc(q.buffers, WriteBuffer(data, 0));
      assert sent + (unsent + data) == sent + unsent + data;
    } else {
      UnsentSnoc([], WriteBuffer(data, 0));
      assert [] + [WriteBuffer(data, 0)] == [WriteBuffer(data, 0)];
      assert Unsent(Put(q, data).buffers) == data;
      NonemptyUnsent(q.buffers);
      assert q.buffers == [] ==> sent + unsent == sent;
    }
  }

  lemma DrainAccounted(q: Queue, sent: seq<byte>, written: seq<byte>, good: bool, capacity: nat, zero: bool)
    requires q.Valid() && Accounted(q, sent, written, good)
    ensures var unsent := Unsent(q.buffers);
            Accounted(Drain(q, capacity, zero), sent + unsent[..Min(capacity, |unsent|)], written, good)
  {
    var unsent := Unsent(q.buffers);
    DrainedIsSuffix(q.buffers, capacity);
    NonemptyDrained(q.buffers, capacity);
    var m := Min(capacity, |unsent|);
    assert sent + unsent[..m] + unsent[m..] == sent + unsent;
  }

  lemma {:induction false} Accounts(events: seq<Event>)
    requires EventsOk(events)
    ensures Accounted(After(events).queue, After(events).sent, Written(events), NeverWritesOverPending(events))
  {
    if events != [] {
      var front, e := events[..|events| - 1], events[|events| - 1];
      Accounts(front);
      hide Accounted;
      var before := After(front);
      match e
      case Write(data) =>
        PutAccounted(before.queue, before.sent, Written(front), NeverWritesOverPending(front), data);
      case NetworkWrite(capacity, zero) =>
        assert Written(front) + [] == Written(front);
        if before.queue.buffers != [] {
          DrainAccounted(before.queue, before.sent, Written(front), NeverWritesOverPending(front), capacity, zero);
        }
    }
  }

  /** Every buffer in the list still has something to send. */
  ghost predicate Nonempty(buffers: seq<WriteBuffer>) {
    forall i :: 0 <= i < |buffers| ==> buffers[i].sent < |buffers[i].data|
  }

  lemma NonemptyUnsent(buffers: seq<WriteBuffer>)
    requires Nonempty(buffers)
    ensures Unsent(buffers) == [] <==> buffers == []
  {
  }

  lemma {:induction false} NonemptyDrained(buffers: seq<WriteBuffer>, capacity: nat)
    requires Nonempty(buffers)
    ensures Nonempty(Drained(buffers, capacity))
  {
    if buffers != [] {
      var n := |buffers[0].Rest()|;
      if capacity >= n {
        NonemptyDrained(buffers[1..], capacity - n);
      }
    }
  }

  /** The octets come out in the order they were written, none lost, exactly when nothing is written over a partly
      drained list. */
  lemma FifoIff(events: seq<Event>)
    requires EventsOk(events)
    ensures After(events).sent + Unsent(After(events).queue.buffers) == Written(events) <==>
            NeverWritesOverPending(events)
  {
    Accounts(events);
  }

  /** A message that is written over what a short send left behind takes its place: the rest of the first is lost. */
  lemma LeftoverIsLost(first: seq<byte>, capacity: nat, second: seq<byte>)
    requires capacity < |first| && second != []
    ensures var events := [Write(first), NetworkWrite(capacity, false), Write(second)];
            && !NeverWritesOverPending(events)
            && After(events).sent == first[..capacity] && Unsent(After(events).queue.buffers) == second
  {
    var events := [Write(first), NetworkWrite(capacity, false), Write(second)];
    var one, two := [Write(first)], [Write(first), NetworkWrite(capacity, false)];
    assert events[..2] == two && two[..1] == one && one[..0] == [];
    var a, b := WriteBuffer(first, 0), WriteBuffer(second, 0);
    assert After([]) == Run(Queue([], false), []);
    assert After(one) == Run(Queue([a], true), []);
    assert [a][1..] == [] && Unsent([a]) == first + [] == first;
    assert Drained([a], capacity) == [WriteBuffer(first, capacity)] + [a][1..] == [WriteBuffer(first, capacity)];
    assert After(two).queue == Queue([WriteBuffer(first, capacity)], false);
    assert [] + first[..capacity] == first[..capacity];
    assert After(events).queue.buffers == [b] && [b][1..] == [] && Unsent([b]) == second + [] == second;
  }

  /** One turn of the loop of buffered_socket_network_write. */
  lemma DrainTurn(buffers: seq<WriteBuffer>, room: nat)
    requires Nonempty(buffers) && buffers != []
    ensures var n := |buffers[0].data| - buffers[0].sent;
            && |Unsent(buffers)| == n + |Unsent(buffers[1..])|
            && (room == 0 ==> Drained(buffers, room) == buffers && AtBoundary(buffers, room))
            && (0 < room < n ==>
                  && Drained(buffers, room) == [buffers[0].(sent := buffers[0].sent + room)] + buffers[1..]
                  && !AtBoundary(buffers, room))
            && (n <= room ==>
                  && Drained(buffers, room) == Drained(buffers[1..], room - n)
                  && AtBoundary(buffers, room) == AtBoundary(buffers[1..], room - n))
  {
  }

  // --- the implementation -------------------------------------------------------------------------------

  class SocketWriter {
    var buffers: seq<WriteBuffer>
    var tailSet: bool

    ghost function Abs(): Queue
      reads this
    {
      Queue(buffers, tailSet)
    }

    constructor ()
      ensures Abs() == Queue([], false)
    {
      buffers, tailSet := [], false;
    }

    /** buffered_socket_write: the data goes behind what is unsent if the tail is set or nothing is unsent, and
        otherwise takes its place. */
    method BufferedWrite(data: seq<byte>)
      requires Nonempty(buffers) && data != []
      modifies this
      ensures Nonempty(buffers) && tailSet && Abs() == Put(old(Abs()), data)
      ensures Unsent(buffers)
           == (if old(tailSet) || old(Unsent(buffers)) == [] then old(Unsent(buffers)) else []) + data
    {
      NonemptyUnsent(buffers);
      UnsentSnoc(buffers, WriteBuffer(data, 0));
      UnsentSnoc([], WriteBuffer(data, 0));
      assert [] + [WriteBuffer(data, 0)] == [WriteBuffer(data, 0)];
      var buffer := WriteBuffer(data, 0);
      if !tailSet {
        buffers := [buffer];
        tailSet := true;
      } else {
        buffers := buffers + [buffer];
      }
    }

    /** buffered_socket_network_write on a connected socket: each write() takes what the network has room for; a short
        write or one that would block ends the loop, and the tail pointer is cleared; a write of no octets returns. */
    method NetworkWrite(capacity: nat, zero: bool) returns (total: nat)
      requires Nonempty(buffers) && buffers != []
      modifies this
      ensures Nonempty(buffers) && Abs() == Drain(old(Abs()), capacity, zero)
      ensures total == Min(capacity, |Unsent(old(buffers))|)
    {
      hide Drained;
      hide AtBoundary;
      hide Unsent;
      NonemptyDrained(buffers, capacity);
      NothingToDrain();
      total := 0;
      var room: nat := capacity;
      while buffers != []
        invariant Nonempty(buffers) && total + room == capacity
        invariant Drained(old(buffers), capacity) == Drained(buffers, room)
        invariant AtBoundary(old(buffers), capacity) == AtBoundary(buffers, room)
        invariant tailSet == old(tailSet)
        invariant |Unsent(old(buffers))| == total + |Unsent(buffers)|
        decreases |buffers|
      {
        var bytesToSend := |buffers[0].data| - buffers[0].sent;
        DrainTurn(buffers, room);
        if room == 0 {
          if zero {
            return;
          }
          break;
        }
        var result: nat := Min(room, bytesToSend);
        if result < bytesToSend {
          total := total + result;
          buffers := [buffers[0].(sent := buffers[0].sent + result)] + buffers[1..];
          break;
        }
        total, room := total + result, room - result;
        buffers := buffers[1..];
      }
      tailSet := false;
    }
  }
}

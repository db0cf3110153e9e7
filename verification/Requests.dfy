/** Requesting chunks and answering requests (src/peer/peer_messages.c, src/torrent/torrent.c). */
module Requests {
  import opened Bytes
  import opened Options
  import opened Geometry
  import opened Bitfields
  import opened Completion
  import opened Files
  import opened Store
  import opened TorrentDatas
  import opened Frames

  // --- what one round of claims picks -------------------------------------------------------------------

  /** Every free chunk below this mark has been taken by the first `k` turns. */
  ghost function Mark(s: State, interested: seq<bool>, timeout: int, n: nat, clock: nat -> int, k: nat): nat
    requires n <= |s.claimed| && n <= |interested|
  {
    if k == 0 then 0
    else
      var out := ClaimOut(s, interested, timeout, n, clock, k - 1);
      if out.Some? then out.value + 1 else n
  }

  lemma {:induction false} MarkIsExact(s: State, interested: seq<bool>, timeout: int, n: nat, clock: nat -> int, k: nat,
                                       j: nat)
    requires n <= |s.claimed| && n <= |interested| && timeout != 0 && j < n
    ensures ClaimState(s, interested, timeout, n, clock, k).claimed[j]
         == (s.claimed[j] || (interested[j] && j < Mark(s, interested, timeout, n, clock, k)))
  {
    hide FirstFree;
    if k > 0 {
      var before := ClaimState(s, interested, timeout, n, clock, k - 1);
      MarkIsExact(s, interested, timeout, n, clock, k - 1, j);
      var free := FirstFree(before.claimed, interested, 0, n);
      if free.Some? {
        MarkIsExact(s, interested, timeout, n, clock, k - 1, free.value);
      }
    }
  }

  /** A turn finds the first chunk at or after the mark that was free to begin with. */
  lemma TurnFindsNext(s: State, interested: seq<bool>, timeout: int, n: nat, clock: nat -> int, k: nat)
    requires n <= |s.claimed| && n <= |interested| && timeout != 0
    ensures Mark(s, interested, timeout, n, clock, k) <= n
    ensures ClaimOut(s, interested, timeout, n, clock, k)
         == FirstFree(s.claimed, interested, Mark(s, interested, timeout, n, clock, k), n)
  {
    hide FirstFree;
    var before, mark := ClaimState(s, interested, timeout, n, clock, k), Mark(s, interested, timeout, n, clock, k);
    forall j: nat | j < n
      ensures before.claimed[j] == (s.claimed[j] || (interested[j] && j < mark))
    {
      MarkIsExact(s, interested, timeout, n, clock, k, j);
    }
    var now, next := FirstFree(before.claimed, interested, 0, n), FirstFree(s.claimed, interested, mark, n);
    if now.Some? && next.Some? {
      assert now.value <= next.value && next.value <= now.value;
    }
  }

  /** The free chunks from `i` on with the lowest numbers, `num` of them or all. */
  function Picks(claimed: seq<bool>, interested: seq<bool>, i: nat, n: nat, num: nat): seq<nat>
    requires i <= n <= |claimed| && n <= |interested|
    decreases num
  {
    var free := FirstFree(claimed, interested, i, n);
    if num == 0 || free == None then [] else [free.value] + Picks(claimed, interested, free.value + 1, n, num - 1)
  }

  /** `picks` are distinct free chunks in increasing order, and no free chunk is passed over: one that is not picked
      is beyond all of them, and then no more were allowed. */
  ghost predicate LowestFree(claimed: seq<bool>, interested: seq<bool>, i: nat, n: nat, num: nat, picks: seq<nat>)
    requires n <= |claimed| && n <= |interested|
  {
    && |picks| <= num
    && (forall k :: 0 <= k < |picks| ==> i <= picks[k] < n && !claimed[picks[k]] && interested[picks[k]])
    && (forall j, k :: 0 <= j < k < |picks| ==> picks[j] < picks[k])
    && (forall c :: i <= c < n && !claimed[c] && interested[c] && c !in picks ==>
          |picks| == num && forall k :: 0 <= k < |picks| ==> picks[k] < c)
  }

  lemma LowestCons(claimed: seq<bool>, interested: seq<bool>, i: nat, f: nat, n: nat, num: nat, rest: seq<nat>)
    requires n <= |claimed| && n <= |interested| && num > 0 && i <= f < n && !claimed[f] && interested[f]
    requires forall j :: i <= j < f ==> claimed[j] || !interested[j]
    requires LowestFree(claimed, interested, f + 1, n, num - 1, rest)
    ensures LowestFree(claimed, interested, i, n, num, [f] + rest)
  {
    var picks := [f] + rest;
    assert picks[0] == f && forall k :: 1 <= k < |picks| ==> picks[k] == rest[k - 1];
    forall c | i <= c < n && !claimed[c] && interested[c] && c !in picks
      ensures |picks| == num && forall k :: 0 <= k < |picks| ==> picks[k] < c
    {
      assert c > f;
    }
  }

  lemma {:induction false} PicksAreLowest(claimed: seq<bool>, interested: seq<bool>, i: nat, n: nat, num: nat)
    requires i <= n <= |claimed| && n <= |interested|
    ensures LowestFree(claimed, interested, i, n, num, Picks(claimed, interested, i, n, num))
    decreases num
  {
    hide FirstFree;
    hide LowestFree;
    var free := FirstFree(claimed, interested, i, n);
    if num > 0 && free.Some? {
      PicksAreLowest(claimed, interested, free.value + 1, n, num - 1);
      LowestCons(claimed, interested, i, free.value, n, num, Picks(claimed, interested, free.value + 1, n, num - 1));
    } else {
      LowestNone(claimed, interested, i, n, num);
    }
  }

  lemma LowestNone(claimed: seq<bool>, interested: seq<bool>, i: nat, n: nat, num: nat)
    requires i <= n <= |claimed| && n <= |interested|
    requires num == 0 || FirstFree(claimed, interested, i, n) == None
    ensures LowestFree(claimed, interested, i, n, num, [])
  {
    hide FirstFree;
  }

  /** What the turns write out is that list. */
  lemma {:induction false} TurnsPick(s: State, interested: seq<bool>, timeout: int, n: nat, clock: nat -> int, num: nat,
                                     k: nat)
    requires n <= |s.claimed| && n <= |interested| && timeout != 0 && k <= num
    ensures Mark(s, interested, timeout, n, clock, k) <= n
    ensures var picks := Picks(s.claimed, interested, 0, n, num);
            var rest := Picks(s.claimed, interested, Mark(s, interested, timeout, n, clock, k), n, num - k);
            if k <= |picks| then picks[k..] == rest else rest == []
  {
    hide FirstFree;
    hide ClaimOut;
    hide Picks;
    var picks := Picks(s.claimed, interested, 0, n, num);
    if k > 0 {
      TurnsPick(s, interested, timeout, n, clock, num, k - 1);
      TurnFindsNext(s, interested, timeout, n, clock, k - 1);
      var mark := Mark(s, interested, timeout, n, clock, k - 1);
      var free := FirstFree(s.claimed, interested, mark, n);
      PicksStep(s.claimed, interested, mark, n, num - (k - 1));
      if free.Some? {
        DropOne(picks, k, free.value, Picks(s.claimed, interested, free.value + 1, n, num - k));
      } else {
        NothingFrom(s.claimed, interested, n, num - k);
      }
    }
  }

  lemma DropOne(picks: seq<nat>, k: nat, head: nat, tail: seq<nat>)
    requires 0 < k <= |picks| + 1 && picks[k - 1..] == [head] + tail
    ensures k <= |picks| && picks[k..] == tail
  {
    assert picks[k - 1..][1..] == picks[k..];
  }

  lemma PicksStep(claimed: seq<bool>, interested: seq<bool>, i: nat, n: nat, num: nat)
    requires i <= n <= |claimed| && n <= |interested| && num > 0
    ensures var free := FirstFree(claimed, interested, i, n);
            Picks(claimed, interested, i, n, num)
            == if free.Some? then [free.value] + Picks(claimed, interested, free.value + 1, n, num - 1) else []
  {
    hide FirstFree;
  }

  lemma NothingFrom(claimed: seq<bool>, interested: seq<bool>, n: nat, num: nat)
    requires n <= |claimed| && n <= |interested|
    ensures Picks(claimed, interested, n, n, num) == []
  {
  }

  lemma ClaimOutIsPick(s: State, interested: seq<bool>, timeout: int, n: nat, clock: nat -> int, num: nat, k: nat)
    requires n <= |s.claimed| && n <= |interested| && timeout != 0 && k < num
    ensures var picks := Picks(s.claimed, interested, 0, n, num);
            ClaimOut(s, interested, timeout, n, clock, k) == if k < |picks| then Some(picks[k]) else None
  {
    TurnsPick(s, interested, timeout, n, clock, num, k);
    TurnFindsNext(s, interested, timeout, n, clock, k);
    hide FirstFree;
    hide ClaimOut;
    hide Mark;
    var picks, mark := Picks(s.claimed, interested, 0, n, num), Mark(s, interested, timeout, n, clock, k);
    var rest := Picks(s.claimed, interested, mark, n, num - k);
    if k < |picks| {
      assert picks[k..][0] == rest[0];
    }
  }

  // --- messages -----------------------------------------------------------------------------------------

  const MSG_REQUEST: byte := 6
  const MSG_PIECE: byte := 7

  /** The counts are of type int, and the fields of the messages are 32 bits wide. */
  ghost predicate Fits(cfg: Config) {
    cfg.Valid() && cfg.PieceCount() < TWO_31 && cfg.ChunkCount() < TWO_31 && cfg.pieceSize + 9 < TWO_32
  }

  lemma RequestFields(cfg: Config, chunk: nat)
    requires Fits(cfg) && chunk < cfg.ChunkCount()
    ensures cfg.ChunkPiece(chunk) < cfg.PieceCount()
    ensures 0 <= cfg.ChunkOffset(chunk) - cfg.PieceOffset(cfg.ChunkPiece(chunk)) < cfg.pieceSize
    ensures 0 < cfg.ChunkLength(chunk) <= cfg.chunkSize <= cfg.pieceSize
    ensures cfg.ChunkLength(chunk) <= PieceTail(cfg, cfg.ChunkOffset(chunk))
    ensures cfg.ChunkOffset(chunk) < cfg.dataSize
  {
    cfg.ChunkExists(chunk);
    cfg.ChunkIsIn(chunk);
    cfg.ChunkInside(chunk);
  }

  datatype Request = Request(index: nat, begin: nat, length: nat)

  /** What a request for a chunk says: its piece, its place in the piece and its length. */
  function RequestFor(cfg: Config, chunk: nat): (r: Request)
    requires Fits(cfg) && chunk < cfg.ChunkCount()
    ensures InWords(r) && r.index < TWO_31 && r.index < cfg.PieceCount() && r.begin < cfg.pieceSize
    ensures cfg.PieceOffset(r.index) + r.begin == cfg.ChunkOffset(chunk) && r.length == cfg.ChunkLength(chunk)
  {
    RequestFields(cfg, chunk);
    var p := cfg.ChunkPiece(chunk);
    Request(p, cfg.ChunkOffset(chunk) - cfg.PieceOffset(p), cfg.ChunkLength(chunk))
  }

  ghost predicate InWords(r: Request) {
    r.index < TWO_32 && r.begin < TWO_32 && 9 + r.length < TWO_32
  }

  /** PEER_MSG_REQUEST. */
  function RequestMessage(r: Request): seq<byte>
    requires InWords(r)
  {
    ToBE32(13) + [MSG_REQUEST] + ToBE32(r.index) + ToBE32(r.begin) + ToBE32(r.length)
  }

  function ParseRequest(msg: seq<byte>): Request
    requires |msg| >= 17
  {
    Request(FromBE32(msg[5..9]), FromBE32(msg[9..13]), FromBE32(msg[13..17]))
  }

  /** PEER_MSG_PIECE with the index and the begin that the request had. */
  function PieceMessage(index: seq<byte>, begin: seq<byte>, block: seq<byte>): seq<byte>
    requires |index| == 4 && |begin| == 4 && 9 + |block| < TWO_32
  {
    ToBE32(9 + |block|) + [MSG_PIECE] + index + begin + block
  }

  /** The block that peer_handle_msg_request sends: what torrent_data_read_data copied, or the zeros it was to
      overwrite. */
  ghost function Block(cfg: Config, disk: seq<byte>, offset: nat, length: nat): (block: seq<byte>)
    requires cfg.pieceSize > 0 && offset < cfg.dataSize
    ensures |block| == length
  {
    TailIsPositive(cfg, offset);
    if offset + PieceTail(cfg, offset) <= |disk| then Repeated(disk, offset, PieceTail(cfg, offset), length)
    else seq(length, _ => 0)
  }

  /** torrent_process_data_chunk: where a piece message places its block. */
  function ParsePiece(msg: seq<byte>): (nat, nat, seq<byte>)
    requires |msg| >= 13
  {
    (FromBE32(msg[5..9]), FromBE32(msg[9..13]), msg[13..])
  }

  /** The offset that the fields of a piece message stand for: the index is converted to an int before it is
      multiplied, and the sum is 64 bits wide. */
  function WireOffset(cfg: Config, index: nat, begin: nat): nat {
    (cfg.pieceSize * Int32(index) + begin) % TWO_64
  }

  /** The chunk that torrent_process_data_chunk passes on: the quotient is cut to 32 bits and converted to an int. */
  function ChunkAt(cfg: Config, index: nat, begin: nat): int
    requires cfg.chunkSize > 0
  {
    Int32(WireOffset(cfg, index, begin) / cfg.chunkSize)
  }

  lemma RequestParsesBack(r: Request)
    requires InWords(r)
    ensures var msg := RequestMessage(r);
            && IsFrame(msg) && |msg| == 17 && ParseRequest(msg) == r
            && msg[5..9] == ToBE32(r.index) && msg[9..13] == ToBE32(r.begin)
  {
    hide ToBE32;
    hide FromBE32;
    BE32RoundTrip(13);
    BE32RoundTrip(r.index);
    BE32RoundTrip(r.begin);
    BE32RoundTrip(r.length);
    var msg := RequestMessage(r);
    assert msg[..4] == ToBE32(13) && msg[5..9] == ToBE32(r.index);
    assert msg[9..13] == ToBE32(r.begin) && msg[13..17] == ToBE32(r.length);
  }

  lemma PieceParsesBack(index: nat, begin: nat, block: seq<byte>)
    requires index < TWO_32 && begin < TWO_32 && 9 + |block| < TWO_32
    ensures var msg := PieceMessage(ToBE32(index), ToBE32(begin), block);
            IsFrame(msg) && ParsePiece(msg) == (index, begin, block)
  {
    hide ToBE32;
    hide FromBE32;
    BE32RoundTrip(9 + |block|);
    BE32RoundTrip(index);
    BE32RoundTrip(begin);
    var msg := PieceMessage(ToBE32(index), ToBE32(begin), block);
    assert msg[..4] == ToBE32(9 + |block|) && msg[5..9] == ToBE32(index);
    assert msg[9..13] == ToBE32(begin) && msg[13..] == block;
  }

  /** peer_handle_msg_request: `reply` is the answer to the request `msg` from the files `disk`. */
  ghost predicate Answers(cfg: Config, disk: seq<byte>, msg: seq<byte>, reply: seq<byte>)
    requires cfg.pieceSize > 0
  {
    && |msg| >= 17
    && var r := ParseRequest(msg);
    && InWords(r) && cfg.PieceOffset(r.index) + r.begin < cfg.dataSize
    && reply == PieceMessage(msg[5..9], msg[9..13], Block(cfg, disk, cfg.PieceOffset(r.index) + r.begin, r.length))
  }

  /** torrent_process_data_chunk: `reply` is taken to carry `block` for the chunk. */
  ghost predicate Carries(cfg: Config, reply: seq<byte>, chunk: nat, block: seq<byte>)
    requires cfg.chunkSize > 0
  {
    && |reply| >= 13
    && var (index, begin, data) := ParsePiece(reply);
    && ChunkAt(cfg, index, begin) == chunk
    && data == block
  }

  /** The bytes that the files hold for a chunk. */
  ghost function ChunkBytes(cfg: Config, disk: seq<byte>, chunk: nat): (block: seq<byte>)
    requires Fits(cfg) && chunk < cfg.ChunkCount() && cfg.dataSize <= |disk|
    ensures |block| == cfg.ChunkLength(chunk) > 0
  {
    RequestFields(cfg, chunk);
    disk[cfg.ChunkOffset(chunk)..cfg.ChunkOffset(chunk) + cfg.ChunkLength(chunk)]
  }

  /** A read of one chunk stays inside a piece, so it is exact. */
  lemma BlockIsChunk(cfg: Config, disk: seq<byte>, chunk: nat)
    requires Fits(cfg) && chunk < cfg.ChunkCount() && cfg.dataSize <= |disk|
    ensures cfg.ChunkOffset(chunk) < cfg.dataSize && 0 <= cfg.ChunkLength(chunk)
    ensures Block(cfg, disk, cfg.ChunkOffset(chunk), cfg.ChunkLength(chunk)) == ChunkBytes(cfg, disk, chunk)
  {
    RequestFields(cfg, chunk);
    var offset := cfg.ChunkOffset(chunk);
    TailIsPositive(cfg, offset);
    hide Repeated;
    ReadExactIff(offset, PieceTail(cfg, offset), cfg.ChunkLength(chunk), |disk|);
  }

  /** The request for a chunk, a seeder's reply to it and the receiver's reading of the reply compose to the same
      chunk with the bytes that the seeder's files hold for it; both messages are frames that the reader returns
      whole. */
  lemma RequestReplyRoundTrip(cfg: Config, disk: seq<byte>, chunk: nat, reply: seq<byte>)
    requires Fits(cfg) && chunk < cfg.ChunkCount() && cfg.dataSize <= |disk|
    requires Answers(cfg, disk, RequestMessage(RequestFor(cfg, chunk)), reply)
    ensures IsFrame(RequestMessage(RequestFor(cfg, chunk))) && IsFrame(reply)
    ensures Carries(cfg, reply, chunk, ChunkBytes(cfg, disk, chunk))
  {
    var r := RequestFor(cfg, chunk);
    hide ToBE32;
    hide FromBE32;
    hide RequestMessage;
    hide ParseRequest;
    hide PieceMessage;
    hide ParsePiece;
    hide IsFrame;
    hide RequestFor;
    hide Block;
    hide ChunkBytes;
    hide Config.PieceOffset;
    hide Config.ChunkOffset;
    hide Config.ChunkCount;
    hide Config.PieceCount;
    hide Config.ChunkLength;
    RequestParsesBack(r);
    AnswerIs(cfg, disk, chunk, reply);
    hide Answers;
    PieceParsesBack(r.index, r.begin, ChunkBytes(cfg, disk, chunk));
    PieceMessageSize(ToBE32(r.index), ToBE32(r.begin), ChunkBytes(cfg, disk, chunk));
    CarriesFrom(cfg, reply, r.index, r.begin, ChunkBytes(cfg, disk, chunk), chunk);
    hide Carries;
  }

  lemma CarriesFrom(cfg: Config, reply: seq<byte>, index: nat, begin: nat, data: seq<byte>, chunk: nat)
    requires Fits(cfg) && |reply| >= 13 && ParsePiece(reply) == (index, begin, data)
    requires chunk < cfg.ChunkCount() && index < TWO_31 && begin < TWO_32
    requires cfg.PieceOffset(index) + begin == cfg.ChunkOffset(chunk)
    ensures Carries(cfg, reply, chunk, data)
  {
    hide ParsePiece;
    PlainOffset(cfg, index, begin);
    DivUnique(cfg.ChunkOffset(chunk), cfg.chunkSize, chunk, 0);
  }

  /** Below 2^31 an index is what it says, and nothing wraps. */
  lemma PlainOffset(cfg: Config, index: nat, begin: nat)
    requires cfg.pieceSize < TWO_32 && index < TWO_31 && begin < TWO_32
    ensures WireOffset(cfg, index, begin) == cfg.PieceOffset(index) + begin
  {
    MulMonotone(cfg.pieceSize, 0, index);
    MulMonotone(cfg.pieceSize, index, TWO_31);
    assert cfg.pieceSize * TWO_31 < TWO_32 * TWO_31;
  }

  lemma PieceMessageSize(index: seq<byte>, begin: seq<byte>, block: seq<byte>)
    requires |index| == 4 && |begin| == 4 && 9 + |block| < TWO_32
    ensures |PieceMessage(index, begin, block)| == 13 + |block|
  {
  }

  /** The reply to the request for a chunk carries the chunk's bytes under the fields of the request. */
  lemma AnswerIs(cfg: Config, disk: seq<byte>, chunk: nat, reply: seq<byte>)
    requires Fits(cfg) && chunk < cfg.ChunkCount() && cfg.dataSize <= |disk|
    requires Answers(cfg, disk, RequestMessage(RequestFor(cfg, chunk)), reply)
    ensures var r := RequestFor(cfg, chunk);
            && 9 + |ChunkBytes(cfg, disk, chunk)| < TWO_32
            && reply == PieceMessage(ToBE32(r.index), ToBE32(r.begin), ChunkBytes(cfg, disk, chunk))
  {
    hide ToBE32;
    hide FromBE32;
    hide RequestMessage;
    hide ParseRequest;
    hide PieceMessage;
    hide RequestFor;
    hide Block;
    hide ChunkBytes;
    hide Config.PieceOffset;
    hide Config.ChunkOffset;
    hide Config.ChunkCount;
    hide Config.PieceCount;
    hide Config.ChunkLength;
    RequestParsesBack(RequestFor(cfg, chunk));
    BlockIsChunk(cfg, disk, chunk);
  }

  /** So a reply to a chunk that is not completed yet is always accepted. */
  lemma ReplyIsAccepted(setup: Setup, s: State, disk: seq<byte>, chunk: nat)
    requires Fits(setup.cfg) && chunk < setup.cfg.ChunkCount() && setup.cfg.dataSize <= |disk|
    requires Padded(setup.cfg, s.completed)
    ensures chunk < |s.completed|
    ensures Accepts(setup, s, chunk, ChunkBytes(setup.cfg, disk, chunk)) <==> !s.completed[chunk]
  {
    RequestFields(setup.cfg, chunk);
  }

  /** peer_handle_msg_request. */
  method HandleRequest(td: TorrentData, msg: seq<byte>) returns (reply: seq<byte>)
    requires td.Valid() && |msg| >= 17
    requires var r := ParseRequest(msg); InWords(r) && td.cfg.PieceOffset(r.index) + r.begin < td.cfg.dataSize
    ensures Answers(td.cfg, Concat(td.files), msg, reply)
  {
    hide ToBE32;
    hide FromBE32;
    hide ParseRequest;
    hide PieceMessage;
    hide Block;
    var r := ParseRequest(msg);
    var block := ReadBlock(td, td.cfg.PieceOffset(r.index) + r.begin, r.length);
    reply := PieceMessage(msg[5..9], msg[9..13], block);
  }

  /** The block of the reply is zeroed before torrent_data_read_data runs, and a failed read leaves it so. */
  method ReadBlock(td: TorrentData, offset: nat, length: nat) returns (block: seq<byte>)
    requires td.Valid() && offset < td.cfg.dataSize
    ensures block == Block(td.cfg, Concat(td.files), offset, length)
  {
    TailIsPositive(td.cfg, offset);
    hide TorrentData.Valid;
    hide Concat;
    var read := td.ReadData(offset, length);
    block := if read.Some? then read.value else seq(length, _ => 0);
    assert length == 0 ==> block == [] && Block(td.cfg, Concat(td.files), offset, length) == [];
  }

  // --- one request round --------------------------------------------------------------------------------

  /** The byte of the interest bitfield at index `b`, when a piece takes `u` bytes. */
  ghost function WantedByte(peerBits: seq<bool>, u: nat, b: nat): byte
    requires u > 0
  {
    if b / u < |peerBits| && peerBits[b / u] then 0xFF else 0x00
  }

  lemma ByteOfPiece(piece: nat, u: nat, x: nat)
    requires x < u
    ensures (piece * u + x) / u == piece
  {
    DivUnique(piece * u + x, u, piece, x);
  }

  /** The head of peer_send_msg_request: every byte of a piece becomes 0xFF or 0x00 as the peer has the piece or not. */
  method BuildInterest(cfg: Config, peer: Bitfield) returns (interested: Bitfield)
    requires cfg.Valid() && peer.Valid() && cfg.PieceCount() <= 8 * peer.bytes.Length
    ensures fresh(interested) && fresh(interested.bytes)
    ensures interested.Valid() && interested.bitCount == cfg.ChunkCount()
    ensures cfg.Aligned() ==> WantedOf(cfg, peer.Bits(), interested.Bits())
  {
    interested := new Bitfield(cfg.ChunkCount(), 0, 0xFF);
    var u := BytesPerPiece(cfg);
    ghost var have := peer.Bits();
    hide BitAt;
    hide BitsOf;
    hide FreshBits;
    hide Filled;
    hide Config.ChunkCount;
    hide Config.PieceCount;
    FilledNone(interested.bytes[..], have, u);
    for i := 0 to cfg.PieceCount()
      invariant peer.Bits() == have
      invariant Filled(interested.bytes[..], have, u, i)
    {
      var bit := peer.GetBit(i);
      ghost var before := interested.bytes[..];
      FillPiece(interested, i, u, if bit == 1 then 0xFF else 0x00);
      FilledMore(before, interested.bytes[..], have, u, i);
    }
    if cfg.Aligned() {
      InterestBits(cfg, have, interested.bytes[..]);
    }
  }

  /** The bytes of the first `i` pieces are as the peer has the pieces. */
  ghost predicate Filled(bytes: seq<byte>, have: seq<bool>, u: nat, i: nat) {
    u > 0 ==> forall b :: 0 <= b < |bytes| && b < i * u ==> bytes[b] == WantedByte(have, u, b)
  }

  lemma FilledNone(bytes: seq<byte>, have: seq<bool>, u: nat)
    ensures Filled(bytes, have, u, 0)
  {
  }

  lemma FilledMore(before: seq<byte>, after: seq<byte>, have: seq<bool>, u: nat, i: nat)
    requires Filled(before, have, u, i) && |after| == |before| && i < |have|
    requires forall b :: 0 <= b < |after| ==>
               after[b] == if i * u <= b < i * u + u then (if have[i] then 0xFF else 0x00) else before[b]
    ensures Filled(after, have, u, i + 1)
  {
    if u > 0 {
      MulSum(u, i, 1);
      forall b | 0 <= b < |after| && b < (i + 1) * u
        ensures after[b] == WantedByte(have, u, b)
      {
        if i * u <= b {
          ByteOfPiece(i, u, b - i * u);
        }
      }
    }
  }

  /** The inner loop: the bytes of piece `i`, as far as the bitfield has them. */
  method FillPiece(interested: Bitfield, i: nat, u: nat, value: byte)
    modifies interested.bytes
    ensures forall b :: 0 <= b < interested.bytes.Length ==>
              interested.bytes[b] == if i * u <= b < i * u + u then value else old(interested.bytes[b])
  {
    for x := 0 to u
      invariant forall b :: 0 <= b < interested.bytes.Length ==>
                  interested.bytes[b] == if i * u <= b < i * u + x then value else old(interested.bytes[b])
    {
      if i * u + x < interested.bytes.Length {
        interested.bytes[i * u + x] := value;
      }
    }
  }

  lemma InterestBits(cfg: Config, have: seq<bool>, bytes: seq<byte>)
    requires cfg.Aligned() && |bytes| == BytesFor(cfg.ChunkCount()) && cfg.PieceCount() <= |have|
    requires Filled(bytes, have, BytesPerPiece(cfg), cfg.PieceCount())
    ensures WantedOf(cfg, have, BitsOf(bytes))
  {
    hide Config.ChunkCount;
    forall c: nat | c < cfg.ChunkCount()
      ensures cfg.ChunkPiece(c) < |have| && c < |BitsOf(bytes)| && BitsOf(bytes)[c] == have[cfg.ChunkPiece(c)]
    {
      InterestBit(cfg, have, bytes, c);
    }
  }

  lemma InterestBit(cfg: Config, have: seq<bool>, bytes: seq<byte>, c: nat)
    requires cfg.Aligned() && |bytes| == BytesFor(cfg.ChunkCount()) && cfg.PieceCount() <= |have|
    requires Filled(bytes, have, BytesPerPiece(cfg), cfg.PieceCount())
    requires c < cfg.ChunkCount()
    ensures cfg.ChunkPiece(c) < |have| && c < |BitsOf(bytes)| && BitsOf(bytes)[c] == have[cfg.ChunkPiece(c)]
  {
    var u, p := BytesPerPiece(cfg), cfg.ChunkPiece(c);
    AlignedParts(cfg);
    cfg.ChunkInside(c);
    cfg.ChunkIsIn(c);
    hide Config.ChunkPiece;
    hide Config.ChunkCount;
    hide Config.PieceCount;
    hide BytesPerPiece;
    hide BitAt;
    hide BitsOf;
    ChunkRange(c, p, u);
    var b := c / 8;
    FilledAt(bytes, have, u, cfg.PieceCount(), b, p);
    hide Filled;
    FullByte(bytes, b);
  }

  lemma FilledAt(bytes: seq<byte>, have: seq<bool>, u: nat, n: nat, b: nat, p: nat)
    requires Filled(bytes, have, u, n) && u > 0 && p < n <= |have| && b < |bytes| && p * u <= b < p * u + u
    ensures bytes[b] == if have[p] then 0xFF else 0x00
  {
    MulMonotone(u, p + 1, n);
    MulSum(u, p, 1);
    ByteOfPiece(p, u, b - p * u);
  }

  /** `requests` ask for the chunks, one each and in this order. */
  ghost predicate RequestsFor(cfg: Config, chunks: seq<nat>, requests: seq<Request>)
    requires Fits(cfg)
  {
    && |requests| == |chunks|
    && forall k :: 0 <= k < |chunks| ==> chunks[k] < cfg.ChunkCount() && requests[k] == RequestFor(cfg, chunks[k])
  }

  /** The loop of peer_send_msg_request over the claimed chunks, which stops at the first place that was left alone. */
  method MakeRequests(cfg: Config, out: seq<Option<nat>>, ghost chunks: seq<nat>) returns (requests: seq<Request>)
    requires Fits(cfg) && |chunks| <= |out| && forall c :: c in chunks ==> c < cfg.ChunkCount()
    requires forall k :: 0 <= k < |out| ==> out[k] == if k < |chunks| then Some(chunks[k]) else None
    ensures RequestsFor(cfg, chunks, requests)
  {
    hide RequestFor;
    hide Config.ChunkCount;
    requests := [];
    var i := 0;
    while i < |out|
      invariant i <= |out| && i == |requests| <= |chunks|
      invariant RequestsFor(cfg, chunks[..i], requests)
    {
      if out[i] == None {
        break;
      }
      assert out[i].value == chunks[i] && chunks[i] in chunks;
      requests := requests + [RequestFor(cfg, out[i].value)];
      i := i + 1;
    }
    assert i == |chunks| && chunks[..i] == chunks;
  }

  /** The chunks that a round asks for: the lowest-numbered unclaimed ones that are wanted, as far as the pipeline
      has room. */
  ghost function RoundChunks(s: State, wanted: seq<bool>, n: nat, room: nat): (chunks: seq<nat>)
    requires n <= |s.claimed| && n <= |wanted|
    ensures LowestFree(s.claimed, wanted, 0, n, room, chunks)
  {
    PicksAreLowest(s.claimed, wanted, 0, n, room);
    Picks(s.claimed, wanted, 0, n, room)
  }

  /** The part of peer_send_msg_request that claims and sends. */
  method SendRequests(td: TorrentData, interested: Bitfield, room: nat, clock: nat -> int)
      returns (requests: seq<Request>)
    requires td.Valid() && Fits(td.cfg)
    requires interested.Valid() && interested.bitCount == td.cfg.ChunkCount() && interested.bytes != td.claimed.bytes
    modifies td.claimed.bytes, td.claims
    ensures td.Valid() && interested.Bits() == old(interested.Bits())
    ensures td.Abs() == ClaimState(old(td.Abs()), interested.Bits(), 10, td.cfg.ChunkCount(), clock, room)
    ensures RequestsFor(td.cfg, RoundChunks(old(td.Abs()), interested.Bits(), td.cfg.ChunkCount(), room), requests)
  {
    hide BitAt;
    hide BitsOf;
    hide Config.ChunkCount;
    hide ClaimState;
    hide ClaimOut;
    hide Picks;
    hide RequestsFor;
    ghost var s, n, wanted := td.Abs(), td.cfg.ChunkCount(), interested.Bits();
    var ok, out := td.ClaimChunks(interested, 10, room, clock);
    ghost var chunks := RoundChunks(s, wanted, n, room);
    forall k | 0 <= k < room
      ensures out[k] == if k < |chunks| then Some(chunks[k]) else None
    {
      ClaimOutIsPick(s, wanted, 10, n, clock, room, k);
    }
    requests := MakeRequests(td.cfg, out, chunks);
  }

  /** What one round with `pending` requests outstanding asks for, and how the store and the count of pending
      requests end up. */
  ghost predicate RoundDone(cfg: Config, s: State, s': State, wanted: seq<bool>, pending: int, clock: nat -> int,
                            requests: seq<Request>, pending': int)
    requires Fits(cfg) && cfg.ChunkCount() <= |s.claimed| && cfg.ChunkCount() <= |wanted|
  {
    var room := if pending < REQUEST_MSG_QUEUE_LENGTH then REQUEST_MSG_QUEUE_LENGTH - pending else 0;
    && RequestsFor(cfg, RoundChunks(s, wanted, cfg.ChunkCount(), room), requests)
    && s' == ClaimState(s, wanted, 10, cfg.ChunkCount(), clock, room)
    && pending' == pending + |requests|
  }

  /** The pipeline never holds more than its length. */
  lemma PipelineIsBounded(cfg: Config, s: State, s': State, wanted: seq<bool>, pending: int, clock: nat -> int,
                          requests: seq<Request>, pending': int)
    requires Fits(cfg) && cfg.ChunkCount() <= |s.claimed| && cfg.ChunkCount() <= |wanted|
    requires RoundDone(cfg, s, s', wanted, pending, clock, requests, pending') && pending <= REQUEST_MSG_QUEUE_LENGTH
    ensures pending <= pending' <= REQUEST_MSG_QUEUE_LENGTH
  {
  }

  /** The interest of a peer: a chunk is wanted when the peer has its piece. */
  ghost predicate WantedOf(cfg: Config, have: seq<bool>, wanted: seq<bool>)
    requires cfg.Valid()
  {
    && cfg.ChunkCount() <= |wanted|
    && forall c :: 0 <= c < cfg.ChunkCount() ==> cfg.ChunkPiece(c) < |have| && wanted[c] == have[cfg.ChunkPiece(c)]
  }

  /** peer_send_msg_request: one round asks for exactly the lowest-numbered unclaimed chunks of the pieces that the
      peer has, as many as the pipeline has room for or as there are. */
  method RequestRound(td: TorrentData, peer: Bitfield, pending: int, clock: nat -> int)
    returns (requests: seq<Request>, pending': int, ghost wanted: seq<bool>)
    requires td.Valid() && td.cfg.Aligned() && Fits(td.cfg)
    requires peer.Valid() && td.cfg.PieceCount() <= 8 * peer.bytes.Length
    modifies td.claimed.bytes, td.claims
    ensures td.Valid() && WantedOf(td.cfg, old(peer.Bits()), wanted)
    ensures td.cfg.ChunkCount() <= |old(td.Abs()).claimed|
    ensures RoundDone(td.cfg, old(td.Abs()), td.Abs(), wanted, pending, clock, requests, pending')
  {
    assert td.cfg.Valid();
    hide TorrentData.Valid;
    hide TorrentData.Abs;
    hide BitAt;
    hide BitsOf;
    hide Config.ChunkCount;
    hide Config.PieceCount;
    hide Config.ChunkPiece;
    hide RoundChunks;
    hide RequestsFor;
    var interested := BuildInterest(td.cfg, peer);
    wanted := interested.Bits();
    WantedSize(td.cfg, interested);
    ClaimedSize(td);
    var room := if pending < REQUEST_MSG_QUEUE_LENGTH then REQUEST_MSG_QUEUE_LENGTH - pending else 0;
    if pending < REQUEST_MSG_QUEUE_LENGTH {
      requests := SendRequests(td, interested, room, clock);
    } else {
      requests := [];
      NoRoom(td.cfg, td.Abs(), wanted);
    }
    pending' := pending + |requests|;
  }

  lemma NoRoom(cfg: Config, s: State, wanted: seq<bool>)
    requires Fits(cfg) && cfg.ChunkCount() <= |s.claimed| && cfg.ChunkCount() <= |wanted|
    ensures RequestsFor(cfg, RoundChunks(s, wanted, cfg.ChunkCount(), 0), [])
  {
  }

  lemma WantedSize(cfg: Config, interested: Bitfield)
    requires cfg.chunkSize > 0 && interested.Valid() && interested.bitCount == cfg.ChunkCount()
    ensures |interested.Bits()| >= cfg.ChunkCount()
  {
    hide Config.ChunkCount;
  }

  lemma ClaimedSize(td: TorrentData)
    requires td.Valid()
    ensures td.cfg.ChunkCount() <= |td.Abs().claimed|
  {
    hide Config.ChunkCount;
  }
}

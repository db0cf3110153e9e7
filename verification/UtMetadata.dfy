/** The ut_metadata exchange (BEP 9): a bencoded dictionary followed, in a data message, by raw bytes
    (src/peer/peer_ut_metadata.c, src/torrent/torrent.c, src/peer/peer_messages.c). */
module UtMetadata {
  import opened Bytes
  import opened Options
  import opened Geometry
  import opened Bitfields
  import opened Completion
  import opened Files
  import opened Decimal
  import opened Store
  import opened TorrentDatas
  import opened Frames
  import opened Bencode
  import opened BencodeDict
  import opened BencodeGrammar
  import BencodeReader
  import BencodeWriter
  import Requests

  const MSG_EXTENSION: byte := 20

  const METADATA_PIECE_SIZE: nat := 262144
  const METADATA_CHUNK_SIZE: nat := 16384

  /** "msg_type" */
  const MSG_TYPE: seq<byte> := [109, 115, 103, 95, 116, 121, 112, 101]
  /** "piece" */
  const PIECE: seq<byte> := [112, 105, 101, 99, 101]
  /** "total_size" */
  const TOTAL_SIZE: seq<byte> := [116, 111, 116, 97, 108, 95, 115, 105, 122, 101]

  /** The store that holds the info dictionary while it is exchanged. */
  function MetadataConfig(size: nat): Config {
    Config(METADATA_PIECE_SIZE, METADATA_CHUNK_SIZE, size)
  }

  // --- messages -----------------------------------------------------------------------------------------

  function Unsigned64(n: int): nat {
    n % 0x1_0000_0000_0000_0000
  }

  function RequestHeader(chunk: nat): Node {
    DictAdd(DictAdd(Dict([]), MSG_TYPE, Num(0)), PIECE, Num(chunk))
  }

  function DataHeader(chunk: nat, total: nat): Node {
    DictAdd(DictAdd(DictAdd(Dict([]), MSG_TYPE, Num(1)), PIECE, Num(Wrap(chunk))), TOTAL_SIZE, Num(Int32(total)))
  }

  /** PEER_MSG_EXTENSION */
  function ExtensionMessage(extendedId: byte, body: seq<byte>): seq<byte>
    requires 2 + |body| < TWO_32
  {
    ToBE32(2 + |body|) + [MSG_EXTENSION] + [extendedId] + body
  }

  /** The message type that peer_handle_msg_extension reads. */
  function MessageType(msg: seq<byte>): Option<nat>
    requires |msg| >= 6
  {
    var d := Decode(msg[6..], 1);
    if d == None then None else Some(Unsigned64(LookupNum(d.value.0, MSG_TYPE)))
  }

  /** torrent_process_metadata_piece: the piece number of a message and what follows its dictionary. */
  function Split(msg: seq<byte>): Option<(nat, seq<byte>)>
    requires |msg| >= 6
  {
    var d := Decode(msg[6..], 1);
    if d == None then None else Some((Unsigned64(LookupNum(d.value.0, PIECE)), msg[6 + d.value.1..]))
  }

  ghost predicate Reads(msg: seq<byte>, msgType: nat, chunk: nat, payload: seq<byte>) {
    && IsFrame(msg) && |msg| >= 6
    && MessageType(msg) == Some(msgType)
    && Split(msg) == Some((chunk, payload))
  }

  lemma KeysAreDistinct()
    ensures NoZero(MSG_TYPE) && NoZero(PIECE) && NoZero(TOTAL_SIZE)
    ensures MSG_TYPE != PIECE && MSG_TYPE != TOTAL_SIZE && PIECE != TOTAL_SIZE
  {
    assert |MSG_TYPE| == 8 && |PIECE| == 5 && |TOTAL_SIZE| == 10;
  }

  lemma RequestHeaderReads(chunk: nat)
    ensures LookupNum(RequestHeader(chunk), MSG_TYPE) == 0 && LookupNum(RequestHeader(chunk), PIECE) == chunk
  {
    KeysAreDistinct();
    hide LookupIn;
    var e0: seq<Entry>, e1 := [], [Entry(MSG_TYPE, Num(0))];
    assert e0 + e1 == e1;
    assert LookupIn(e0, MSG_TYPE) == None && LookupIn(e0, PIECE) == None by { EmptyLookup(); }
    LookupAdded(e0, MSG_TYPE, Num(0), MSG_TYPE);
    LookupAdded(e0, MSG_TYPE, Num(0), PIECE);
    LookupAdded(e1, PIECE, Num(chunk), MSG_TYPE);
    LookupAdded(e1, PIECE, Num(chunk), PIECE);
  }

  lemma EmptyLookup()
    ensures forall key :: LookupIn([], key) == None
  {
  }

  lemma DataHeaderReads(chunk: nat, total: nat)
    ensures LookupNum(DataHeader(chunk, total), MSG_TYPE) == 1
    ensures LookupNum(DataHeader(chunk, total), PIECE) == Wrap(chunk)
  {
    KeysAreDistinct();
    hide LookupIn;
    hide Wrap;
    hide Int32;
    var e0: seq<Entry>, e1 := [], [Entry(MSG_TYPE, Num(1))];
    var e2 := e1 + [Entry(PIECE, Num(Wrap(chunk)))];
    assert e0 + e1 == e1;
    EmptyLookup();
    LookupAdded(e0, MSG_TYPE, Num(1), MSG_TYPE);
    LookupAdded(e0, MSG_TYPE, Num(1), PIECE);
    LookupAdded(e1, PIECE, Num(Wrap(chunk)), MSG_TYPE);
    LookupAdded(e1, PIECE, Num(Wrap(chunk)), PIECE);
    LookupAdded(e2, TOTAL_SIZE, Num(Int32(total)), MSG_TYPE);
    LookupAdded(e2, TOTAL_SIZE, Num(Int32(total)), PIECE);
  }

  ghost predicate Flat(node: Node) {
    node.Dict? && forall i :: 0 <= i < |node.entries| ==> node.entries[i].val.Num?
  }

  lemma {:induction false} FlatHeight(entries: seq<Entry>)
    requires forall i :: 0 <= i < |entries| ==> entries[i].val.Num?
    ensures EntriesHeight(entries) <= 1
  {
    if entries != [] {
      FlatHeight(entries[1..]);
    }
  }

  lemma ExtensionMessageBody(extendedId: byte, body: seq<byte>)
    requires 2 + |body| < TWO_32
    ensures var msg := ExtensionMessage(extendedId, body);
            |msg| >= 6 && IsFrame(msg) && msg[6..] == body
  {
    hide ToBE32;
    hide FromBE32;
    var msg := ExtensionMessage(extendedId, body);
    BE32RoundTrip(2 + |body|);
    assert msg[..4] == ToBE32(2 + |body|);
  }

  lemma BodyReads(msg: seq<byte>, header: Node, payload: seq<byte>)
    requires |msg| >= 6 && IsFrame(msg) && msg[6..] == Text(header) + payload
    requires Decode(msg[6..], 1) == Some((header, |Text(header)|))
    ensures Reads(msg, Unsigned64(LookupNum(header, MSG_TYPE)), Unsigned64(LookupNum(header, PIECE)), payload)
  {
    hide Text;
    hide Decode;
    hide IsFrame;
    hide LookupNum;
    hide Unsigned64;
    assert msg[6 + |Text(header)|..] == msg[6..][|Text(header)|..] == payload;
  }

  /** A message made of a dictionary of numbers and any bytes is read as that dictionary and those bytes. */
  lemma ExtensionMessageReads(extendedId: byte, header: Node, payload: seq<byte>)
    requires Valid(header) && Flat(header) && 2 + |Text(header) + payload| < TWO_32
    ensures var msg := ExtensionMessage(extendedId, Text(header) + payload);
            Reads(msg, Unsigned64(LookupNum(header, MSG_TYPE)), Unsigned64(LookupNum(header, PIECE)), payload)
  {
    FlatHeight(header.entries);
    assert Height(header) <= 2;
    hide Text;
    hide Decode;
    hide Height;
    hide ExtensionMessage;
    hide Reads;
    hide LookupNum;
    hide Unsigned64;
    DecodeText(header, payload, 1);
    ExtensionMessageBody(extendedId, Text(header) + payload);
    BodyReads(ExtensionMessage(extendedId, Text(header) + payload), header, payload);
  }

  lemma HeadersAreFlat(chunk: nat, total: nat)
    requires IsLong(chunk)
    ensures Valid(RequestHeader(chunk)) && Flat(RequestHeader(chunk))
    ensures Valid(DataHeader(chunk, total)) && Flat(DataHeader(chunk, total))
  {
  }

  lemma NumbersSurvive(chunk: nat)
    requires IsLong(chunk)
    ensures Unsigned64(0) == 0 && Unsigned64(1) == 1 && Unsigned64(chunk) == chunk && Unsigned64(Wrap(chunk)) == chunk
  {
  }

  /** A data message, whatever its payload, is split into the piece number and the payload that went in. */
  lemma DataMessageSplits(extendedId: byte, chunk: nat, total: nat, payload: seq<byte>)
    requires IsLong(chunk) && 2 + |Text(DataHeader(chunk, total)) + payload| < TWO_32
    ensures Reads(ExtensionMessage(extendedId, Text(DataHeader(chunk, total)) + payload), 1, chunk, payload)
  {
    DataHeaderReads(chunk, total);
    NumbersSurvive(chunk);
    HeadersAreFlat(chunk, total);
    hide Unsigned64;
    hide Wrap;
    hide LookupNum;
    hide Valid;
    hide Flat;
    hide Text;
    hide DataHeader;
    hide ExtensionMessage;
    hide Reads;
    ExtensionMessageReads(extendedId, DataHeader(chunk, total), payload);
  }

  lemma RequestMessageReads(extendedId: byte, chunk: nat)
    requires IsLong(chunk) && 2 + |Text(RequestHeader(chunk))| < TWO_32
    ensures Reads(ExtensionMessage(extendedId, Text(RequestHeader(chunk))), 0, chunk, [])
  {
    RequestHeaderReads(chunk);
    NumbersSurvive(chunk);
    HeadersAreFlat(chunk, 0);
    hide Unsigned64;
    hide LookupNum;
    hide Valid;
    hide Flat;
    hide Text;
    hide RequestHeader;
    hide ExtensionMessage;
    hide Reads;
    assert Text(RequestHeader(chunk)) + [] == Text(RequestHeader(chunk));
    ExtensionMessageReads(extendedId, RequestHeader(chunk), []);
  }

  // --- answering and receiving --------------------------------------------------------------------------

  const BUFFER_SIZE: nat := 65535

  lemma NumEntryLength(key: seq<byte>, n: int)
    requires |key| <= 10 && IsLong(n)
    ensures |EntryText(Entry(key, Num(n)))| <= 50
  {
    BencodeWriter.TmpBufFits(n);
    BencodeWriter.NatTextLength(|key|, 2);
    hide NatText;
    hide IntText;
  }

  lemma ThreeEntries(a: Entry, b: Entry, c: Entry)
    ensures |Text(Dict([a, b, c]))| == 2 + |EntryText(a)| + |EntryText(b)| + |EntryText(c)|
  {
    hide EntryText;
    assert [a, b, c][1..] == [b, c] && [b, c][1..] == [c] && [c][1..] == [];
    assert EntriesText([c]) == EntryText(c) + [];
    assert EntriesText([b, c]) == EntryText(b) + EntriesText([c]);
    assert EntriesText([a, b, c]) == EntryText(a) + EntriesText([b, c]);
  }

  lemma DataHeaderLength(chunk: nat, total: nat)
    requires IsLong(chunk)
    ensures |Text(DataHeader(chunk, total))| <= 200
  {
    var a, b, c := Entry(MSG_TYPE, Num(1)), Entry(PIECE, Num(Wrap(chunk))), Entry(TOTAL_SIZE, Num(Int32(total)));
    assert DataHeader(chunk, total) == Dict([a, b, c]);
    NumEntryLength(MSG_TYPE, 1);
    NumEntryLength(PIECE, Wrap(chunk));
    NumEntryLength(TOTAL_SIZE, Int32(total));
    ThreeEntries(a, b, c);
  }

  /** What peer_handle_ut_metadata_request sends for a chunk. */
  ghost function Reply(cfg: Config, disk: seq<byte>, extendedId: byte, chunk: nat): seq<byte>
    requires Requests.Fits(cfg) && chunk < cfg.ChunkCount() && IsLong(chunk) && cfg.chunkSize <= METADATA_CHUNK_SIZE
  {
    Requests.RequestFields(cfg, chunk);
    DataHeaderLength(chunk, cfg.dataSize);
    var block := Requests.Block(cfg, disk, cfg.ChunkOffset(chunk), cfg.ChunkLength(chunk));
    ExtensionMessage(extendedId, Text(DataHeader(chunk, cfg.dataSize)) + block)
  }

  /** A metadata chunk asked for, sent and received arrives as the bytes that the sender's store holds for it, and a
      receiver that expects as many bytes of metadata accepts it exactly when it does not have that chunk yet. */
  lemma MetadataExchange(size: nat, disk: seq<byte>, extendedId: byte, s: State, chunk: nat)
    requires size < 0x8000_0000 && size <= |disk|
    requires var cfg := MetadataConfig(size); chunk < cfg.ChunkCount() && Padded(cfg, s.completed)
    ensures var cfg := MetadataConfig(size);
            && Requests.Fits(cfg) && IsLong(chunk) && chunk < |s.completed|
            && Reads(Reply(cfg, disk, extendedId, chunk), 1, chunk, Requests.ChunkBytes(cfg, disk, chunk))
            && (Accepts(Setup(cfg, None), s, chunk, Requests.ChunkBytes(cfg, disk, chunk)) <==> !s.completed[chunk])
  {
    var cfg := MetadataConfig(size);
    assert Requests.Fits(cfg) && IsLong(chunk);
    Requests.BlockIsChunk(cfg, disk, chunk);
    Requests.ReplyIsAccepted(Setup(cfg, None), s, disk, chunk);
    DataHeaderLength(chunk, size);
    DataMessageSplits(extendedId, chunk, size, Requests.ChunkBytes(cfg, disk, chunk));
  }

  /** torrent_process_metadata_piece reads all the metadata back with one call. That returns the metadata, whatever
      it is, exactly when it is no longer than one piece. */
  lemma MetadataReadBackIff(size: nat)
    requires size > 0
    ensures 0 < PieceTail(MetadataConfig(size), 0) <= size
    ensures (forall disk: seq<byte> :: |disk| == size ==>
            Repeated(disk, 0, PieceTail(MetadataConfig(size), 0), size) == disk[0..0 + size])
       <==> size <= METADATA_PIECE_SIZE
  {
    ReadExactIff(0, PieceTail(MetadataConfig(size), 0), size, size);
  }

  /** peer_handle_ut_metadata_request: the dictionary is printed into a buffer, the chunk goes after it, and both are
      sent. */
  method HandleRequest(td: TorrentData, extendedId: byte, chunk: nat) returns (reply: Option<seq<byte>>)
    requires td.Valid() && Requests.Fits(td.cfg) && chunk < td.cfg.ChunkCount() && IsLong(chunk)
    requires td.cfg.chunkSize <= METADATA_CHUNK_SIZE
    ensures reply == if td.IsComplete() then Some(Reply(td.cfg, Concat(td.files), extendedId, chunk)) else None
  {
    hide TorrentData.Valid;
    hide Concat;
    hide Text;
    hide DataHeader;
    hide ExtensionMessage;
    hide Requests.Block;
    if !td.IsComplete() {
      return None;
    }
    Requests.RequestFields(td.cfg, chunk);
    HeadersAreFlat(chunk, td.cfg.dataSize);
    DataHeaderLength(chunk, td.cfg.dataSize);
    var buffer := new byte[BUFFER_SIZE];
    var encodedSize := BencodeWriter.Encode(DataHeader(chunk, td.cfg.dataSize), buffer, 0, BUFFER_SIZE);
    var block := Requests.ReadBlock(td, td.cfg.ChunkOffset(chunk), td.cfg.ChunkLength(chunk));
    BencodeWriter.Copy(block, buffer, encodedSize, BUFFER_SIZE - encodedSize);
    assert buffer[..encodedSize + |block|] == Text(DataHeader(chunk, td.cfg.dataSize)) + block;
    reply := Some(ExtensionMessage(extendedId, buffer[..encodedSize + |block|]));
  }

  /** The head of torrent_process_metadata_piece: the message is split and its payload goes to the store. */
  method ProcessPiece(td: TorrentData, msg: seq<byte>) returns (ok: bool)
    requires td.Valid() && |msg| >= 6 && td.cfg.pieceSize <= TWO_32 - 64
    requires Split(msg).Some? ==> 0 <= Int32(Split(msg).value.0) < 8 * BytesFor(td.cfg.ChunkCount())
    modifies td, td.completed.bytes, td.data, td.data.buckets
    ensures td.Valid()
    ensures Split(msg).Some? ==> Int32(Split(msg).value.0) < |old(td.Abs()).completed|
    ensures Split(msg).None? ==> !ok && td.Abs() == old(td.Abs())
    ensures Split(msg).Some? ==>
              td.Abs() == Write(td.TheSetup(), old(td.Abs()), Int32(Split(msg).value.0), Split(msg).value.1).0
  {
    hide TorrentData.Valid;
    hide TorrentData.Abs;
    hide Decode;
    hide LookupIn;
    hide Write;
    KeysAreDistinct();
    var d := BencodeReader.Parse(msg[6..], 1);
    if d == None {
      return false;
    }
    var piece := BencodeDict.Find(d.value.0, PIECE);
    var num := if piece.Some? && piece.value.Num? then piece.value.num else -1;
    var _ := td.WriteChunk(Int32(Unsigned64(num)), msg[6 + d.value.1..]);
    ok := true;
  }
}

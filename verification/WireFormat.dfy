/** The octets of what goes over the wire, written out: the order of octets in a number, of bits in an octet, and
    samples of the messages. */
module WireFormat {
  import opened Bytes
  import opened Bitfields
  import opened Decimal
  import opened Frames
  import opened Bencode
  import opened Requests
  import opened UtMetadata

  lemma ByteValIs(b: byte)
    ensures ByteVal(b) == b as int
  {
  }

  lemma ByteOfIs(k: int)
    requires 0 <= k < 256
    ensures ByteOf(k) as int == k
  {
    ByteValIs(ByteOf(k));
    ByteValOfByteOf(k);
  }

  /** ntohl and htonl: the first octet weighs most. */
  lemma BigEndian(s: seq<byte>)
    requires |s| == 4
    ensures FromBE32(s) == ((s[0] as int * 256 + s[1] as int) * 256 + s[2] as int) * 256 + s[3] as int
  {
    ByteValIs(s[0]);
    ByteValIs(s[1]);
    ByteValIs(s[2]);
    ByteValIs(s[3]);
  }

  lemma BigEndianOctets(n: int)
    requires 0 <= n < TWO_32
    ensures var s := ToBE32(n);
            && s[0] as int == n / 0x100_0000 && s[1] as int == n / 0x1_0000 % 256
            && s[2] as int == n / 0x100 % 256 && s[3] as int == n % 256
  {
    ByteOfIs(n / 0x1000000);
    ByteOfIs(n / 0x10000 % 256);
    ByteOfIs(n / 0x100 % 256);
    ByteOfIs(n % 256);
    hide ByteOf;
  }

  /** BEP 3: the high bit of the first octet stands for the first piece. */
  lemma HighBitFirst(bytes: seq<byte>, i: nat)
    requires i < 8 * |bytes|
    ensures BitsOf(bytes)[i] <==> bytes[i / 8] & ((0x80 as byte) >> (i % 8)) != 0
  {
  }

  /** The ids that a message may have. */
  lemma MessageIds(id: byte)
    ensures ValidId(id) <==> id in {0, 1, 2, 3, 4, 5, 6, 7, 8, 9, 20}
  {
  }

  /** The request for the 16384 octets from 16384 on of piece 1. */
  lemma RequestSample()
    ensures RequestMessage(Request(1, 16384, 16384))
         == [0, 0, 0, 13, 6, 0, 0, 0, 1, 0, 0, 0x40, 0, 0, 0, 0x40, 0]
  {
    SmallNumbers();
    hide ToBE32;
  }

  /** The piece message that answers a request for octet 16384 of piece 1, which is 255. */
  lemma PieceSample()
    ensures PieceMessage([0, 0, 0, 1], [0, 0, 0x40, 0], [0xFF])
         == [0, 0, 0, 10, 7, 0, 0, 0, 1, 0, 0, 0x40, 0, 0xFF]
  {
    SmallNumbers();
    hide ToBE32;
  }

  lemma SmallNumbers()
    ensures ToBE32(1) == [0, 0, 0, 1] && ToBE32(10) == [0, 0, 0, 10]
    ensures ToBE32(13) == [0, 0, 0, 13] && ToBE32(16384) == [0, 0, 0x40, 0]
  {
    SmallWord(1, 0, 1);
    SmallWord(10, 0, 10);
    SmallWord(13, 0, 13);
    SmallWord(16384, 0x40, 0);
    hide ToBE32;
    SmallOctets();
    hide ByteOf;
  }

  lemma SmallOctets()
    ensures ByteOf(0) == 0 && ByteOf(1) == 1 && ByteOf(10) == 10 && ByteOf(13) == 13 && ByteOf(0x40) == 0x40
  {
  }

  /** The text of an entry with a number of one digit. */
  lemma EntryOf(key: seq<byte>, n: nat, digit: byte)
    requires NatText(n) == [digit]
    ensures EntryText(Entry(key, Num(n))) == StrText(key) + [105, digit, 101]
  {
    assert IntText(n) == [digit];
    hide NatText;
    hide StrText;
    assert Text(Num(n)) == [105, digit, 101];
    hide Text;
  }

  lemma Digits()
    ensures NatText(0) == [48] && NatText(1) == [49] && NatText(3) == [51] && NatText(7) == [55]
  {
  }

  /** "8:msg_type", "5:piece" and "10:total_size" */
  lemma KeyTexts()
    ensures StrText(MSG_TYPE) == [56, 58, 109, 115, 103, 95, 116, 121, 112, 101]
    ensures StrText(PIECE) == [53, 58, 112, 105, 101, 99, 101]
    ensures StrText(TOTAL_SIZE) == [49, 48, 58, 116, 111, 116, 97, 108, 95, 115, 105, 122, 101]
  {
    assert |MSG_TYPE| == 8 && |PIECE| == 5 && |TOTAL_SIZE| == 10;
    assert NatText(8) == [56] && NatText(5) == [53];
    assert NatText(1) == [49] && NatText(10) == [49] + [48];
  }

  lemma HeadersAre(chunk: nat, total: nat)
    requires chunk < 10 && total < 10
    ensures RequestHeader(chunk) == Dict([Entry(MSG_TYPE, Num(0)), Entry(PIECE, Num(chunk))])
    ensures DataHeader(chunk, total)
         == Dict([Entry(MSG_TYPE, Num(1)), Entry(PIECE, Num(chunk)), Entry(TOTAL_SIZE, Num(total))])
  {
  }

  lemma EntriesOf(e: Entry, entries: seq<Entry>)
    ensures EntriesText([]) == [] && EntriesText([e] + entries) == EntryText(e) + EntriesText(entries)
  {
    hide EntryText;
    assert ([e] + entries)[1..] == entries;
  }

  /** BEP 9: "d8:msg_typei0e5:piecei3ee" */
  lemma MetadataRequestSample()
    ensures Text(RequestHeader(3))
         == [100] + (StrText(MSG_TYPE) + [105, 48, 101] + (StrText(PIECE) + [105, 51, 101])) + [101]
  {
    HeadersAre(3, 7);
    hide RequestHeader;
    hide EntriesText;
    hide EntryText;
    var e0, e1 := Entry(MSG_TYPE, Num(0)), Entry(PIECE, Num(3));
    Digits();
    EntryOf(MSG_TYPE, 0, 48);
    EntryOf(PIECE, 3, 51);
    hide StrText;
    assert [e0] + [e1] == [e0, e1] && [e1] + [] == [e1];
    EntriesOf(e0, [e1]);
    EntriesOf(e1, []);
    assert EntryText(e1) + [] == EntryText(e1);
  }

  /** BEP 9: "d8:msg_typei1e5:piecei3e10:total_sizei7ee" */
  lemma MetadataPieceSample()
    ensures Text(DataHeader(3, 7))
         == [100] + (StrText(MSG_TYPE) + [105, 49, 101] + (StrText(PIECE) + [105, 51, 101]
                     + (StrText(TOTAL_SIZE) + [105, 55, 101]))) + [101]
  {
    HeadersAre(3, 7);
    hide DataHeader;
    Digits();
    EntryOf(MSG_TYPE, 1, 49);
    EntryOf(PIECE, 3, 51);
    EntryOf(TOTAL_SIZE, 7, 55);
    hide NatText;
    hide StrText;
    hide EntryText;
    hide EntriesText;
    hide Text;
    var e0, e1, e2 := Entry(MSG_TYPE, Num(1)), Entry(PIECE, Num(3)), Entry(TOTAL_SIZE, Num(7));
    EntriesOfThree(e0, e1, e2);
    DictText([e0, e1, e2]);
  }

  lemma DictText(entries: seq<Entry>)
    ensures Text(Dict(entries)) == [100] + EntriesText(entries) + [101]
  {
    hide EntriesText;
  }

  lemma EntriesOfThree(e0: Entry, e1: Entry, e2: Entry)
    ensures EntriesText([e0, e1, e2]) == EntryText(e0) + (EntryText(e1) + EntryText(e2))
  {
    hide EntriesText;
    hide EntryText;
    assert [e0] + [e1, e2] == [e0, e1, e2];
    EntriesOf(e0, [e1, e2]);
    assert [e1] + [e2] == [e1, e2];
    EntriesOf(e1, [e2]);
    assert [e2] + [] == [e2];
    EntriesOf(e2, []);
    assert EntryText(e2) + [] == EntryText(e2);
  }
}

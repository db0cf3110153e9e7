/** Bencoded values (src/bencode/bencode.c): their text, and what the recursive parser makes of a buffer. */
module Bencode {
  import opened Bytes
  import opened Options
  import opened Decimal

  datatype Node =
    | Num(num: int)
    | Str(str: seq<byte>)
    | List(items: seq<Node>)
    | Dict(entries: seq<Entry>)

  datatype Entry = Entry(key: seq<byte>, val: Node)

  const CH_I: byte := 105
  const CH_L: byte := 108
  const CH_D: byte := 100
  const CH_E: byte := 101
  const COLON: byte := 58

  const BE_MAX_DEPTH := 10

  const LLONG_MAX := 0x7FFF_FFFF_FFFF_FFFF
  const LLONG_MIN := -0x8000_0000_0000_0000

  predicate IsLong(n: int) {
    LLONG_MIN <= n <= LLONG_MAX
  }

  /** Numbers and lengths are of type long long. */
  ghost predicate Valid(node: Node) {
    match node
    case Num(n) => IsLong(n)
    case Str(s) => IsLong(|s|)
    case List(items) => forall i :: 0 <= i < |items| ==> Valid(items[i])
    case Dict(entries) => forall i :: 0 <= i < |entries| ==> IsLong(|entries[i].key|) && Valid(entries[i].val)
  }

  // --- the text of a value ------------------------------------------------------------------------------

  function StrText(s: seq<byte>): seq<byte> {
    NatText(|s|) + [COLON] + s
  }

  function Text(node: Node): (t: seq<byte>)
    ensures |t| >= 2
    decreases node, 1
  {
    match node
    case Num(n) => NatTextValue(if n < 0 then -n else n); [CH_I] + IntText(n) + [CH_E]
    case Str(s) => NatTextValue(|s|); StrText(s)
    case List(items) => [CH_L] + ItemsText(items) + [CH_E]
    case Dict(entries) => [CH_D] + EntriesText(entries) + [CH_E]
  }

  function ItemsText(items: seq<Node>): seq<byte>
    decreases items, 0
  {
    if items == [] then [] else Text(items[0]) + ItemsText(items[1..])
  }

  function EntriesText(entries: seq<Entry>): seq<byte>
    decreases entries, 0
  {
    if entries == [] then [] else EntryText(entries[0]) + EntriesText(entries[1..])
  }

  function EntryText(entry: Entry): seq<byte>
    decreases entry, 1
  {
    StrText(entry.key) + Text(entry.val)
  }

  /** How deeply lists and dictionaries are nested, counting the value itself. */
  function Height(node: Node): (h: nat)
    ensures h >= 1
    decreases node, 1
  {
    match node
    case Num(_) => 1
    case Str(_) => 1
    case List(items) => 1 + ItemsHeight(items)
    case Dict(entries) => 1 + EntriesHeight(entries)
  }

  function Max(x: nat, y: nat): nat { if x < y then y else x }

  function ItemsHeight(items: seq<Node>): nat
    decreases items, 0
  {
    if items == [] then 0 else Max(Height(items[0]), ItemsHeight(items[1..]))
  }

  function EntriesHeight(entries: seq<Entry>): nat
    decreases entries, 0
  {
    if entries == [] then 0 else Max(Height(entries[0].val), EntriesHeight(entries[1..]))
  }

  // --- parsing numbers ----------------------------------------------------------------------------------

  /** Two's complement wrap-around of a long long. */
  function Wrap(x: int): int {
    (x + 0x8000_0000_0000_0000) % 0x1_0000_0000_0000_0000 - 0x8000_0000_0000_0000
  }

  datatype Acc = Acc(ret: int, overflowed: bool)

  /** One turn of the digit loop of be_decode_int. */
  function AddDigit(a: Acc, d: int, negative: bool): Acc {
    if a.overflowed then a
    else
      var ret := Wrap(a.ret * 10 + (if negative then -d else d));
      if !negative && ret < a.ret then Acc(LLONG_MAX, true)
      else if negative && ret > a.ret then Acc(LLONG_MIN, true)
      else Acc(ret, false)
  }

  function AddDigits(digits: seq<byte>, negative: bool): Acc
    requires AllDigits(digits)
  {
    if digits == [] then Acc(0, false)
    else AddDigit(AddDigits(digits[..|digits| - 1], negative), DigitVal(digits[|digits| - 1]), negative)
  }

  /** The number of digits at the front of a buffer. */
  function DigitRun(buf: seq<byte>): (k: nat)
    ensures k <= |buf| && AllDigits(buf[..k]) && (k < |buf| ==> !IsDigit(buf[k]))
  {
    if buf == [] || !IsDigit(buf[0]) then 0
    else
      var k := DigitRun(buf[1..]);
      assert buf[..k + 1] == [buf[0]] + buf[1..][..k];
      k + 1
  }

  /** be_decode_int: an optional minus sign and the digits after it; the number and how much of the buffer it took. */
  function DecodeInt(buf: seq<byte>): (r: (int, nat))
    requires buf != []
    ensures r.1 <= |buf|
  {
    var start := if buf[0] == MINUS then 1 else 0;
    var k := DigitRun(buf[start..]);
    (AddDigits(buf[start..][..k], buf[0] == MINUS).ret, start + k)
  }

  function Signed(n: int, negative: bool): int {
    if negative then -n else n
  }

  lemma AddDigitExact(t: int, d: int, negative: bool)
    requires 0 <= t && 0 <= d < 10 && IsLong(Signed(10 * t + d, negative))
    ensures AddDigit(Acc(Signed(t, negative), false), d, negative) == Acc(Signed(10 * t + d, negative), false)
  {
  }

  /** The digits of a number that fits are accumulated without wrapping. */
  lemma {:induction false} AddDigitsExact(digits: seq<byte>, negative: bool)
    requires AllDigits(digits) && IsLong(Signed(NatValue(digits), negative))
    ensures AddDigits(digits, negative) == Acc(Signed(NatValue(digits), negative), false)
  {
    hide AddDigit;
    hide DigitVal;
    hide IsDigit;
    if digits != [] {
      var front := digits[..|digits| - 1];
      AddDigitsExact(front, negative);
      AddDigitExact(NatValue(front), DigitVal(digits[|digits| - 1]), negative);
    }
  }

  lemma DigitRunIs(buf: seq<byte>, k: nat)
    requires k <= |buf| && AllDigits(buf[..k]) && (k < |buf| ==> !IsDigit(buf[k]))
    ensures DigitRun(buf) == k
  {
    hide IsDigit;
    hide DigitRun;
  }

  /** What be_decode_int makes of digits after an optional minus sign. */
  lemma DecodeDigits(buf: seq<byte>, start: nat, digits: seq<byte>, rest: seq<byte>)
    requires buf != [] && start == if buf[0] == MINUS then 1 else 0
    requires AllDigits(digits) && rest != [] && !IsDigit(rest[0])
    requires IsLong(Signed(NatValue(digits), start == 1))
    requires buf[start..] == digits + rest
    ensures DecodeInt(buf) == (Signed(NatValue(digits), start == 1), start + |digits|)
  {
    hide NatValue;
    hide AddDigits;
    hide DigitRun;
    hide IsDigit;
    hide AllDigits;
    AddDigitsExact(digits, start == 1);
    var tail := digits + rest;
    assert tail[..|digits|] == digits && tail[|digits|] == rest[0];
    DigitRunIs(tail, |digits|);
  }

  lemma DecodeNatText(n: nat, rest: seq<byte>)
    requires IsLong(n) && rest != [] && !IsDigit(rest[0])
    ensures NatText(n) + rest != [] && DecodeInt(NatText(n) + rest) == (n, |NatText(n)|)
  {
    NatTextValue(n);
    assert NatText(n)[0] != MINUS;
    hide NatText;
    hide NatValue;
    hide DecodeInt;
    var buf := NatText(n) + rest;
    assert buf[0..] == buf;
    DecodeDigits(buf, 0, NatText(n), rest);
  }

  lemma DecodeNegativeText(n: nat, rest: seq<byte>)
    requires IsLong(Signed(n, true)) && rest != [] && !IsDigit(rest[0])
    ensures DecodeInt([MINUS] + (NatText(n) + rest)) == (Signed(n, true), 1 + |NatText(n)|)
  {
    NatTextValue(n);
    hide NatText;
    hide NatValue;
    hide DecodeInt;
    hide IsDigit;
    hide AllDigits;
    var buf := [MINUS] + (NatText(n) + rest);
    assert buf[1..] == NatText(n) + rest;
    DecodeDigits(buf, 1, NatText(n), rest);
  }

  /** A printed number reads back as itself. */
  lemma DecodeIntText(n: int, rest: seq<byte>)
    requires IsLong(n) && rest != [] && !IsDigit(rest[0])
    ensures IntText(n) + rest != [] && DecodeInt(IntText(n) + rest) == (n, |IntText(n)|)
  {
    hide NatText;
    hide DecodeInt;
    hide IsDigit;
    if n >= 0 {
      DecodeNatText(n, rest);
    } else {
      DecodeNegativeText(-n, rest);
      assert IntText(n) + rest == [MINUS] + (NatText(-n) + rest);
    }
  }

  // --- parsing values -----------------------------------------------------------------------------------

  /** be_decode_str */
  function DecodeStr(buf: seq<byte>): (r: Option<(seq<byte>, nat)>)
    requires buf != []
    ensures r.Some? ==> 0 < r.value.1 <= |buf|
  {
    var (len, n) := DecodeInt(buf);
    var rest := buf[n..];
    if rest == [] || len < 0 || len > |rest| - 1 || rest[0] != COLON then None
    else Some((rest[1..1 + len], n + 1 + len))
  }

  /** be_decode1: the value at the front of the buffer and how much of the buffer it took. A number that the buffer
      ends in is a failure. */
  function Decode(buf: seq<byte>, depth: nat): (r: Option<(Node, nat)>)
    ensures r.Some? ==> 0 < r.value.1 <= |buf|
    decreases |buf|, 0
  {
    if depth > BE_MAX_DEPTH || buf == [] then None
    else if buf[0] == CH_I then
      if |buf| == 1 then None
      else
        var (num, n) := DecodeInt(buf[1..]);
        if 1 + n == |buf| || buf[1 + n] != CH_E then None else Some((Num(num), n + 2))
    else if IsDigit(buf[0]) then
      match DecodeStr(buf)
      case None => None
      case Some((s, n)) => Some((Str(s), n))
    else if buf[0] == CH_L then
      if |buf| == 1 then None
      else
        match DecodeItems(buf[1..], depth)
        case None => None
        case Some((items, n)) => Some((List(items), 1 + n))
    else if buf[0] == CH_D then
      if |buf| == 1 then None
      else
        match DecodeEntries(buf[1..], depth)
        case None => None
        case Some((entries, n)) => Some((Dict(entries), 1 + n))
    else None
  }

  /** The loop over the items of a list, up to and including its end mark. */
  function DecodeItems(buf: seq<byte>, depth: nat): (r: Option<(seq<Node>, nat)>)
    requires buf != []
    ensures r.Some? ==> 0 < r.value.1 <= |buf|
    decreases |buf|, 1
  {
    if buf[0] == CH_E then Some(([], 1))
    else
      match Decode(buf, depth + 1)
      case None => None
      case Some((item, n)) =>
        if n == |buf| then None
        else
          match DecodeItems(buf[n..], depth)
          case None => None
          case Some((items, m)) => Some(([item] + items, n + m))
  }

  /** The loop over the entries of a dictionary, up to and including its end mark. */
  function DecodeEntries(buf: seq<byte>, depth: nat): (r: Option<(seq<Entry>, nat)>)
    requires buf != []
    ensures r.Some? ==> 0 < r.value.1 <= |buf|
    decreases |buf|, 2
  {
    if buf[0] == CH_E then Some(([], 1))
    else
      match DecodeEntry(buf, depth)
      case None => None
      case Some((entry, n)) =>
        if n == |buf| then None
        else
          match DecodeEntries(buf[n..], depth)
          case None => None
          case Some((entries, m)) => Some(([entry] + entries, n + m))
  }

  /** One turn of that loop: a key and the value after it. */
  function DecodeEntry(buf: seq<byte>, depth: nat): (r: Option<(Entry, nat)>)
    requires buf != []
    ensures r.Some? ==> 0 < r.value.1 <= |buf|
    decreases |buf|, 1
  {
    match DecodeStr(buf)
    case None => None
    case Some((key, k)) =>
      match Decode(buf[k..], depth + 1)
      case None => None
      case Some((val, n)) => Some((Entry(key, val), k + n))
  }

  // --- strings and entries ------------------------------------------------------------------------------

  lemma DecodeStrAt(buf: seq<byte>, n: nat, s: seq<byte>, rest: seq<byte>)
    requires buf != [] && n <= |buf| && DecodeInt(buf) == (|s|, n) && buf[n..] == [COLON] + s + rest
    ensures DecodeStr(buf) == Some((s, n + 1 + |s|))
  {
    hide DecodeInt;
    assert buf[n..][1..1 + |s|] == s;
  }

  lemma ColonIsNoDigit()
    ensures !IsDigit(COLON)
  {
  }

  lemma DecodeStrText(s: seq<byte>, rest: seq<byte>)
    requires IsLong(|s|)
    ensures StrText(s) + rest != [] && IsDigit((StrText(s) + rest)[0])
    ensures DecodeStr(StrText(s) + rest) == Some((s, |StrText(s)|))
  {
    hide NatText;
    hide NatValue;
    hide DecodeInt;
    hide DecodeStr;
    hide IsDigit;
    var n, tail := NatText(|s|), [COLON] + s + rest;
    NatTextValue(|s|);
    assert IsDigit(n[0]);
    assert !IsDigit(COLON) by { ColonIsNoDigit(); }
    hide AllDigits;
    DecodeNatText(|s|, tail);
    var buf := n + tail;
    assert StrText(s) + rest == buf;
    assert buf[|n|..] == tail;
    DecodeStrAt(buf, |n|, s, rest);
  }

  lemma DecodeEntryAt(buf: seq<byte>, key: seq<byte>, k: nat, depth: nat)
    requires buf != [] && k <= |buf| && DecodeStr(buf) == Some((key, k))
    ensures var val := Decode(buf[k..], depth + 1);
            DecodeEntry(buf, depth) == if val == None then None else Some((Entry(key, val.value.0), k + val.value.1))
  {
    hide Decode;
    hide DecodeStr;
  }
}

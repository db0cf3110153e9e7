/** The language of bencoded values, as BEP 3 writes it, with what src/bencode/bencode.c takes besides: numerals with
    leading zeros, with "-0" and with no digits at all. It is defined apart from the parser and the printer. */
module BencodeGrammar {
  import opened Bytes
  import opened Options
  import opened Decimal
  import opened Bencode

  /** The octet of a character of ASCII. */
  function Ascii(c: char): byte
    requires c < 128 as char
  {
    c as int as byte
  }

  lemma Letters()
    ensures Ascii('i') == CH_I && Ascii('l') == CH_L && Ascii('d') == CH_D && Ascii('e') == CH_E
    ensures Ascii(':') == COLON && Ascii('-') == MINUS && Ascii('0') == ZERO && Ascii('9') == NINE
  {
  }

  ghost predicate Digits(t: seq<byte>) {
    forall i :: 0 <= i < |t| ==> Ascii('0') <= t[i] <= Ascii('9')
  }

  function Value(t: seq<byte>): int {
    if t == [] then 0 else 10 * Value(t[..|t| - 1]) + (t[|t| - 1] as int - '0' as int)
  }

  /** The text of the number `n`. A number that a long long does not hold has a text for `exact` to refuse; otherwise
      nothing is said of how it is read. */
  ghost predicate Numeral(t: seq<byte>, n: int, exact: bool) {
    var negative := t != [] && t[0] == Ascii('-');
    var digits := if negative then t[1..] else t;
    var v := if negative then -Value(digits) else Value(digits);
    Digits(digits) && (IsLong(v) ==> n == v) && (exact ==> IsLong(v))
  }

  /** A length, a colon and that many octets. */
  ghost predicate SpellsStr(t: seq<byte>, s: seq<byte>, exact: bool) {
    && |s| < |t|
    && var k := |t| - |s| - 1;
    && t[k] == Ascii(':') && t[k + 1..] == s && Numeral(t[..k], |s|, exact)
  }

  ghost predicate Enclosed(t: seq<byte>, letter: byte) {
    |t| >= 2 && t[0] == letter && t[|t| - 1] == Ascii('e')
  }

  /** `t` is a bencoded form of the value. */
  ghost predicate Spells(t: seq<byte>, node: Node, exact: bool)
    decreases node, 1
  {
    match node
    case Num(n) => Enclosed(t, Ascii('i')) && Numeral(t[1..|t| - 1], n, exact)
    case Str(s) => SpellsStr(t, s, exact) && Ascii('0') <= t[0] <= Ascii('9')
    case List(items) => Enclosed(t, Ascii('l')) && SpellsItems(t[1..|t| - 1], items, exact)
    case Dict(entries) => Enclosed(t, Ascii('d')) && SpellsEntries(t[1..|t| - 1], entries, exact)
  }

  ghost predicate SpellsItems(t: seq<byte>, items: seq<Node>, exact: bool)
    decreases items, 0
  {
    if items == [] then t == []
    else exists k | 0 <= k <= |t| :: Spells(t[..k], items[0], exact) && SpellsItems(t[k..], items[1..], exact)
  }

  ghost predicate SpellsEntries(t: seq<byte>, entries: seq<Entry>, exact: bool)
    decreases entries, 0
  {
    if entries == [] then t == []
    else
      exists k | 0 <= k <= |t| :: SpellsEntry(t[..k], entries[0], exact) && SpellsEntries(t[k..], entries[1..], exact)
  }

  ghost predicate SpellsEntry(t: seq<byte>, entry: Entry, exact: bool)
    decreases entry, 1
  {
    exists k | 0 <= k <= |t| :: SpellsStr(t[..k], entry.key, exact) && Spells(t[k..], entry.val, exact)
  }

  // --- numerals -----------------------------------------------------------------------------------------

  lemma DigitIs(b: byte)
    ensures IsDigit(b) <==> Ascii('0') <= b <= Ascii('9')
    ensures IsDigit(b) ==> DigitVal(b) == b as int - '0' as int
  {
    Letters();
  }

  lemma {:induction false} DigitsValue(t: seq<byte>)
    ensures Digits(t) <==> AllDigits(t)
    ensures AllDigits(t) ==> Value(t) == NatValue(t)
  {
    forall i | 0 <= i < |t|
      ensures IsDigit(t[i]) <==> Ascii('0') <= t[i] <= Ascii('9')
    {
      DigitIs(t[i]);
    }
    hide IsDigit;
    hide DigitVal;
    if t != [] && AllDigits(t) {
      DigitsValue(t[..|t| - 1]);
      DigitIs(t[|t| - 1]);
    }
  }

  /** What be_decode_int takes is a numeral, and all the digits there are. */
  lemma IntIsNumeral(buf: seq<byte>)
    requires buf != []
    ensures var (ret, n) := DecodeInt(buf); Numeral(buf[..n], ret, false)
  {
    Letters();
    var start := if buf[0] == MINUS then 1 else 0;
    var k := DigitRun(buf[start..]);
    var digits := buf[start..][..k];
    var t := buf[..start + k];
    DigitsValue(digits);
    hide DigitRun;
    hide IsDigit;
    hide NatValue;
    hide AddDigits;
    assert t[start..] == digits;
    assert t != [] ==> t[0] == buf[0];
    assert start == 0 && t != [] ==> IsDigit(t[0]) by {
      if start == 0 && t != [] {
        assert t[0] == digits[0];
      }
    }
    MinusIsNoDigit();
    assert t[0..] == t;
    if IsLong(Signed(NatValue(digits), start == 1)) {
      AddDigitsExact(digits, start == 1);
    }
  }

  lemma MinusIsNoDigit()
    ensures !IsDigit(MINUS) && !IsDigit(COLON) && !IsDigit(CH_E)
  {
  }

  /** A numeral that a long long holds is read as its number, whatever comes after its digits. */
  lemma NumeralDecodes(t: seq<byte>, n: int, rest: seq<byte>)
    requires Numeral(t, n, true) && rest != [] && !IsDigit(rest[0]) && rest[0] != MINUS
    ensures t + rest != [] && DecodeInt(t + rest) == (n, |t|)
  {
    Letters();
    hide IsDigit;
    hide DecodeInt;
    var buf := t + rest;
    var start := if t != [] && t[0] == MINUS then 1 else 0;
    var digits := t[start..];
    assert t[0..] == t;
    DigitsValue(digits);
    hide NatValue;
    hide Value;
    assert buf[start..] == digits + rest;
    assert buf[0] == if t == [] then rest[0] else t[0];
    DecodeDigits(buf, start, digits, rest);
  }

  // --- the parser is sound ------------------------------------------------------------------------------

  lemma StrIsSpelt(buf: seq<byte>)
    requires buf != [] && DecodeStr(buf).Some?
    ensures var (s, n) := DecodeStr(buf).value; SpellsStr(buf[..n], s, false)
  {
    Letters();
    IntIsNumeral(buf);
    hide DecodeInt;
    var (len, m) := DecodeInt(buf);
    var (s, n) := DecodeStr(buf).value;
    var t := buf[..n];
    assert t[m] == COLON && t[m + 1..] == s && t[..m] == buf[..m];
  }

  /** Whatever be_decode1 takes off a buffer is a bencoded form of the value it returns, and the value is within the
      nesting limit. */
  lemma {:induction false} DecodeIsSound(buf: seq<byte>, depth: nat)
    requires Decode(buf, depth).Some?
    ensures var (node, n) := Decode(buf, depth).value;
            Spells(buf[..n], node, false) && depth + Height(node) <= BE_MAX_DEPTH + 1
    decreases |buf|, 0
  {
    Letters();
    hide Numeral;
    hide SpellsStr;
    hide SpellsItems;
    hide SpellsEntries;
    hide DecodeInt;
    hide DecodeStr;
    hide DecodeItems;
    hide DecodeEntries;
    var (node, n) := Decode(buf, depth).value;
    var t := buf[..n];
    if buf[0] == CH_I {
      IntIsNumeral(buf[1..]);
      assert t[1..n - 1] == buf[1..][..n - 2];
    } else if IsDigit(buf[0]) {
      StrIsSpelt(buf);
      DigitIs(buf[0]);
    } else if buf[0] == CH_L {
      ItemsAreSound(buf[1..], depth);
      assert t[1..n - 1] == buf[1..][..n - 2] && t[n - 1] == buf[1..][n - 2];
    } else {
      EntriesAreSound(buf[1..], depth);
      assert t[1..n - 1] == buf[1..][..n - 2] && t[n - 1] == buf[1..][n - 2];
    }
  }

  lemma {:induction false} ItemsAreSound(buf: seq<byte>, depth: nat)
    requires buf != [] && DecodeItems(buf, depth).Some? && depth <= BE_MAX_DEPTH
    ensures var (items, n) := DecodeItems(buf, depth).value;
            && buf[n - 1] == CH_E && SpellsItems(buf[..n - 1], items, false)
            && depth + ItemsHeight(items) <= BE_MAX_DEPTH
    decreases |buf|, 1
  {
    hide Decode;
    hide Spells;
    hide Height;
    var (items, n) := DecodeItems(buf, depth).value;
    if buf[0] != CH_E {
      var (item, m) := Decode(buf, depth + 1).value;
      var (rest, l) := DecodeItems(buf[m..], depth).value;
      DecodeIsSound(buf, depth + 1);
      ItemsAreSound(buf[m..], depth);
      assert items == [item] + rest && n == m + l;
      hide DecodeItems;
      CutAt(buf, m, l);
      ItemsJoin(buf[..n - 1], m, item, rest);
    }
  }

  lemma CutAt(buf: seq<byte>, m: nat, l: nat)
    requires 0 < l && m + l <= |buf|
    ensures var t := buf[..m + l - 1];
            t[..m] == buf[..m] && t[m..] == buf[m..][..l - 1] && buf[m + l - 1] == buf[m..][l - 1]
  {
  }

  lemma ItemsJoin(t: seq<byte>, m: nat, item: Node, rest: seq<Node>)
    requires m <= |t| && Spells(t[..m], item, false) && SpellsItems(t[m..], rest, false)
    ensures SpellsItems(t, [item] + rest, false)
    ensures ItemsHeight([item] + rest) == Max(Height(item), ItemsHeight(rest))
  {
    hide Spells;
    hide Height;
    assert ([item] + rest)[1..] == rest;
  }

  lemma EntriesJoin(t: seq<byte>, m: nat, entry: Entry, rest: seq<Entry>)
    requires m <= |t| && SpellsEntry(t[..m], entry, false) && SpellsEntries(t[m..], rest, false)
    ensures SpellsEntries(t, [entry] + rest, false)
    ensures EntriesHeight([entry] + rest) == Max(Height(entry.val), EntriesHeight(rest))
  {
    hide SpellsEntry;
    hide Height;
    assert ([entry] + rest)[1..] == rest;
  }

  lemma {:induction false} EntriesAreSound(buf: seq<byte>, depth: nat)
    requires buf != [] && DecodeEntries(buf, depth).Some? && depth <= BE_MAX_DEPTH
    ensures var (entries, n) := DecodeEntries(buf, depth).value;
            && buf[n - 1] == CH_E && SpellsEntries(buf[..n - 1], entries, false)
            && depth + EntriesHeight(entries) <= BE_MAX_DEPTH
    decreases |buf|, 2
  {
    hide DecodeEntry;
    hide SpellsEntry;
    hide Height;
    var (entries, n) := DecodeEntries(buf, depth).value;
    if buf[0] != CH_E {
      var (entry, m) := DecodeEntry(buf, depth).value;
      var (rest, l) := DecodeEntries(buf[m..], depth).value;
      EntryIsSound(buf, depth);
      EntriesAreSound(buf[m..], depth);
      assert entries == [entry] + rest && n == m + l;
      hide DecodeEntries;
      CutAt(buf, m, l);
      EntriesJoin(buf[..n - 1], m, entry, rest);
    }
  }

  lemma {:induction false} EntryIsSound(buf: seq<byte>, depth: nat)
    requires buf != [] && DecodeEntry(buf, depth).Some?
    ensures var (entry, n) := DecodeEntry(buf, depth).value;
            SpellsEntry(buf[..n], entry, false) && depth + Height(entry.val) <= BE_MAX_DEPTH
    decreases |buf|, 1
  {
    hide Decode;
    hide DecodeStr;
    hide Spells;
    hide SpellsStr;
    hide Height;
    var (key, k) := DecodeStr(buf).value;
    var (val, m) := Decode(buf[k..], depth + 1).value;
    StrIsSpelt(buf);
    DecodeIsSound(buf[k..], depth + 1);
    var t := buf[..k + m];
    assert t[..k] == buf[..k] && t[k..] == buf[k..][..m];
  }

  // --- the parser is complete ---------------------------------------------------------------------------

  lemma StrDecodes(t: seq<byte>, s: seq<byte>, rest: seq<byte>)
    requires SpellsStr(t, s, true)
    ensures t != [] && t[0] != CH_E && DecodeStr(t + rest) == Some((s, |t|))
  {
    var k := |t| - |s| - 1;
    KeyHead(t, k, |s|);
    StrParts(t[..k], s, rest);
    hide Numeral;
    hide DecodeStr;
    Letters();
    assert t == t[..k] + [COLON] + s;
  }

  lemma StrParts(numeral: seq<byte>, s: seq<byte>, rest: seq<byte>)
    requires Numeral(numeral, |s|, true)
    ensures var t := numeral + [COLON] + s; DecodeStr(t + rest) == Some((s, |t|))
  {
    hide Numeral;
    hide DecodeStr;
    hide DecodeInt;
    hide IsDigit;
    MinusIsNoDigit();
    var t, tail := numeral + [COLON] + s, [COLON] + s + rest;
    NumeralDecodes(numeral, |s|, tail);
    assert t + rest == numeral + tail;
    assert (numeral + tail)[|numeral|..] == tail;
    DecodeStrAt(t + rest, |numeral|, s, rest);
  }

  lemma KeyHead(t: seq<byte>, k: nat, n: int)
    requires k < |t| && t[k] == Ascii(':') && Numeral(t[..k], n, true)
    ensures t[0] != CH_E
  {
    Letters();
    MinusIsNoDigit();
    if k > 0 {
      assert t[..k][0] == t[0];
      DigitIs(t[0]);
    }
  }

  lemma SpellsHead(t: seq<byte>, node: Node)
    requires Spells(t, node, true)
    ensures t != [] && t[0] != CH_E
  {
    Letters();
    hide SpellsItems;
    hide SpellsEntries;
    hide Numeral;
  }

  lemma NumDecodes(t: seq<byte>, n: int, rest: seq<byte>, depth: nat)
    requires Spells(t, Num(n), true) && depth <= BE_MAX_DEPTH
    ensures Decode(t + rest, depth) == Some((Num(n), |t|))
  {
    Letters();
    MinusIsNoDigit();
    hide IsDigit;
    hide DecodeInt;
    var inner := t[1..|t| - 1];
    NumeralDecodes(inner, n, [CH_E] + rest);
    assert (t + rest)[1..] == inner + ([CH_E] + rest);
    hide Numeral;
  }

  lemma StringDecodes(t: seq<byte>, s: seq<byte>, rest: seq<byte>, depth: nat)
    requires Spells(t, Str(s), true) && depth <= BE_MAX_DEPTH
    ensures Decode(t + rest, depth) == Some((Str(s), |t|))
  {
    Letters();
    StrDecodes(t, s, rest);
    DigitIs(t[0]);
    hide SpellsStr;
    hide DecodeStr;
  }

  /** A bencoded form of a value, whatever follows it, is taken whole and read as the value, up to the nesting limit;
      beyond it be_decode1 fails. */
  lemma {:induction false} DecodeIsComplete(t: seq<byte>, node: Node, rest: seq<byte>, depth: nat)
    requires Spells(t, node, true)
    ensures Decode(t + rest, depth)
         == if depth + Height(node) <= BE_MAX_DEPTH + 1 then Some((node, |t|)) else None
    decreases node, 1
  {
    hide Decode;
    hide DecodeItems;
    hide DecodeEntries;
    hide SpellsItems;
    hide SpellsEntries;
    hide SpellsStr;
    hide Numeral;
    hide Ascii;
    hide ItemsHeight;
    hide EntriesHeight;
    if depth > BE_MAX_DEPTH {
      TooDeep(t + rest, depth);
    } else {
      match node
      case Num(n) => NumDecodes(t, n, rest, depth);
      case Str(s) => StringDecodes(t, s, rest, depth);
      case List(items) =>
        var inner := t[1..|t| - 1];
        assert SpellsItems(inner, items, true);
        ListDecodes(t, rest, depth);
        hide Spells;
        ItemsDecode(inner, items, rest, depth);
      case Dict(entries) =>
        var inner := t[1..|t| - 1];
        assert SpellsEntries(inner, entries, true);
        DictDecodes(t, rest, depth);
        hide Spells;
        EntriesDecode(inner, entries, rest, depth);
    }
  }

  lemma TooDeep(buf: seq<byte>, depth: nat)
    requires depth > BE_MAX_DEPTH
    ensures Decode(buf, depth) == None
  {
  }

  lemma ListDecodes(t: seq<byte>, rest: seq<byte>, depth: nat)
    requires Enclosed(t, Ascii('l')) && depth <= BE_MAX_DEPTH
    ensures Decode(t + rest, depth) == match DecodeItems(t[1..|t| - 1] + ([CH_E] + rest), depth)
                                       case None => None
                                       case Some((items, n)) => Some((List(items), 1 + n))
  {
    Letters();
    hide DecodeItems;
    assert (t + rest)[1..] == t[1..|t| - 1] + ([CH_E] + rest);
  }

  lemma DictDecodes(t: seq<byte>, rest: seq<byte>, depth: nat)
    requires Enclosed(t, Ascii('d')) && depth <= BE_MAX_DEPTH
    ensures Decode(t + rest, depth) == match DecodeEntries(t[1..|t| - 1] + ([CH_E] + rest), depth)
                                       case None => None
                                       case Some((entries, n)) => Some((Dict(entries), 1 + n))
  {
    Letters();
    hide DecodeEntries;
    assert (t + rest)[1..] == t[1..|t| - 1] + ([CH_E] + rest);
  }

  lemma {:induction false} ItemsDecode(t: seq<byte>, items: seq<Node>, rest: seq<byte>, depth: nat)
    requires SpellsItems(t, items, true) && depth <= BE_MAX_DEPTH
    ensures DecodeItems(t + ([CH_E] + rest), depth)
         == if depth + ItemsHeight(items) <= BE_MAX_DEPTH then Some((items, |t| + 1)) else None
    decreases items, 0
  {
    hide Decode;
    hide Spells;
    hide Height;
    var tail := [CH_E] + rest;
    if items == [] {
      assert t + tail == tail;
    } else {
      hide DecodeItems;
      var k :| 0 <= k <= |t| && Spells(t[..k], items[0], true) && SpellsItems(t[k..], items[1..], true);
      SpellsHead(t[..k], items[0]);
      DecodeIsComplete(t[..k], items[0], t[k..] + tail, depth + 1);
      ItemsDecode(t[k..], items[1..], rest, depth);
      hide SpellsItems;
      Regroup(t, k, tail);
      ItemsStep(t[..k], t[k..] + tail, items[0], depth);
      assert [items[0]] + items[1..] == items;
    }
  }

  lemma Regroup(t: seq<byte>, k: nat, tail: seq<byte>)
    requires k <= |t|
    ensures t + tail == t[..k] + (t[k..] + tail)
  {
  }

  /** One turn of the loop over items. */
  lemma ItemsStep(first: seq<byte>, others: seq<byte>, item: Node, depth: nat)
    requires first != [] && first[0] != CH_E && others != []
    requires Decode(first + others, depth + 1) in {None, Some((item, |first|))}
    ensures DecodeItems(first + others, depth) ==
              if Decode(first + others, depth + 1) == None then None
              else
                match DecodeItems(others, depth)
                case None => None
                case Some((items, n)) => Some(([item] + items, |first| + n))
  {
    hide Decode;
    assert (first + others)[|first|..] == others;
  }

  lemma {:induction false} EntriesDecode(t: seq<byte>, entries: seq<Entry>, rest: seq<byte>, depth: nat)
    requires SpellsEntries(t, entries, true) && depth <= BE_MAX_DEPTH
    ensures DecodeEntries(t + ([CH_E] + rest), depth)
         == if depth + EntriesHeight(entries) <= BE_MAX_DEPTH then Some((entries, |t| + 1)) else None
    decreases entries, 0
  {
    hide DecodeEntry;
    hide SpellsEntry;
    hide Height;
    var tail := [CH_E] + rest;
    if entries == [] {
      assert t + tail == tail;
    } else {
      hide DecodeEntries;
      var k :| 0 <= k <= |t| && SpellsEntry(t[..k], entries[0], true) && SpellsEntries(t[k..], entries[1..], true);
      EntryDecodes(t[..k], entries[0], t[k..] + tail, depth);
      EntriesDecode(t[k..], entries[1..], rest, depth);
      hide SpellsEntries;
      Regroup(t, k, tail);
      EntriesStep(t[..k], t[k..] + tail, entries[0], depth);
      assert [entries[0]] + entries[1..] == entries;
    }
  }

  /** One turn of the loop over entries. */
  lemma EntriesStep(first: seq<byte>, others: seq<byte>, entry: Entry, depth: nat)
    requires first != [] && first[0] != CH_E && others != []
    requires DecodeEntry(first + others, depth) in {None, Some((entry, |first|))}
    ensures DecodeEntries(first + others, depth) ==
              if DecodeEntry(first + others, depth) == None then None
              else
                match DecodeEntries(others, depth)
                case None => None
                case Some((entries, n)) => Some(([entry] + entries, |first| + n))
  {
    hide DecodeEntry;
    assert (first + others)[|first|..] == others;
  }

  lemma {:induction false} EntryDecodes(t: seq<byte>, entry: Entry, rest: seq<byte>, depth: nat)
    requires SpellsEntry(t, entry, true)
    ensures t != [] && t[0] != CH_E
    ensures DecodeEntry(t + rest, depth)
         == if depth + Height(entry.val) <= BE_MAX_DEPTH then Some((entry, |t|)) else None
    decreases entry, 1
  {
    hide Decode;
    hide DecodeStr;
    hide DecodeEntry;
    hide Spells;
    hide Height;
    hide SpellsStr;
    var k :| 0 <= k <= |t| && SpellsStr(t[..k], entry.key, true) && Spells(t[k..], entry.val, true);
    StrDecodes(t[..k], entry.key, t[k..] + rest);
    hide SpellsEntry;
    assert t[..k][0] == t[0];
    DecodeIsComplete(t[k..], entry.val, rest, depth + 1);
    Regroup(t, k, rest);
    KeyThenValue(t[..k], t[k..] + rest, entry.key, depth);
  }

  lemma KeyThenValue(key: seq<byte>, after: seq<byte>, s: seq<byte>, depth: nat)
    requires key + after != [] && DecodeStr(key + after) == Some((s, |key|)) && key != []
    ensures (key + after)[0] == key[0]
    ensures var val := Decode(after, depth + 1);
            DecodeEntry(key + after, depth)
            == if val == None then None else Some((Entry(s, val.value.0), |key| + val.value.1))
  {
    hide Decode;
    hide DecodeStr;
    hide DecodeEntry;
    DecodeEntryAt(key + after, s, |key|, depth);
    assert (key + after)[|key|..] == after;
  }

  // --- the printer --------------------------------------------------------------------------------------

  lemma NatIsNumeral(n: nat)
    requires IsLong(n)
    ensures Numeral(NatText(n), n, true) && NatText(n) != [] && Ascii('0') <= NatText(n)[0] <= Ascii('9')
  {
    Letters();
    NatTextValue(n);
    DigitsValue(NatText(n));
    assert IsDigit(NatText(n)[0]);
    hide NatText;
  }

  lemma IntIsNumeralText(n: int)
    requires IsLong(n)
    ensures Numeral(IntText(n), n, true)
  {
    if n >= 0 {
      NatIsNumeral(n);
    } else {
      Letters();
      NatTextValue(-n);
      DigitsValue(NatText(-n));
      hide NatText;
      assert IntText(n)[1..] == NatText(-n);
    }
  }

  lemma StrTextSpells(s: seq<byte>)
    requires IsLong(|s|)
    ensures SpellsStr(StrText(s), s, true) && Ascii('0') <= StrText(s)[0] <= Ascii('9')
  {
    Letters();
    NatIsNumeral(|s|);
    hide NatText;
    hide Numeral;
    var t, k := StrText(s), |NatText(|s|)|;
    assert t[..k] == NatText(|s|) && t[k + 1..] == s;
  }

  /** What be_encode prints is a bencoded form of the value. */
  lemma {:induction false} TextSpells(node: Node)
    requires Valid(node)
    ensures Spells(Text(node), node, true)
    decreases node, 1
  {
    Letters();
    hide Numeral;
    hide SpellsStr;
    hide SpellsItems;
    hide SpellsEntries;
    var t := Text(node);
    match node
    case Num(n) =>
      IntIsNumeralText(n);
      assert t[1..|t| - 1] == IntText(n);
    case Str(s) =>
      StrTextSpells(s);
    case List(items) =>
      ItemsTextSpells(items);
      assert t[1..|t| - 1] == ItemsText(items);
    case Dict(entries) =>
      EntriesTextSpells(entries);
      assert t[1..|t| - 1] == EntriesText(entries);
  }

  lemma {:induction false} ItemsTextSpells(items: seq<Node>)
    requires forall i :: 0 <= i < |items| ==> Valid(items[i])
    ensures SpellsItems(ItemsText(items), items, true)
    decreases items, 0
  {
    hide Spells;
    hide Text;
    if items != [] {
      TextSpells(items[0]);
      ItemsTextSpells(items[1..]);
      var t, k := ItemsText(items), |Text(items[0])|;
      assert t[..k] == Text(items[0]) && t[k..] == ItemsText(items[1..]);
    }
  }

  lemma {:induction false} EntriesTextSpells(entries: seq<Entry>)
    requires forall i :: 0 <= i < |entries| ==> IsLong(|entries[i].key|) && Valid(entries[i].val)
    ensures SpellsEntries(EntriesText(entries), entries, true)
    decreases entries, 0
  {
    hide SpellsEntry;
    hide EntryText;
    if entries != [] {
      EntryTextSpells(entries[0]);
      EntriesTextSpells(entries[1..]);
      var t, k := EntriesText(entries), |EntryText(entries[0])|;
      assert t[..k] == EntryText(entries[0]) && t[k..] == EntriesText(entries[1..]);
    }
  }

  lemma {:induction false} EntryTextSpells(entry: Entry)
    requires IsLong(|entry.key|) && Valid(entry.val)
    ensures SpellsEntry(EntryText(entry), entry, true)
    decreases entry, 2
  {
    hide Spells;
    hide SpellsStr;
    hide Text;
    hide StrText;
    StrTextSpells(entry.key);
    TextSpells(entry.val);
    var t, k := EntryText(entry), |StrText(entry.key)|;
    assert t[..k] == StrText(entry.key) && t[k..] == Text(entry.val);
  }

  /** Decoding the text of a value, whatever follows it, gives the value back and takes exactly its text, as long as
      the nesting limit is not exceeded; beyond the limit it fails. */
  lemma DecodeText(node: Node, rest: seq<byte>, depth: nat)
    requires Valid(node)
    ensures Decode(Text(node) + rest, depth)
         == if depth + Height(node) <= BE_MAX_DEPTH + 1 then Some((node, |Text(node)|)) else None
  {
    TextSpells(node);
    DecodeIsComplete(Text(node), node, rest, depth);
  }
}

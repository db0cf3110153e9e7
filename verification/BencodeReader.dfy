/** The recursive parser of src/bencode/bencode.c as the source runs it: loops that eat a buffer, proved against the
    functions of Bencode. */
module BencodeReader {
  import opened Bytes
  import opened Options
  import opened Decimal
  import opened Bencode

  lemma AddDigitsSnoc(digits: seq<byte>, d: byte, negative: bool)
    requires AllDigits(digits) && IsDigit(d)
    ensures AllDigits(digits + [d])
    ensures AddDigits(digits + [d], negative) == AddDigit(AddDigits(digits, negative), DigitVal(d), negative)
  {
    hide AddDigit;
    assert (digits + [d])[..|digits|] == digits;
  }

  /** be_decode_int */
  method ParseInt(buf: seq<byte>) returns (ret: int, rx: nat)
    requires buf != []
    ensures (ret, rx) == DecodeInt(buf)
  {
    hide AddDigits;
    hide AddDigit;
    hide DigitRun;
    hide IsDigit;
    var negative := buf[0] == MINUS;
    ghost var start := if negative then 1 else 0;
    ghost var digits := buf[start..];
    var overflowed := false;
    ret := 0;
    rx := if negative then 1 else 0;
    assert AddDigits([], negative) == Acc(0, false) by { NoDigits(negative); }
    while rx < |buf|
      invariant start <= rx <= |buf|
      invariant AllDigits(digits[..rx - start])
      invariant Acc(ret, overflowed) == AddDigits(digits[..rx - start], negative)
    {
      ghost var k := rx - start;
      if !IsDigit(buf[rx]) {
        break;
      }
      AddDigitsSnoc(digits[..k], buf[rx], negative);
      assert digits[..k] + [buf[rx]] == digits[..k + 1];
      var acc := AddDigit(Acc(ret, overflowed), DigitVal(buf[rx]), negative);
      ret, overflowed := acc.ret, acc.overflowed;
      rx := rx + 1;
    }
    DigitRunIs(digits, rx - start);
  }

  lemma NoDigits(negative: bool)
    ensures AddDigits([], negative) == Acc(0, false)
  {
  }

  /** be_decode_str */
  method ParseStr(buf: seq<byte>) returns (r: Option<(seq<byte>, nat)>)
    requires buf != []
    ensures r == DecodeStr(buf)
  {
    hide DecodeInt;
    var len, n := ParseInt(buf);
    var rest := buf[n..];
    if rest == [] || len < 0 || len > |rest| - 1 || rest[0] != COLON {
      return None;
    }
    return Some((rest[1..1 + len], n + 1 + len));
  }

  /** What is read so far followed by the outcome of reading the rest. */
  function Continued<T>(items: seq<T>, n: nat, more: Option<(seq<T>, nat)>): Option<(seq<T>, nat)> {
    if more == None then None else Some((items + more.value.0, n + more.value.1))
  }

  lemma ContinuedTwice<T>(items: seq<T>, n: nat, item: T, m: nat, more: Option<(seq<T>, nat)>)
    ensures Continued(items, n, Continued([item], m, more)) == Continued(items + [item], n + m, more)
  {
    if more.Some? {
      assert items + ([item] + more.value.0) == items + [item] + more.value.0;
    }
  }

  lemma ContinuedEnds<T>(items: seq<T>, n: nat, more: Option<(seq<T>, nat)>)
    ensures Continued([], 0, more) == more
    ensures Continued(items, n, Some(([], 1))) == Some((items, n + 1))
  {
    assert items + [] == items;
    if more.Some? {
      assert [] + more.value.0 == more.value.0;
    }
  }

  lemma ItemsTurn(buf: seq<byte>, depth: nat)
    requires buf != [] && buf[0] != CH_E
    ensures DecodeItems(buf, depth) ==
              if Decode(buf, depth + 1) == None || Decode(buf, depth + 1).value.1 == |buf| then None
              else
                var (item, n) := Decode(buf, depth + 1).value;
                Continued([item], n, DecodeItems(buf[n..], depth))
  {
    hide Decode;
  }

  lemma EntriesTurn(buf: seq<byte>, depth: nat)
    requires buf != [] && buf[0] != CH_E
    ensures DecodeEntries(buf, depth) ==
              if DecodeEntry(buf, depth) == None || DecodeEntry(buf, depth).value.1 == |buf| then None
              else
                var (entry, n) := DecodeEntry(buf, depth).value;
                Continued([entry], n, DecodeEntries(buf[n..], depth))
  {
    hide DecodeEntry;
  }

  /** be_decode1 */
  method Parse(buf: seq<byte>, depth: nat) returns (r: Option<(Node, nat)>)
    ensures r == Decode(buf, depth)
    decreases |buf|, 0
  {
    hide DecodeInt;
    hide DecodeStr;
    hide DecodeItems;
    hide DecodeEntries;
    hide IsDigit;
    if depth > BE_MAX_DEPTH || buf == [] {
      return None;
    } else if buf[0] == CH_I {
      if |buf| == 1 {
        return None;
      }
      var num, n := ParseInt(buf[1..]);
      if 1 + n == |buf| || buf[1 + n] != CH_E {
        return None;
      }
      return Some((Num(num), n + 2));
    } else if IsDigit(buf[0]) {
      var str := ParseStr(buf);
      if str == None {
        return None;
      }
      return Some((Str(str.value.0), str.value.1));
    } else if buf[0] == CH_L {
      if |buf| == 1 {
        return None;
      }
      var items := ParseItems(buf[1..], depth);
      if items == None {
        return None;
      }
      return Some((List(items.value.0), 1 + items.value.1));
    } else if buf[0] == CH_D {
      if |buf| == 1 {
        return None;
      }
      var entries := ParseEntries(buf[1..], depth);
      if entries == None {
        return None;
      }
      return Some((Dict(entries.value.0), 1 + entries.value.1));
    } else {
      return None;
    }
  }

  /** The loop over the items of a list. */
  method ParseItems(buf: seq<byte>, depth: nat) returns (r: Option<(seq<Node>, nat)>)
    requires buf != []
    ensures r == DecodeItems(buf, depth)
    decreases |buf|, 1
  {
    hide Decode;
    hide DecodeItems;
    var rest, items, rx := buf, [], 0;
    ContinuedEnds(items, 0, DecodeItems(buf, depth));
    while rest[0] != CH_E
      invariant rest != [] && rx + |rest| == |buf|
      invariant DecodeItems(buf, depth) == Continued(items, rx, DecodeItems(rest, depth))
      decreases |rest|
    {
      ItemsTurn(rest, depth);
      var entry := Parse(rest, depth + 1);
      if entry == None || entry.value.1 == |rest| {
        return None;
      }
      var (item, n) := entry.value;
      ContinuedTwice(items, rx, item, n, DecodeItems(rest[n..], depth));
      rest, items, rx := rest[n..], items + [item], rx + n;
    }
    ItemsEnd(rest, depth);
    ContinuedEnds(items, rx, None);
    return Some((items, rx + 1));
  }

  lemma ItemsEnd(buf: seq<byte>, depth: nat)
    requires buf != [] && buf[0] == CH_E
    ensures DecodeItems(buf, depth) == Some(([], 1)) && DecodeEntries(buf, depth) == Some(([], 1))
  {
  }

  /** The loop over the entries of a dictionary. */
  method ParseEntries(buf: seq<byte>, depth: nat) returns (r: Option<(seq<Entry>, nat)>)
    requires buf != []
    ensures r == DecodeEntries(buf, depth)
    decreases |buf|, 1
  {
    hide Decode;
    hide DecodeStr;
    hide DecodeEntry;
    hide DecodeEntries;
    var rest, entries, rx := buf, [], 0;
    ContinuedEnds(entries, 0, DecodeEntries(buf, depth));
    while rest[0] != CH_E
      invariant rest != [] && rx + |rest| == |buf|
      invariant DecodeEntries(buf, depth) == Continued(entries, rx, DecodeEntries(rest, depth))
      decreases |rest|
    {
      EntriesTurn(rest, depth);
      var key := ParseStr(rest);
      if key == None {
        EntryNoKey(rest, depth);
        return None;
      }
      var k := key.value.1;
      DecodeEntryAt(rest, key.value.0, k, depth);
      var val := Parse(rest[k..], depth + 1);
      if val == None || k + val.value.1 == |rest| {
        return None;
      }
      var entry, n := Entry(key.value.0, val.value.0), k + val.value.1;
      ContinuedTwice(entries, rx, entry, n, DecodeEntries(rest[n..], depth));
      rest, entries, rx := rest[n..], entries + [entry], rx + n;
    }
    ItemsEnd(rest, depth);
    ContinuedEnds(entries, rx, None);
    return Some((entries, rx + 1));
  }

  lemma EntryNoKey(buf: seq<byte>, depth: nat)
    requires buf != [] && DecodeStr(buf) == None
    ensures DecodeEntry(buf, depth) == None
  {
    hide DecodeStr;
  }
}

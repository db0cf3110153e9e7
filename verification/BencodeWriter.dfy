/** be_encode (src/bencode/bencode.c): printing a value into the part of a buffer that the caller allows, or only
    measuring it. */
module BencodeWriter {
  import opened Bytes
  import opened Decimal
  import opened Bencode

  const TMPBUFLEN := 32

  // --- the longest number fits the temporary buffer ------------------------------------------------------

  function Pow10(k: nat): nat {
    if k == 0 then 1 else 10 * Pow10(k - 1)
  }

  lemma {:induction false} NatTextLength(n: nat, k: nat)
    requires n < Pow10(k) && k > 0
    ensures |NatText(n)| <= k
  {
    if n >= 10 {
      NatTextLength(n / 10, k - 1);
    }
  }

  /** A number printed with a letter or sign on each side and the terminating zero fits the temporary buffer. */
  lemma TmpBufFits(n: int)
    requires IsLong(n)
    ensures |IntText(n)| + 3 <= TMPBUFLEN
  {
    assert Pow10(5) == 100_000 && Pow10(10) == 10_000_000_000 && Pow10(15) == 1_000_000_000_000_000;
    NatTextLength(if n < 0 then -n else n, 19);
  }

  // --- what a call writes -------------------------------------------------------------------------------

  /** Nothing outside `off` .. `off + cap` has changed. */
  ghost predicate Outside(before: seq<byte>, after: seq<byte>, off: nat, cap: nat) {
    && |after| == |before|
    && off + cap <= |before|
    && after[..off] == before[..off]
    && after[off + cap..] == before[off + cap..]
  }

  ghost predicate Holds(out: seq<byte>, off: nat, text: seq<byte>) {
    off + |text| <= |out| && out[off..off + |text|] == text
  }

  /** A call that may use `cap` bytes at `off` fails exactly when the text is longer; otherwise it has put the text
      there and returns its length. */
  ghost predicate Wrote(before: seq<byte>, after: seq<byte>, off: nat, cap: nat, text: seq<byte>, r: int) {
    && Outside(before, after, off, cap)
    && r == (if |text| > cap then -1 else |text|)
    && (|text| <= cap ==> Holds(after, off, text))
  }

  lemma Compose(before: seq<byte>, mid: seq<byte>, after: seq<byte>, off: nat, cap: nat, done: seq<byte>,
                text: seq<byte>, r: int)
    requires Wrote(before, mid, off, cap, done, |done|)
    requires |done| <= cap && Wrote(mid, after, off + |done|, cap - |done|, text, r)
    ensures Wrote(before, after, off, cap, done + text, if r < 0 then -1 else |done| + r)
  {
    var pos := off + |done|;
    assert after[..pos][..off] == mid[..pos][..off];
    assert after[..off] == after[..pos][..off] && mid[..off] == mid[..pos][..off];
    if |text| <= cap - |done| {
      assert after[off..pos] == after[..pos][off..] == mid[..pos][off..] == mid[off..pos];
      assert after[off..pos + |text|] == after[off..pos] + after[pos..pos + |text|];
    }
  }

  lemma PutIs(out: seq<byte>, off: nat, cap: nat, b: byte)
    requires off + cap <= |out| && cap > 0
    ensures Wrote(out, out[off := b], off, cap, [b], 1)
  {
  }

  /** The outcome of a call in either mode: measuring, or writing to `out`. */
  ghost predicate Outcome(measuring: bool, before: seq<byte>, after: seq<byte>, off: nat, cap: nat, text: seq<byte>,
                          r: int) {
    if measuring then r == |text| else Wrote(before, after, off, cap, text, r)
  }

  /** Where the next piece goes once the text `done` has been written. */
  ghost predicate At(measuring: bool, off: nat, cap: nat, done: seq<byte>, pos: nat, left: nat) {
    !measuring ==> |done| <= cap && pos == off + |done| && left == cap - |done|
  }

  lemma Next(measuring: bool, before: seq<byte>, mid: seq<byte>, after: seq<byte>, off: nat, cap: nat, done: seq<byte>,
             pos: nat, left: nat, text: seq<byte>, r: int)
    requires At(measuring, off, cap, done, pos, left) && Outcome(measuring, before, mid, off, cap, done, |done|)
    requires Outcome(measuring, mid, after, pos, left, text, r)
    ensures Outcome(measuring, before, after, off, cap, done + text, if r < 0 then -1 else |done| + r)
    ensures r >= 0 ==> r == |text|
    ensures r >= 0 && !measuring ==> At(measuring, off, cap, done + text, pos + r, left - r)
  {
    if !measuring {
      Compose(before, mid, after, off, cap, done, text, r);
    }
  }

  /** Once a piece does not fit, the whole text does not fit either. */
  lemma Fails(measuring: bool, before: seq<byte>, after: seq<byte>, off: nat, cap: nat, done: seq<byte>,
              text: seq<byte>)
    requires Outcome(measuring, before, after, off, cap, done, -1)
    ensures Outcome(measuring, before, after, off, cap, done + text, -1)
  {
  }

  ghost function Contents(out: array?<byte>): seq<byte>
    reads if out == null then {} else {out}
  {
    if out == null then [] else out[..]
  }

  // --- the printer --------------------------------------------------------------------------------------

  /** memcpy */
  method Copy(text: seq<byte>, out: array<byte>, off: nat, cap: nat)
    requires off + cap <= out.Length && |text| <= cap
    modifies out
    ensures Wrote(old(out[..]), out[..], off, cap, text, |text|)
  {
    forall k | 0 <= k < |text| {
      out[off + k] := text[k];
    }
    assert out[off..off + |text|] == text;
    assert out[..off] == old(out[..off]);
    assert out[off + cap..] == old(out[off + cap..]);
  }

  /** be_encode_str */
  method EncodeStr(s: seq<byte>, out: array?<byte>, off: nat, cap: nat) returns (r: int)
    requires IsLong(|s|) && (out != null ==> off + cap <= out.Length)
    modifies if out == null then {} else {out}
    ensures Outcome(out == null, old(Contents(out)), Contents(out), off, cap, StrText(s), r)
  {
    hide NatText;
    TmpBufFits(|s|);
    var tmp := NatText(|s|) + [COLON];
    var sz := |tmp|;
    if out == null {
      return sz + |s|;
    }
    if sz + |s| > cap {
      return -1;
    }
    ghost var before := out[..];
    Copy(tmp, out, off, cap);
    ghost var mid := out[..];
    Copy(s, out, off + sz, cap - sz);
    Compose(before, mid, out[..], off, cap, tmp, s, |s|);
    return sz + |s|;
  }

  /** Writing one byte, in the mode that writes. */
  method Put(b: byte, out: array?<byte>, pos: nat, left: nat) returns (r: int)
    requires out != null ==> pos + left <= out.Length
    modifies if out == null then {} else {out}
    ensures Outcome(out == null, old(Contents(out)), Contents(out), pos, left, [b], r)
  {
    if out == null {
      return 1;
    }
    if left == 0 {
      return -1;
    }
    PutIs(out[..], pos, left, b);
    out[pos] := b;
    return 1;
  }

  lemma Starts(measuring: bool, before: seq<byte>, after: seq<byte>, off: nat, cap: nat, b: byte, r: int)
    requires Outcome(measuring, before, after, off, cap, [b], r) && (!measuring ==> cap > 0)
    ensures r == 1 && (!measuring ==> At(measuring, off, cap, [b], off + 1, cap - 1))
  {
  }

  lemma {:induction false} ItemsTextSplit(items: seq<Node>, i: nat)
    requires i <= |items|
    ensures ItemsText(items) == ItemsText(items[..i]) + ItemsText(items[i..])
  {
    hide Text;
    if i == 0 {
      assert items[0..] == items;
    } else {
      var rest := items[1..];
      ItemsTextSplit(rest, i - 1);
      assert items[..i][1..] == rest[..i - 1] && rest[i - 1..] == items[i..];
    }
  }

  lemma {:induction false} EntriesTextSplit(entries: seq<Entry>, i: nat)
    requires i <= |entries|
    ensures EntriesText(entries) == EntriesText(entries[..i]) + EntriesText(entries[i..])
  {
    hide EntryText;
    if i == 0 {
      assert entries[0..] == entries;
    } else {
      var rest := entries[1..];
      EntriesTextSplit(rest, i - 1);
      assert entries[..i][1..] == rest[..i - 1] && rest[i - 1..] == entries[i..];
    }
  }

  lemma Regroup(h: seq<byte>, a: seq<byte>, t: seq<byte>, b: seq<byte>, e: seq<byte>)
    ensures h + a + t + (b + e) == h + (a + t + b) + e && h + a + t == h + (a + t)
  {
  }

  lemma ItemsSnoc(items: seq<Node>, i: nat)
    requires i < |items|
    ensures ItemsText(items[..i + 1]) == ItemsText(items[..i]) + Text(items[i])
  {
    hide Text;
    var front := items[..i + 1];
    ItemsTextSplit(front, i);
    assert front[..i] == items[..i] && front[i..] == [items[i]];
    assert [items[i]][1..] == [];
    assert ItemsText([items[i]]) == Text(items[i]) + [];
  }

  /** The text of a list up to an item, that item, and the rest of the text. */
  lemma ItemsTurn(items: seq<Node>, i: nat, done: seq<byte>)
    requires i < |items| && done == [CH_L] + ItemsText(items[..i])
    ensures done + Text(items[i]) == [CH_L] + ItemsText(items[..i + 1])
    ensures done + Text(items[i]) + (ItemsText(items[i + 1..]) + [CH_E]) == [CH_L] + ItemsText(items) + [CH_E]
  {
    hide Text;
    hide ItemsText;
    ItemsTextSplit(items, i + 1);
    ItemsSnoc(items, i);
    Regroup([CH_L], ItemsText(items[..i]), Text(items[i]), ItemsText(items[i + 1..]), [CH_E]);
  }

  lemma EntriesSnoc(entries: seq<Entry>, i: nat)
    requires i < |entries|
    ensures EntriesText(entries[..i + 1]) == EntriesText(entries[..i]) + EntryText(entries[i])
  {
    hide EntryText;
    var front := entries[..i + 1];
    EntriesTextSplit(front, i);
    assert front[..i] == entries[..i] && front[i..] == [entries[i]];
    assert [entries[i]][1..] == [];
    assert EntriesText([entries[i]]) == EntryText(entries[i]) + [];
  }

  lemma EntriesTurn(entries: seq<Entry>, i: nat, done: seq<byte>)
    requires i < |entries| && done == [CH_D] + EntriesText(entries[..i])
    ensures done + EntryText(entries[i]) == [CH_D] + EntriesText(entries[..i + 1])
    ensures done + EntryText(entries[i]) + (EntriesText(entries[i + 1..]) + [CH_E]) ==
            [CH_D] + EntriesText(entries) + [CH_E]
  {
    hide EntryText;
    hide EntriesText;
    EntriesTextSplit(entries, i + 1);
    EntriesSnoc(entries, i);
    Regroup([CH_D], EntriesText(entries[..i]), EntryText(entries[i]), EntriesText(entries[i + 1..]), [CH_E]);
  }

  /** be_encode */
  method Encode(node: Node, out: array?<byte>, off: nat, cap: nat) returns (r: int)
    requires Valid(node) && (out != null ==> off + cap <= out.Length)
    modifies if out == null then {} else {out}
    ensures Outcome(out == null, old(Contents(out)), Contents(out), off, cap, Text(node), r)
    decreases node, 1
  {
    if out != null && cap == 0 {
      return -1;
    }
    match node
    case Num(n) =>
      TmpBufFits(n);
      hide IntText;
      var tmp := [CH_I] + IntText(n) + [CH_E];
      if out != null {
        if |tmp| > cap {
          return -1;
        }
        Copy(tmp, out, off, cap);
      }
      return |tmp|;
    case Str(s) =>
      r := EncodeStr(s, out, off, cap);
    case List(items) =>
      r := EncodeItems(items, out, off, cap);
    case Dict(entries) =>
      r := EncodeEntries(entries, out, off, cap);
  }

  /** The case of a list. */
  method EncodeItems(items: seq<Node>, out: array?<byte>, off: nat, cap: nat) returns (sz: int)
    requires (forall i :: 0 <= i < |items| ==> Valid(items[i])) && (out != null ==> off + cap <= out.Length && cap > 0)
    modifies if out == null then {} else {out}
    ensures Outcome(out == null, old(Contents(out)), Contents(out), off, cap, [CH_L] + ItemsText(items) + [CH_E], sz)
    decreases items, 0
  {
    hide Valid;
    hide Wrote;
    hide Text;
    ghost var measuring, before := out == null, Contents(out);
    ghost var done := [CH_L];
    sz := Put(CH_L, out, off, cap);
    Starts(measuring, before, Contents(out), off, cap, CH_L, sz);
    var pos: nat, left: nat := off, cap;
    if out != null {
      pos, left := pos + 1, left - 1;
    }
    var i := 0;
    while i < |items|
      invariant 0 <= i <= |items|
      invariant done == [CH_L] + ItemsText(items[..i]) && sz == |done|
      invariant At(measuring, off, cap, done, pos, left)
      invariant Outcome(measuring, before, Contents(out), off, cap, done, sz)
    {
      ghost var mid, text := Contents(out), Text(items[i]);
      var r := Encode(items[i], out, pos, left);
      Next(measuring, before, mid, Contents(out), off, cap, done, pos, left, text, r);
      ItemsTurn(items, i, done);
      if r < 0 {
        Fails(measuring, before, Contents(out), off, cap, done + text, ItemsText(items[i + 1..]) + [CH_E]);
        return -1;
      }
      if out != null {
        pos, left := pos + r, left - r;
      }
      sz, done := sz + r, done + text;
      i := i + 1;
    }
    ghost var mid := Contents(out);
    var r := Put(CH_E, out, pos, left);
    Next(measuring, before, mid, Contents(out), off, cap, done, pos, left, [CH_E], r);
    assert items[..i] == items;
    if r < 0 {
      return -1;
    }
    return sz + 1;
  }

  /** One turn of the loop over the entries of a dictionary. */
  method EncodeEntry(entry: Entry, out: array?<byte>, off: nat, cap: nat) returns (sz: int)
    requires IsLong(|entry.key|) && Valid(entry.val) && (out != null ==> off + cap <= out.Length)
    modifies if out == null then {} else {out}
    ensures Outcome(out == null, old(Contents(out)), Contents(out), off, cap, EntryText(entry), sz)
    decreases entry, 2
  {
    hide Valid;
    hide Text;
    hide StrText;
    ghost var measuring, before, key, val := out == null, Contents(out), StrText(entry.key), Text(entry.val);
    sz := EncodeStr(entry.key, out, off, cap);
    ghost var mid := Contents(out);
    if sz < 0 {
      Fails(measuring, before, mid, off, cap, key, val);
      return -1;
    }
    var pos: nat, left: nat := off, cap;
    if out != null {
      pos, left := pos + sz, left - sz;
    }
    var r := Encode(entry.val, out, pos, left);
    Next(measuring, before, mid, Contents(out), off, cap, key, pos, left, val, r);
    if r < 0 {
      return -1;
    }
    return sz + r;
  }

  /** The case of a dictionary. */
  method EncodeEntries(entries: seq<Entry>, out: array?<byte>, off: nat, cap: nat) returns (sz: int)
    requires forall i :: 0 <= i < |entries| ==> IsLong(|entries[i].key|) && Valid(entries[i].val)
    requires out != null ==> off + cap <= out.Length && cap > 0
    modifies if out == null then {} else {out}
    ensures Outcome(out == null, old(Contents(out)), Contents(out), off, cap,
                    [CH_D] + EntriesText(entries) + [CH_E], sz)
    decreases entries, 0
  {
    hide Valid;
    hide Wrote;
    hide EntryText;
    ghost var measuring, before := out == null, Contents(out);
    ghost var done := [CH_D];
    sz := Put(CH_D, out, off, cap);
    Starts(measuring, before, Contents(out), off, cap, CH_D, sz);
    var pos: nat, left: nat := off, cap;
    if out != null {
      pos, left := pos + 1, left - 1;
    }
    var i := 0;
    while i < |entries|
      invariant 0 <= i <= |entries|
      invariant done == [CH_D] + EntriesText(entries[..i]) && sz == |done|
      invariant At(measuring, off, cap, done, pos, left)
      invariant Outcome(measuring, before, Contents(out), off, cap, done, sz)
    {
      ghost var mid, text := Contents(out), EntryText(entries[i]);
      var r := EncodeEntry(entries[i], out, pos, left);
      Next(measuring, before, mid, Contents(out), off, cap, done, pos, left, text, r);
      EntriesTurn(entries, i, done);
      if r < 0 {
        Fails(measuring, before, Contents(out), off, cap, done + text, EntriesText(entries[i + 1..]) + [CH_E]);
        return -1;
      }
      if out != null {
        pos, left := pos + r, left - r;
      }
      sz, done := sz + r, done + text;
      i := i + 1;
    }
    ghost var mid := Contents(out);
    var r := Put(CH_E, out, pos, left);
    Next(measuring, before, mid, Contents(out), off, cap, done, pos, left, [CH_E], r);
    assert entries[..i] == entries;
    if r < 0 {
      return -1;
    }
    return sz + 1;
  }
}

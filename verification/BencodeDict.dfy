/** Dictionaries of bencoded values (src/bencode/bencode.c): lookup by a C string, and adding at the end. */
module BencodeDict {
  import opened Bytes
  import opened Options
  import opened Bencode

  /** What the string functions of C see of a buffer: everything before its first zero byte. */
  function CStr(s: seq<byte>): seq<byte> {
    if s == [] || s[0] == 0 then [] else [s[0]] + CStr(s[1..])
  }

  lemma {:induction false} CStrIs(s: seq<byte>)
    requires NoZero(s)
    ensures CStr(s) == s
  {
    if s != [] {
      CStrIs(s[1..]);
    }
  }

  /** The value of the first entry whose key reads as the given C string. */
  function LookupIn(entries: seq<Entry>, key: seq<byte>): Option<Node> {
    if entries == [] then None
    else if CStr(entries[0].key) == key then Some(entries[0].val)
    else LookupIn(entries[1..], key)
  }

  function Lookup(node: Node, key: seq<byte>): Option<Node> {
    if node.Dict? then LookupIn(node.entries, key) else None
  }

  /** be_dict_lookup_num */
  function LookupNum(node: Node, key: seq<byte>): int {
    var val := Lookup(node, key);
    if val.Some? && val.value.Num? then val.value.num else -1
  }

  /** be_dict_add */
  function DictAdd(node: Node, key: seq<byte>, val: Node): Node
    requires node.Dict?
  {
    Dict(node.entries + [Entry(key, val)])
  }

  /** An added entry is found by its key unless an earlier entry has that key; every other lookup is as before. */
  lemma {:induction false} LookupAdded(entries: seq<Entry>, key: seq<byte>, val: Node, sought: seq<byte>)
    requires NoZero(key)
    ensures LookupIn(entries + [Entry(key, val)], sought)
         == if LookupIn(entries, sought).Some? then LookupIn(entries, sought)
            else if sought == key then Some(val) else None
  {
    hide CStr;
    var more := entries + [Entry(key, val)];
    if entries == [] {
      CStrIs(key);
      assert more[1..] == [];
    } else {
      LookupAdded(entries[1..], key, val, sought);
      assert more[1..] == entries[1..] + [Entry(key, val)];
    }
  }

  /** strcmp on a key with its terminating zero. */
  method SameCStr(key: seq<byte>, buf: seq<byte>) returns (same: bool)
    requires NoZero(key)
    ensures same <==> CStr(buf) == key
  {
    var i := 0;
    assert buf[0..] == buf && key[0..] == key;
    while i < |buf| && buf[i] != 0 && i < |key| && buf[i] == key[i]
      invariant i <= |buf| && i <= |key|
      invariant CStr(buf) == key <==> CStr(buf[i..]) == key[i..]
    {
      CStrStep(buf[i..], key[i..]);
      assert buf[i..][1..] == buf[i + 1..] && key[i..][1..] == key[i + 1..];
      i := i + 1;
    }
    CStrEnds(buf[i..], key[i..]);
    same := i == |key| && (i == |buf| || buf[i] == 0);
  }

  lemma CStrStep(s: seq<byte>, t: seq<byte>)
    requires s != [] && t != [] && s[0] == t[0] != 0
    ensures CStr(s) == t <==> CStr(s[1..]) == t[1..]
  {
    assert t == [t[0]] + t[1..];
    assert ([s[0]] + CStr(s[1..]))[1..] == CStr(s[1..]);
  }

  lemma CStrEnds(s: seq<byte>, t: seq<byte>)
    requires NoZero(t) && (s == [] || s[0] == 0 || t == [] || s[0] != t[0])
    ensures CStr(s) == t <==> t == [] && (s == [] || s[0] == 0)
  {
  }

  /** be_dict_lookup */
  method Find(node: Node, key: seq<byte>) returns (val: Option<Node>)
    requires NoZero(key)
    ensures val == Lookup(node, key)
  {
    hide CStr;
    if !node.Dict? {
      return None;
    }
    var i := 0;
    assert node.entries[0..] == node.entries;
    while i < |node.entries|
      invariant 0 <= i <= |node.entries|
      invariant LookupIn(node.entries, key) == LookupIn(node.entries[i..], key)
    {
      var same := SameCStr(key, node.entries[i].key);
      if same {
        return Some(node.entries[i].val);
      }
      assert node.entries[i..][1..] == node.entries[i + 1..];
      i := i + 1;
    }
    return None;
  }
}

/** The SHA-1 definition of RFC 3174, section 6.1 ("Method 1"), over words of 32 bits. */
module Sha1Spec {
  import opened Bytes

  type word = bv32

  datatype Regs = Regs(a: word, b: word, c: word, d: word, e: word)

  const H0 := Regs(0x67452301, 0xEFCDAB89, 0x98BADCFE, 0x10325476, 0xC3D2E1F0)

  function Rol1(x: word): word { (x << 1) | (x >> 31) }
  function Rol5(x: word): word { (x << 5) | (x >> 27) }
  function Rol30(x: word): word { (x << 30) | (x >> 2) }

  /** The word whose octets, most significant first, are b0 to b3. */
  function WordBE(b0: byte, b1: byte, b2: byte, b3: byte): word {
    ((b0 as word) << 24) | ((b1 as word) << 16) | ((b2 as word) << 8) | (b3 as word)
  }

  function WordBytes(w: word): (s: seq<byte>)
    ensures |s| == 4
  {
    [((w >> 24) & 0xFF) as byte, ((w >> 16) & 0xFF) as byte, ((w >> 8) & 0xFF) as byte, (w & 0xFF) as byte]
  }

  function Choose(b: word, c: word, d: word): word { (b & c) | ((!b) & d) }
  function Parity(b: word, c: word, d: word): word { b ^ c ^ d }
  function Majority(b: word, c: word, d: word): word { (b & c) | (b & d) | (c & d) }

  /** The logical functions f(t) and the constants K(t) of section 5. */
  function F(t: nat, b: word, c: word, d: word): word {
    if t < 20 then Choose(b, c, d)
    else if t < 40 then Parity(b, c, d)
    else if t < 60 then Majority(b, c, d)
    else Parity(b, c, d)
  }

  function K(t: nat): word {
    if t < 20 then 0x5A827999 else if t < 40 then 0x6ED9EBA1 else if t < 60 then 0x8F1BBCDC else 0xCA62C1D6
  }

  /** The word sequence W(t) of steps (a) and (b). */
  function W(block: seq<byte>, t: nat): word
    requires |block| == 64
  {
    if t < 16 then WordBE(block[4 * t], block[4 * t + 1], block[4 * t + 2], block[4 * t + 3])
    else Mix(W(block, t - 3), W(block, t - 8), W(block, t - 14), W(block, t - 16))
  }

  function Mix(w3: word, w8: word, w14: word, w16: word): word { Rol1(w3 ^ w8 ^ w14 ^ w16) }

  function Sum(x: word, f: word, e: word, w: word, k: word): word { x + f + e + w + k }

  /** One turn of step (d). */
  function Turn(r: Regs, t: nat, w: word): Regs {
    Regs(Sum(Rol5(r.a), F(t, r.b, r.c, r.d), r.e, w, K(t)), r.a, Rol30(r.b), r.c, r.d)
  }

  function Turns(r: Regs, block: seq<byte>, t: nat): Regs
    requires |block| == 64
  {
    if t == 0 then r else Turn(Turns(r, block, t - 1), t - 1, W(block, t - 1))
  }

  function Add(x: word, y: word): word { x + y }

  /** Steps (c) to (e) for one block. */
  function Compress(h: Regs, block: seq<byte>): Regs
    requires |block| == 64
  {
    var r := Turns(h, block, 80);
    Regs(Add(h.a, r.a), Add(h.b, r.b), Add(h.c, r.c), Add(h.d, r.d), Add(h.e, r.e))
  }

  /** The state after the first `q` blocks of a message. */
  function Fold(h: Regs, message: seq<byte>, q: nat): Regs
    requires 64 * q <= |message|
  {
    if q == 0 then h else Compress(Fold(h, message, q - 1), message[64 * (q - 1)..64 * q])
  }

  /** Section 4: a one bit, zeros up to 56 modulo 64 octets, and the length in bits as two words. */
  function Zeros(n: nat): (k: nat)
    ensures k < 64 && (n + 1 + k) % 64 == 56
  {
    (119 - n % 64) % 64
  }

  function LengthField(n: nat): (s: seq<byte>)
    ensures |s| == 8
  {
    ToBE32(8 * n / TWO_32 % TWO_32) + ToBE32(8 * n % TWO_32)
  }

  function Trailer(n: nat): (s: seq<byte>)
    ensures |s| == 9 + Zeros(n)
  {
    [0x80] + seq(Zeros(n), _ => 0) + LengthField(n)
  }

  function Pad(message: seq<byte>): (padded: seq<byte>) {
    message + Trailer(|message|)
  }

  function RegBytes(r: Regs): (s: seq<byte>)
    ensures |s| == 20
  {
    WordBytes(r.a) + WordBytes(r.b) + WordBytes(r.c) + WordBytes(r.d) + WordBytes(r.e)
  }

  function Digest(message: seq<byte>): (s: seq<byte>)
    ensures |s| == 20
  {
    RegBytes(Fold(H0, Pad(message), |Pad(message)| / 64))
  }

  /** Padding fills the last block. */
  lemma PadWhole(message: seq<byte>)
    ensures |Pad(message)| % 64 == 0
  {
    ZerosFill(|message|);
  }

  lemma ZerosFill(n: nat)
    ensures (n + 9 + Zeros(n)) % 64 == 0
  {
  }

  lemma {:induction false} FoldPrefix(h: Regs, message: seq<byte>, more: seq<byte>, q: nat)
    requires 64 * q <= |message|
    ensures Fold(h, message + more, q) == Fold(h, message, q)
  {
    hide Compress;
    if q > 0 {
      FoldPrefix(h, message, more, q - 1);
      assert (message + more)[64 * (q - 1)..64 * q] == message[64 * (q - 1)..64 * q];
    }
  }
}

/** src/sha1/sha1.c: the streaming implementation. */
module Sha1 {
  import opened Bytes
  import Slices
  import Geometry
  import opened Sha1Spec

  /** A word as a little-endian machine loads it from the block. */
  function LoadLE(block: seq<byte>, i: nat): word
    requires |block| == 64 && i < 16
  {
    ((block[4 * i + 3] as word) << 24) | ((block[4 * i + 2] as word) << 16)
    | ((block[4 * i + 1] as word) << 8) | (block[4 * i] as word)
  }

  /** blk0: swaps the bytes of a loaded word. */
  function Swap(l: word): word {
    (((l << 24) | (l >> 8)) & 0xFF00FF00) | (((l << 8) | (l >> 24)) & 0x00FF00FF)
  }

  /** The swap turns the loaded word into W(i). */
  lemma SwapWord(b0: byte, b1: byte, b2: byte, b3: byte, l: word)
    requires l == ((b3 as word) << 24) | ((b2 as word) << 16) | ((b1 as word) << 8) | (b0 as word)
    ensures Swap(l) == WordBE(b0, b1, b2, b3)
  {
  }

  /** The choice and majority forms of the R0, R1 and R3 macros. */
  function MacroChoose(w: word, x: word, y: word): word { (w & (x ^ y)) ^ y }
  function MacroMajority(w: word, x: word, y: word): word { ((w | x) & y) | (w & x) }

  function MacroF(t: nat, w: word, x: word, y: word): word {
    if t < 20 then MacroChoose(w, x, y)
    else if t < 40 then Parity(w, x, y)
    else if t < 60 then MacroMajority(w, x, y)
    else Parity(w, x, y)
  }

  lemma ChooseForms(w: word, x: word, y: word)
    ensures (w & (x ^ y)) ^ y == (w & x) | ((!w) & y)
  {
  }

  lemma MajorityForms(w: word, x: word, y: word)
    ensures ((w | x) & y) | (w & x) == (w & x) | (w & y) | (x & y)
  {
  }

  lemma ChooseSame(w: word, x: word, y: word)
    ensures MacroChoose(w, x, y) == Choose(w, x, y)
  {
    ChooseForms(w, x, y);
  }

  lemma MajoritySame(w: word, x: word, y: word)
    ensures MacroMajority(w, x, y) == Majority(w, x, y)
  {
    MajorityForms(w, x, y);
  }

  lemma MacroFIsF(t: nat, w: word, x: word, y: word)
    ensures MacroF(t, w, x, y) == F(t, w, x, y)
  {
    hide MacroChoose;
    hide MacroMajority;
    hide Choose;
    hide Majority;
    hide Parity;
    ChooseSame(w, x, y);
    MajoritySame(w, x, y);
  }

  lemma SumOrder(z: word, f: word, w: word, k: word, x: word)
    ensures z + f + w + k + x == Sum(x, f, z, w, k)
  {
  }

  /** The last index below `t` that is congruent to `j` modulo 16. */
  function Latest(t: nat, j: nat): (s: nat)
    requires j < 16 && j < t
    ensures s < t && s % 16 == j && t - s <= 16
  {
    t - 1 - (t - 1 - j) % 16
  }

  /** What slot `j` holds before round `t`: the newest W of its residue class, or still the loaded word. */
  ghost function Slot(block: seq<byte>, t: nat, j: nat): word
    requires |block| == 64 && j < 16
  {
    if j < t then W(block, Latest(t, j)) else LoadLE(block, j)
  }

  ghost predicate Scheduled(l: seq<word>, block: seq<byte>, t: nat)
    requires |block| == 64
  {
    |l| == 16 && forall j :: 0 <= j < 16 ==> l[j] == Slot(block, t, j)
  }

  lemma LatestIs(t: nat, s: nat)
    requires s < t <= s + 16
    ensures s % 16 < t && Latest(t, s % 16) == s
  {
  }

  lemma SlotIs(block: seq<byte>, t: nat, s: nat)
    requires |block| == 64 && s < t <= s + 16
    ensures Slot(block, t, s % 16) == W(block, s)
  {
    LatestIs(t, s);
  }

  lemma SlotNext(block: seq<byte>, t: nat, j: nat)
    requires |block| == 64 && j < 16
    ensures Slot(block, t + 1, j) == if j == t % 16 then W(block, t) else Slot(block, t, j)
  {
    if j == t % 16 {
      LatestIs(t + 1, t);
    } else if j < t {
      LatestIs(t + 1, Latest(t, j));
    }
  }

  lemma ScheduledNext(l: seq<word>, block: seq<byte>, t: nat)
    requires |block| == 64 && Scheduled(l, block, t)
    ensures Scheduled(l[t % 16 := W(block, t)], block, t + 1)
  {
    var l' := l[t % 16 := W(block, t)];
    forall j | 0 <= j < 16
      ensures l'[j] == Slot(block, t + 1, j)
    {
      SlotNext(block, t, j);
    }
  }

  lemma LoadedWord(block: seq<byte>, t: nat)
    requires |block| == 64 && t < 16
    ensures Swap(Slot(block, t, t)) == W(block, t)
  {
    SwapWord(block[4 * t], block[4 * t + 1], block[4 * t + 2], block[4 * t + 3], LoadLE(block, t));
  }

  lemma MixedWord(block: seq<byte>, t: nat)
    requires |block| == 64 && t >= 16
    ensures Mix(Slot(block, t, (t + 13) % 16), Slot(block, t, (t + 8) % 16),
                Slot(block, t, (t + 2) % 16), Slot(block, t, t % 16))
         == W(block, t)
  {
    hide Slot;
    Shifts(t);
    SlotIs(block, t, t - 3);
    SlotIs(block, t, t - 8);
    SlotIs(block, t, t - 14);
    SlotIs(block, t, t - 16);
  }

  lemma Shifts(t: nat)
    requires t >= 16
    ensures (t + 13) % 16 == (t - 3) % 16 && (t + 8) % 16 == (t - 8) % 16
    ensures (t + 2) % 16 == (t - 14) % 16 && t % 16 == (t - 16) % 16
  {
    Around(t - 3);
    Around(t - 8);
    Around(t - 14);
    Around(t - 16);
  }

  lemma Around(x: nat)
    ensures (x + 16) % 16 == x % 16
  {
    Geometry.DivUnique(x + 16, 16, x / 16 + 1, x % 16);
  }

  /** blk0 and blk: the word for round `t`, stored over the slot that is no longer needed. */
  method Blk(l: array<word>, ghost block: seq<byte>, t: nat) returns (w: word)
    requires l.Length == 16 && |block| == 64 && Scheduled(l[..], block, t)
    modifies l
    ensures w == W(block, t) && Scheduled(l[..], block, t + 1)
  {
    ghost var before := l[..];
    if t < 16 {
      w := Swap(l[t]);
      LoadedWord(block, t);
    } else {
      w := Mix(l[(t + 13) % 16], l[(t + 8) % 16], l[(t + 2) % 16], l[t % 16]);
      MixedWord(block, t);
    }
    l[t % 16] := w;
    ScheduledNext(before, block, t);
    assert l[..] == before[t % 16 := w];
  }

  /** A round macro R0 to R4: it updates `z` and `w` and leaves the other registers where they are. */
  method Round(l: array<word>, ghost block: seq<byte>, v: word, w: word, x: word, y: word, z: word, t: nat)
    returns (z': word, w': word)
    requires l.Length == 16 && |block| == 64 && Scheduled(l[..], block, t)
    modifies l
    ensures Regs(z', v, w', x, y) == Turn(Regs(v, w, x, y, z), t, W(block, t))
    ensures Scheduled(l[..], block, t + 1)
  {
    var wt := Blk(l, block, t);
    var f, k, x5 := MacroF(t, w, x, y), K(t), Rol5(v);
    z' := z + f + wt + k + x5;
    SumOrder(z, f, wt, k, x5);
    w' := Rol30(w);
    MacroFIsF(t, w, x, y);
  }

  /** memcpy(block, buffer, 64) on a little-endian machine. */
  method Load(block: seq<byte>) returns (l: array<word>)
    requires |block| == 64
    ensures fresh(l) && l.Length == 16 && Scheduled(l[..], block, 0)
  {
    l := new word[16](i requires 0 <= i < 16 => LoadLE(block, i));
  }

  /** SHA1Transform: rounds on renamed registers over a 16-word block refine the 80-word definition. The 80 macro
      lines of the source repeat the same five register renamings; each turn of the loop is one repetition. */
  method Transform(state: array<word>, block: seq<byte>)
    requires state.Length == 5 && |block| == 64
    modifies state
    ensures RegsOf(state[..]) == Compress(old(RegsOf(state[..])), block)
  {
    hide Scheduled;
    hide Turn;
    hide W;
    hide Add;
    var l := Load(block);
    var a, b, c, d, e := state[0], state[1], state[2], state[3], state[4];
    ghost var h := Regs(a, b, c, d, e);
    var t := 0;
    while t < 80
      invariant 0 <= t <= 80 && t % 5 == 0
      invariant state[..] == old(state[..])
      invariant Scheduled(l[..], block, t)
      invariant Regs(a, b, c, d, e) == Turns(h, block, t)
    {
      e, b := Round(l, block, a, b, c, d, e, t);
      assert Regs(e, a, b, c, d) == Turns(h, block, t + 1);
      d, a := Round(l, block, e, a, b, c, d, t + 1);
      assert Regs(d, e, a, b, c) == Turns(h, block, t + 2);
      c, e := Round(l, block, d, e, a, b, c, t + 2);
      assert Regs(c, d, e, a, b) == Turns(h, block, t + 3);
      b, d := Round(l, block, c, d, e, a, b, t + 3);
      assert Regs(b, c, d, e, a) == Turns(h, block, t + 4);
      a, c := Round(l, block, b, c, d, e, a, t + 4);
      t := t + 5;
    }
    state[0] := Add(state[0], a);
    state[1] := Add(state[1], b);
    state[2] := Add(state[2], c);
    state[3] := Add(state[3], d);
    state[4] := Add(state[4], e);
  }

  ghost function RegsOf(s: seq<word>): Regs
    requires |s| == 5
  {
    Regs(s[0], s[1], s[2], s[3], s[4])
  }

  /** The pair of 32-bit counters after `n` octets: their number of bits, modulo 2^64. */
  function Low(n: nat): nat { 8 * n % TWO_32 }
  function High(n: nat): nat { 8 * n / TWO_32 % TWO_32 }

  /** count[0] += len << 3, and count[1] with the carry and the bits that the shift lost, in 32-bit arithmetic. */
  function LowSum(c: nat, len: nat): nat { (c + 8 * len % TWO_32) % TWO_32 }
  function HighSum(c: nat, carry: bool, len: nat): nat {
    ((if carry then (c + 1) % TWO_32 else c) + len / 0x2000_0000) % TWO_32
  }

  /** The two counters together add 8 * len modulo 2^64. */
  lemma CountersAdd(n: nat, len: nat)
    requires len < TWO_32
    ensures LowSum(Low(n), len) == Low(n + len)
    ensures HighSum(High(n), LowSum(Low(n), len) < Low(n), len) == High(n + len)
  {
    var q, r := 8 * n / TWO_32, 8 * n % TWO_32;
    var p, s := 8 * len / TWO_32, 8 * len % TWO_32;
    assert p == len / 0x2000_0000;
    var carry := if r + s >= TWO_32 then 1 else 0;
    assert 8 * (n + len) == (q + p + carry) * TWO_32 + (r + s - carry * TWO_32);
    DivModUnique(8 * (n + len), q + p + carry, r + s - carry * TWO_32);
    DivModUnique(r + s, carry, r + s - carry * TWO_32);
    ModSum(q, carry, p);
  }

  lemma DivModUnique(x: int, q: int, r: int)
    requires x == q * TWO_32 + r && 0 <= r < TWO_32
    ensures x / TWO_32 == q && x % TWO_32 == r
  {
  }

  lemma ModSum(q: int, c: int, p: int)
    ensures ((q % TWO_32 + c) % TWO_32 + p) % TWO_32 == (q + p + c) % TWO_32
  {
  }

  /** SHA1_CTX. */
  class Context {
    const state: array<word>
    var count0: nat
    var count1: nat
    const buffer: array<byte>

    ghost predicate Valid() {
      state.Length == 5 && buffer.Length == 64
    }

    /** The context has absorbed exactly `message` since SHA1Init. */
    ghost predicate Holds(message: seq<byte>)
      requires Valid()
      reads this, state, buffer
    {
      && count0 == Low(|message|) && count1 == High(|message|)
      && HoldsBlocks(message, |message| / 64)
    }

    /** The first `q` blocks are folded into the state and the rest of the message is buffered. */
    ghost predicate HoldsBlocks(message: seq<byte>, q: nat)
      requires Valid()
      reads state, buffer
    {
      && 64 * q <= |message| < 64 * q + 64
      && RegsOf(state[..]) == Fold(H0, message, q)
      && buffer[..|message| - 64 * q] == message[64 * q..]
    }

    constructor ()
      ensures Valid() && fresh(state) && fresh(buffer)
    {
      state := new word[5];
      buffer := new byte[64];
      count0, count1 := 0, 0;
    }

    method Init()
      requires Valid()
      modifies this, state
      ensures Holds([])
    {
      state[0] := 0x67452301;
      state[1] := 0xEFCDAB89;
      state[2] := 0x98BADCFE;
      state[3] := 0x10325476;
      state[4] := 0xC3D2E1F0;
      count0, count1 := 0, 0;
    }

    /** The counter arithmetic at the head of SHA1Update. */
    method Count(ghost n: nat, len: nat)
      requires len < TWO_32 && count0 == Low(n) && count1 == High(n)
      modifies this
      ensures count0 == Low(n + len) && count1 == High(n + len)
    {
      CountersAdd(n, len);
      var j := count0;
      count0 := LowSum(count0, len);
      count1 := HighSum(count1, count0 < j, len);
    }

    /** memcpy(&buffer[j], data, |data|). */
    method Fill(j: nat, data: seq<byte>)
      requires Valid() && j + |data| <= 64
      modifies buffer
      ensures buffer[..] == old(buffer[..j]) + data + old(buffer[j + |data|..])
    {
      for k := 0 to |data|
        invariant buffer[..] == old(buffer[..j]) + data[..k] + old(buffer[j + k..])
      {
        buffer[j + k] := data[k];
      }
    }

    /** SHA1Update absorbs its data after everything before it, wherever the block boundaries fall.
        The length is a uint32_t, and j + len must not wrap. */
    method Update(data: seq<byte>, ghost message: seq<byte>)
      requires Valid() && Holds(message) && |data| <= TWO_32 - 64
      modifies this, state, buffer
      ensures Holds(message + data)
    {
      hide Fold;
      hide Low;
      hide High;
      ghost var q := |message| / 64;
      BufferedLength(|message|);
      var j := count0 / 8 % 64;
      Count(|message|, |data|);
      var i := 0;
      if j + |data| > 63 {
        i, q := UpdateBlocks(data, j, message, q);
        j := 0;
      }
      FoldPrefix(H0, message, data, |message| / 64);
      Keep(j, data, i, message, q);
      BlockCount(|message + data|, q);
    }

    /** The end of SHA1Update: what does not fill a block stays in the buffer. */
    method Keep(j: nat, data: seq<byte>, i: nat, ghost message: seq<byte>, ghost q: nat)
      requires Valid() && i <= |data| && j + |data| - i <= 63 && 64 * q + j + |data| - i == |message| + |data|
      requires || (i == 0 && 64 * q <= |message| && buffer[..j] == message[64 * q..])
               || (j == 0 && 64 * q == |message| + i)
      requires RegsOf(state[..]) == Fold(H0, message + data, q)
      modifies buffer
      ensures HoldsBlocks(message + data, q)
    {
      hide Fold;
      ghost var tail := buffer[..j];
      assert j == 0 ==> tail == [];
      Fill(j, data[i..]);
      UpdateTail(message, data, i, q, tail);
      assert buffer[..j + |data| - i] == tail + data[i..];
    }

    /** What is left in the buffer: the tail of the message and all of the data, or the end of the data. */
    static lemma UpdateTail(message: seq<byte>, data: seq<byte>, i: nat, q: nat, tail: seq<byte>)
      requires i <= |data|
      requires (i == 0 && 64 * q <= |message| && tail == message[64 * q..]) || (tail == [] && 64 * q == |message| + i)
      ensures (message + data)[64 * q..] == tail + data[i..]
    {
      if 64 * q <= |message| {
        Slices.Across(message, data, 64 * q, |data|);
      } else {
        Slices.InTail(message, data, i, |data|);
      }
    }

    static lemma BlockCount(n: nat, q: nat)
      requires 64 * q <= n < 64 * q + 64
      ensures n / 64 == q
    {
    }

    /** The branch of SHA1Update that completes the buffered block and runs through the whole blocks after it. */
    method UpdateBlocks(data: seq<byte>, j: nat, ghost message: seq<byte>, ghost q: nat) returns (i: nat, ghost q': nat)
      requires Valid() && HoldsBlocks(message, q) && |message| == 64 * q + j && j + |data| > 63
      modifies state, buffer
      ensures 0 < i <= |data| < i + 64 && |message| + i == 64 * q'
      ensures RegsOf(state[..]) == Fold(H0, message + data, q')
    {
      hide Compress;
      ghost var all := message + data;
      FoldPrefix(H0, message, data, q);
      i, q' := 64 - j, q;
      Fill(j, data[..i]);
      Slices.Across(message, data, 64 * q, i);
      assert buffer[..] == message[64 * q..] + data[..i];
      Absorb(buffer[..], all, q);
      q' := q + 1;
      while i + 63 < |data|
        invariant 64 * q' == |message| + i && 0 < i <= |data|
        invariant RegsOf(state[..]) == Fold(H0, all, q')
      {
        Slices.InTail(message, data, i, i + 64);
        Absorb(data[i..i + 64], all, q');
        i, q' := i + 64, q' + 1;
      }
    }

    /** One SHA1Transform on the next block of the message. */
    method Absorb(block: seq<byte>, ghost all: seq<byte>, ghost q: nat)
      requires Valid() && 64 * q + 64 <= |all| && block == all[64 * q..64 * q + 64]
      requires RegsOf(state[..]) == Fold(H0, all, q)
      modifies state
      ensures RegsOf(state[..]) == Fold(H0, all, q + 1)
    {
      Transform(state, block);
    }

    static lemma BufferedLength(n: nat)
      ensures Low(n) / 8 % 64 == n % 64 == n - 64 * (n / 64)
    {
      var q, r := n / 0x2000_0000, n % 0x2000_0000;
      Geometry.DivUnique(8 * n, TWO_32, q, 8 * r);
      Geometry.DivUnique(n, 64, 0x80_0000 * q + r / 64, r % 64);
    }

    /** SHA1Final pads the message and returns its digest. */
    method Final(ghost message: seq<byte>) returns (digest: seq<byte>)
      requires Valid() && Holds(message)
      modifies this, state, buffer
      ensures digest == Digest(message)
    {
      var finalCount := ToBE32(count1) + ToBE32(count0);
      Update([0x80], message);
      ghost var k := 0;
      PadSteps(message, k);
      while count0 / 8 % 64 * 8 != 448
        invariant k <= Zeros(|message|) && Holds(PadTo(message, k))
        decreases Zeros(|message|) - k
      {
        PadSteps(message, k);
        Update([0], PadTo(message, k));
        k := k + 1;
      }
      PadSteps(message, k);
      Update(finalCount, PadTo(message, k));
      PadWhole(message);
      digest := WordBytes(state[0]) + WordBytes(state[1]) + WordBytes(state[2])
                + WordBytes(state[3]) + WordBytes(state[4]);
      assert digest == RegBytes(RegsOf(state[..]));
    }

    /** The message and the padding fed so far: the one bit and `k` zero octets. */
    static function PadTo(message: seq<byte>, k: nat): seq<byte> {
      message + [0x80] + seq(k, _ => 0)
    }

    /** The padding loop stops exactly when the zeros of section 4 are in, and then only the length is missing. */
    static lemma PadSteps(message: seq<byte>, k: nat)
      requires k <= Zeros(|message|)
      ensures message + [0x80] == PadTo(message, 0)
      ensures PadTo(message, k) + [0] == PadTo(message, k + 1)
      ensures Low(|PadTo(message, k)|) / 8 % 64 * 8 == 448 <==> k == Zeros(|message|)
      ensures PadTo(message, Zeros(|message|)) + LengthField(|message|) == Pad(message)
    {
      BufferedLength(|PadTo(message, k)|);
      ZerosEnd(|message|, k);
      assert seq(k, _ => 0 as byte) + [0] == seq(k + 1, _ => 0 as byte);
    }

    static lemma ZerosEnd(n: nat, k: nat)
      requires k <= Zeros(n)
      ensures (n + 1 + k) % 64 == 56 <==> k == Zeros(n)
    {
    }
  }

  /** However a message is split into updates, the digest is that of the whole message. */
  method DigestOfParts(parts: seq<seq<byte>>) returns (digest: seq<byte>)
    requires forall i :: 0 <= i < |parts| ==> |parts[i]| <= TWO_32 - 64
    ensures digest == Digest(Flatten(parts))
  {
    var context := new Context();
    context.Init();
    for i := 0 to |parts|
      invariant context.Valid() && fresh(context) && fresh(context.state) && fresh(context.buffer)
      invariant context.Holds(Flatten(parts[..i]))
    {
      context.Update(parts[i], Flatten(parts[..i]));
      FlattenSnoc(parts[..i], parts[i]);
      assert parts[..i + 1] == parts[..i] + [parts[i]];
    }
    assert parts[..|parts|] == parts;
    digest := context.Final(Flatten(parts));
  }

  /** SHA1: the one-shot form feeds the message one octet at a time and terminates the digest with a zero. */
  method OneShot(message: seq<byte>) returns (hash: seq<byte>)
    ensures hash == Digest(message) + [0]
  {
    hide Compress;
    var context := new Context();
    context.Init();
    for i := 0 to |message|
      invariant context.Valid() && fresh(context) && fresh(context.state) && fresh(context.buffer)
      invariant context.Holds(message[..i])
    {
      context.Update([message[i]], message[..i]);
      assert message[..i] + [message[i]] == message[..i + 1];
    }
    assert message[..|message|] == message;
    var digest := context.Final(message);
    hash := digest + [0];
  }
}

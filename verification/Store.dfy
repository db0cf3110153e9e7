/** What the operations of src/torrent/torrent_data.c do to the store, as functions on its state. */
module Store {
  import opened Bytes
  import opened Options
  import opened Geometry
  import opened Completion
  import opened Bitfields
  import opened Files
  import opened HashMaps
  import opened Decimal
  import Sha1Spec

  /** What is fixed once torrent_data_set_data_size has run. */
  datatype Setup = Setup(cfg: Config, hashes: Option<seq<byte>>) {
    /** Chunks do not straddle pieces, and a list of hashes holds at least one. */
    ghost predicate Valid() {
      cfg.Valid() && (hashes.Some? ==> |hashes.value| >= 20)
    }
  }

  datatype Claim = Claim(deadline: int, chunk: nat)

  datatype State = State(
    claimed: seq<bool>,
    completed: seq<bool>,
    claims: seq<Claim>,
    buffers: map<Key, seq<byte>>,
    disk: seq<byte>,
    completedPieces: int,
    downloaded: int,
    left: int,
    needed: bool)

  /** torrent_data_set_data_size over files with the bytes `disk`. */
  ghost function Init(setup: Setup, disk: seq<byte>, needed: bool): State
    requires setup.Valid()
  {
    var n := setup.cfg.ChunkCount();
    State(FreshBits(n, n, false, 0xFF), FreshBits(n, n, false, 0xFF), [], map[], disk, 0, 0, setup.cfg.dataSize, needed)
  }

  // --- claiming -----------------------------------------------------------------------------------------

  /** The first chunk from `i` on that is unclaimed and of interest. */
  function FirstFree(claimed: seq<bool>, interested: seq<bool>, i: nat, n: nat): (r: Option<nat>)
    requires i <= n <= |claimed| && n <= |interested|
    ensures r.Some? ==> i <= r.value < n && !claimed[r.value] && interested[r.value]
    ensures forall j :: i <= j < (if r.Some? then r.value else n) ==> claimed[j] || !interested[j]
    decreases n - i
  {
    if i == n then None
    else if !claimed[i] && interested[i] then Some(i)
    else FirstFree(claimed, interested, i + 1, n)
  }

  /** One turn of the outer loop of torrent_data_claim_chunk; `now` is the reading that dates the record. */
  function ClaimOne(s: State, interested: seq<bool>, timeout: int, n: nat, now: int): (State, Option<nat>)
    requires n <= |s.claimed| && n <= |interested|
  {
    match FirstFree(s.claimed, interested, 0, n)
    case None => (s, None)
    case Some(i) =>
      if timeout == 0 then (s, Some(i))
      else (s.(claimed := s.claimed[i := true], claims := [Claim(now + timeout * 1000, i)] + s.claims), Some(i))
  }

  /** The state after `num` turns; the k-th turn reads clock(k). */
  function ClaimState(s: State, interested: seq<bool>, timeout: int, n: nat, clock: nat -> int, num: nat): (s': State)
    requires n <= |s.claimed| && n <= |interested|
    ensures |s'.claimed| == |s.claimed|
  {
    if num == 0 then s
    else ClaimOne(ClaimState(s, interested, timeout, n, clock, num - 1), interested, timeout, n, clock(num - 1)).0
  }

  /** What turn `k` wrote to its place in `out`, if anything. */
  function ClaimOut(s: State, interested: seq<bool>, timeout: int, n: nat, clock: nat -> int, k: nat): Option<nat>
    requires n <= |s.claimed| && n <= |interested|
  {
    ClaimOne(ClaimState(s, interested, timeout, n, clock, k), interested, timeout, n, clock(k)).1
  }

  // --- releasing ----------------------------------------------------------------------------------------

  ghost predicate InRange(claims: seq<Claim>, n: nat) {
    forall i :: 0 <= i < |claims| ==> claims[i].chunk < n
  }

  lemma InRangeCons(claim: Claim, claims: seq<Claim>, n: nat)
    requires InRange(claims, n) && claim.chunk < n
    ensures InRange([claim] + claims, n)
  {
  }

  lemma InRangeCut(claims: seq<Claim>, claims': seq<Claim>, i: nat, n: nat)
    requires InRange(claims, n) && i < |claims| == |claims'| + 1
    requires claims'[..i] == claims[..i] && claims'[i..] == claims[i + 1..]
    ensures InRange(claims', n)
  {
    forall k | 0 <= k < |claims'|
      ensures claims'[k].chunk < n
    {
      if k < i {
        assert claims'[k] == claims'[..i][k] == claims[k];
      } else {
        assert claims'[k] == claims'[i..][k - i] == claims[k + 1];
      }
    }
  }

  lemma InRangeAt(claims: seq<Claim>, n: nat, m: nat, i: nat)
    requires InRange(claims, n) && n <= m
    ensures InRange(claims, m) && (i < |claims| ==> claims[i].chunk < n)
  {
  }

  /** The records that are kept: reading clock(i + k) is compared with the deadline of record k. */
  function Kept(claims: seq<Claim>, clock: nat -> int, i: nat): seq<Claim> {
    if claims == [] then []
    else if claims[0].deadline < clock(i) then Kept(claims[1..], clock, i + 1)
    else [claims[0]] + Kept(claims[1..], clock, i + 1)
  }

  /** The claimed bits afterwards: an expired record gives its chunk back unless the chunk was completed. */
  function Freed(claims: seq<Claim>, clock: nat -> int, i: nat, claimed: seq<bool>,
                 completed: seq<bool>): (r: seq<bool>)
    requires |claimed| == |completed| && InRange(claims, |claimed|)
    ensures |r| == |claimed|
  {
    if claims == [] then claimed
    else
      var c := claims[0];
      var claimed' := if c.deadline < clock(i) && !completed[c.chunk] then claimed[c.chunk := false] else claimed;
      Freed(claims[1..], clock, i + 1, claimed', completed)
  }

  function Release(s: State, clock: nat -> int): State
    requires |s.claimed| == |s.completed| && InRange(s.claims, |s.claimed|)
  {
    s.(claims := Kept(s.claims, clock, 0), claimed := Freed(s.claims, clock, 0, s.claimed, s.completed))
  }

  /** What has been done and what is still to do of a release that has read the clock `k` times and kept `i` records. */
  ghost predicate Releasing(s0: State, s: State, clock: nat -> int, i: nat, k: nat)
    requires |s0.claimed| == |s0.completed| && InRange(s0.claims, |s0.claimed|)
  {
    && i <= |s.claims| && |s.claimed| == |s.completed| && InRange(s.claims, |s.claimed|)
    && Kept(s0.claims, clock, 0) == s.claims[..i] + Kept(s.claims[i..], clock, k)
    && Freed(s0.claims, clock, 0, s0.claimed, s0.completed) == Freed(s.claims[i..], clock, k, s.claimed, s.completed)
    && s == s0.(claimed := s.claimed, claims := s.claims)
  }

  lemma ReleasingStart(s0: State, clock: nat -> int)
    requires |s0.claimed| == |s0.completed| && InRange(s0.claims, |s0.claimed|)
    ensures Releasing(s0, s0, clock, 0, 0)
  {
    assert s0.claims[0..] == s0.claims && s0.claims[..0] == [];
  }

  lemma ReleasingKeep(s0: State, s: State, clock: nat -> int, i: nat, k: nat)
    requires |s0.claimed| == |s0.completed| && InRange(s0.claims, |s0.claimed|) && Releasing(s0, s, clock, i, k)
    requires i < |s.claims| && !(s.claims[i].deadline < clock(k))
    ensures Releasing(s0, s, clock, i + 1, k + 1)
  {
    var rest := s.claims[i..];
    assert rest[0] == s.claims[i] && rest[1..] == s.claims[i + 1..];
    assert s.claims[..i] + [s.claims[i]] == s.claims[..i + 1];
  }

  lemma ReleasingDrop(s0: State, s: State, s': State, clock: nat -> int, i: nat, k: nat)
    requires |s0.claimed| == |s0.completed| && InRange(s0.claims, |s0.claimed|) && Releasing(s0, s, clock, i, k)
    requires i < |s.claims| && s.claims[i].deadline < clock(k) && s.claims[i].chunk < |s.completed|
    requires s' == s.(claimed := s'.claimed, claims := s'.claims)
    requires s'.claimed == if s.completed[s.claims[i].chunk] then s.claimed else s.claimed[s.claims[i].chunk := false]
    requires |s'.claims| == |s.claims| - 1 && s'.claims[..i] == s.claims[..i] && s'.claims[i..] == s.claims[i + 1..]
    ensures Releasing(s0, s', clock, i, k + 1)
  {
    var rest := s.claims[i..];
    assert rest[0] == s.claims[i] && rest[1..] == s.claims[i + 1..];
    assert s'.claims == s'.claims[..i] + s'.claims[i..];
    assert s.claims == s.claims[..i] + [s.claims[i]] + s.claims[i + 1..];
  }

  lemma ReleasingDone(s0: State, s: State, clock: nat -> int, k: nat)
    requires |s0.claimed| == |s0.completed| && InRange(s0.claims, |s0.claimed|)
    requires Releasing(s0, s, clock, |s.claims|, k)
    ensures s == Release(s0, clock)
  {
    assert s.claims[|s.claims|..] == [] && s.claims[..|s.claims|] == s.claims;
  }

  // --- validating ---------------------------------------------------------------------------------------

  /** strncmp(a, b, n) == 0 for buffers of n bytes: the comparison stops at a common zero byte. */
  predicate SameText(a: seq<byte>, b: seq<byte>)
    requires |a| == |b|
  {
    a == [] || (a[0] == b[0] && (a[0] == 0 || SameText(a[1..], b[1..])))
  }

  predicate Validates(setup: Setup, piece: nat, data: seq<byte>)
    requires setup.Valid()
  {
    match setup.hashes
    case None => true
    case Some(hashes) =>
      20 * piece <= |hashes| - 20 && SameText(Sha1Spec.Digest(data), hashes[20 * piece..20 * piece + 20])
  }

  // --- writing ------------------------------------------------------------------------------------------

  function PieceKey(piece: nat): Key {
    NatText(piece)
  }

  /** The buffered piece, or a fresh zeroed one. */
  function Buffered(setup: Setup, s: State, piece: nat): (b: seq<byte>) {
    if PieceKey(piece) in s.buffers then s.buffers[PieceKey(piece)] else seq(setup.cfg.pieceSize, _ => 0)
  }

  /** The data is copied into the piece at the chunk's place. */
  function Assembled(setup: Setup, s: State, chunk: nat, data: seq<byte>): seq<byte>
    requires setup.Valid()
  {
    var cfg := setup.cfg;
    cfg.ChunkIsIn(chunk);
    var piece := cfg.ChunkPiece(chunk);
    Splat(Buffered(setup, s, piece), cfg.ChunkOffset(chunk) - cfg.PieceOffset(piece), data)
  }

  ghost predicate Accepts(setup: Setup, s: State, chunk: nat, data: seq<byte>)
    requires chunk < |s.completed|
  {
    !s.completed[chunk] && |data| == setup.cfg.ChunkLength(chunk)
  }

  /** The bits that have just become a complete piece for the byte-wise test. */
  ghost predicate JustDone(setup: Setup, s: State, chunk: nat)
    requires setup.Valid() && chunk < |s.completed|
  {
    var piece := setup.cfg.ChunkPiece(chunk);
    ByteTest(setup.cfg, s.completed[chunk := true], piece) && !ByteTest(setup.cfg, s.completed, piece)
  }

  function PieceSpan(cfg: Config, piece: nat): nat {
    if cfg.PieceLength(piece) < 0 then 0 else cfg.PieceLength(piece)
  }

  /** The end of torrent_data_write_chunk for an accepted chunk whose piece now reads `image`: a piece that is not
      written out stays in memory; one that is goes over the files, and a file list that ends too early makes the
      call fail with the bit set, the buffer gone and the counters as they were. */
  ghost function Settle(setup: Setup, s: State, chunk: nat, size: nat, image: seq<byte>, flush: bool): (State, bool)
    requires setup.Valid() && chunk < |s.completed|
    requires flush ==> PieceSpan(setup.cfg, setup.cfg.ChunkPiece(chunk)) <= |image|
  {
    var cfg := setup.cfg;
    var piece := cfg.ChunkPiece(chunk);
    var marked := s.(completed := s.completed[chunk := true]);
    var counted := marked.(downloaded := s.downloaded + size, left := s.left - size);
    if !flush then (counted.(buffers := s.buffers[PieceKey(piece) := image]), false)
    else
      var begin, bytes := cfg.PieceOffset(piece), image[..PieceSpan(cfg, piece)];
      var disk, buffers := Splat(s.disk, begin, bytes), s.buffers - {PieceKey(piece)};
      if Covered(|s.disk|, begin, |bytes|) != |bytes| then (marked.(disk := disk, buffers := buffers), false)
      else
        var pieces := s.completedPieces + 1;
        var complete := cfg.PieceCount() != 0 && pieces == cfg.PieceCount();
        (counted.(disk := disk, buffers := buffers, completedPieces := pieces, needed := s.needed && !complete), true)
  }

  /** torrent_data_write_chunk: the new state, and whether it reports that a piece was written out. */
  ghost function Write(setup: Setup, s: State, chunk: nat, data: seq<byte>): (State, bool)
    requires setup.Valid() && chunk < |s.completed|
  {
    if !Accepts(setup, s, chunk, data) then (s, false)
    else
      var piece := setup.cfg.ChunkPiece(chunk);
      var image, span := Assembled(setup, s, chunk, data), PieceSpan(setup.cfg, piece);
      var flush := JustDone(setup, s, chunk) && span <= |image| && Validates(setup, piece, image[..span]);
      Settle(setup, s, chunk, |data|, image, flush)
  }

  // --- reading ------------------------------------------------------------------------------------------

  /** The bytes from `offset` to the end of its piece, over and over, cut to `length`. */
  function Repeated(disk: seq<byte>, offset: nat, tail: nat, length: nat): (r: seq<byte>)
    requires 0 < tail && offset + tail <= |disk|
    ensures |r| == length
  {
    seq(length, i requires 0 <= i => disk[offset + i % tail])
  }

  /** How many bytes of the piece of `offset` lie at or after it. */
  function PieceTail(cfg: Config, offset: nat): int
    requires cfg.pieceSize > 0
  {
    var piece := offset / cfg.pieceSize;
    cfg.PieceOffset(piece) + cfg.PieceLength(piece) - offset
  }

  lemma TailIsPositive(cfg: Config, offset: nat)
    requires cfg.pieceSize > 0 && offset < cfg.dataSize
    ensures var piece := offset / cfg.pieceSize;
            && piece < cfg.PieceCount() && cfg.PieceOffset(piece) <= offset
            && 0 < PieceTail(cfg, offset) <= cfg.PieceLength(piece)
    ensures offset + PieceTail(cfg, offset) <= cfg.dataSize
  {
    DivParts(offset, cfg.pieceSize);
    cfg.PieceExists(offset / cfg.pieceSize);
  }

  lemma RepeatMore(disk: seq<byte>, offset: nat, tail: nat, done: nat, n: nat)
    requires 0 < tail && offset + tail <= |disk| && done % tail == 0 && n <= tail
    ensures Repeated(disk, offset, tail, done) + disk[offset..offset + n] == Repeated(disk, offset, tail, done + n)
    ensures n == tail ==> (done + n) % tail == 0
  {
    DivParts(done, tail);
    var front, slice := Repeated(disk, offset, tail, done), disk[offset..offset + n];
    var longer := Repeated(disk, offset, tail, done + n);
    forall i | 0 <= i < done + n
      ensures longer[i] == (front + slice)[i]
    {
      if i >= done {
        DivUnique(i, tail, done / tail, i - done);
      }
    }
    if n == tail {
      MulSum(tail, done / tail, 1);
      DivUnique(done + n, tail, done / tail + 1, 0);
    }
  }

  /** What torrent_data_read_data returns is the range that was asked for, whatever the files hold, exactly when the
      range ends inside the piece it starts in: the offset is never advanced. */
  lemma ReadExactIff(offset: nat, tail: nat, length: nat, total: nat)
    requires 0 < tail && offset + tail <= total && offset + length <= total
    ensures (forall disk: seq<byte> :: |disk| == total ==>
            Repeated(disk, offset, tail, length) == disk[offset..offset + length])
       <==> length <= tail
  {
    if length <= tail {
      forall disk: seq<byte> | |disk| == total
        ensures Repeated(disk, offset, tail, length) == disk[offset..offset + length]
      {
        forall i | 0 <= i < length
          ensures i % tail == i
        {
          DivUnique(i, tail, 0, i);
        }
      }
    } else {
      var disk: seq<byte> := seq(total, i => if i == offset + tail then 1 else 0);
      DivUnique(tail, tail, 1, 0);
      assert Repeated(disk, offset, tail, length)[tail] == disk[offset] == 0;
      assert disk[offset..offset + length][tail] == 1;
    }
  }

  // --- runs ---------------------------------------------------------------------------------------------

  datatype Op =
    | ClaimOp(interested: seq<bool>, timeout: int, clock: nat -> int, num: nat)
    | ReleaseOp(clock: nat -> int)
    | WriteOp(chunk: nat, data: seq<byte>)

  /** What the callers owe: bit indices inside the bitfields. */
  ghost predicate OpValid(setup: Setup, op: Op)
    requires setup.Valid()
  {
    match op
    case ClaimOp(interested, _, _, _) => |interested| >= setup.cfg.ChunkCount()
    case ReleaseOp(_) => true
    case WriteOp(chunk, _) => chunk < 8 * BytesFor(setup.cfg.ChunkCount())
  }

  ghost predicate Sized(setup: Setup, s: State)
    requires setup.Valid()
  {
    && |s.claimed| == |s.completed| == 8 * BytesFor(setup.cfg.ChunkCount())
    && InRange(s.claims, setup.cfg.ChunkCount())
  }

  ghost function Step(setup: Setup, s: State, op: Op): (s': State)
    requires setup.Valid() && Sized(setup, s) && OpValid(setup, op)
  {
    match op
    case ClaimOp(interested, timeout, clock, num) =>
        ClaimState(s, interested, timeout, setup.cfg.ChunkCount(), clock, num)
    case ReleaseOp(clock) => Release(s, clock)
    case WriteOp(chunk, data) => Write(setup, s, chunk, data).0
  }

  lemma {:induction false} ClaimKeepsSize(s: State, interested: seq<bool>, timeout: int, n: nat, clock: nat -> int,
                                          num: nat)
    requires n <= |s.claimed| && n <= |interested| && InRange(s.claims, n)
    ensures var s' := ClaimState(s, interested, timeout, n, clock, num);
            InRange(s'.claims, n) && s' == s.(claimed := s'.claimed, claims := s'.claims)
  {
    if num > 0 {
      ClaimKeepsSize(s, interested, timeout, n, clock, num - 1);
    }
  }

  lemma {:induction false} KeptInRange(claims: seq<Claim>, clock: nat -> int, i: nat, n: nat)
    requires InRange(claims, n)
    ensures InRange(Kept(claims, clock, i), n)
  {
    if claims != [] {
      KeptInRange(claims[1..], clock, i + 1, n);
    }
  }

  lemma StepKeepsSize(setup: Setup, s: State, op: Op)
    requires setup.Valid() && Sized(setup, s) && OpValid(setup, op)
    ensures Sized(setup, Step(setup, s, op))
  {
    var n := setup.cfg.ChunkCount();
    match op
    case ClaimOp(interested, timeout, clock, num) => ClaimKeepsSize(s, interested, timeout, n, clock, num);
    case ReleaseOp(clock) => KeptInRange(s.claims, clock, 0, n);
    case WriteOp(chunk, data) =>
  }

  ghost predicate OpsValid(setup: Setup, ops: seq<Op>)
    requires setup.Valid()
  {
    forall i :: 0 <= i < |ops| ==> OpValid(setup, ops[i])
  }

  /** The state after a sequence of operations, the last one at the end. */
  ghost function Run(setup: Setup, s: State, ops: seq<Op>): (s': State)
    requires setup.Valid() && Sized(setup, s) && OpsValid(setup, ops)
    ensures Sized(setup, s')
  {
    if ops == [] then s
    else
      var before := Run(setup, s, ops[..|ops| - 1]);
      StepKeepsSize(setup, before, ops[|ops| - 1]);
      Step(setup, before, ops[|ops| - 1])
  }
}

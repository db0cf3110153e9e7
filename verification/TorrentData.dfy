/** src/torrent/torrent_data.c: the store that peers claim chunks from and that the torrent writes chunks to. */
module TorrentDatas {
  import opened Bytes
  import opened Options
  import opened Geometry
  import opened Bitfields
  import opened Completion
  import opened Files
  import opened HashMaps
  import opened Decimal
  import opened Store
  import opened ClaimLists
  import Sha1
  import Slices

  /** A TorrentData after torrent_data_set_data_size. */
  class TorrentData {
    const cfg: Config
    const hashes: Option<seq<byte>>
    const claimed: Bitfield
    const completed: Bitfield
    const claims: ClaimList
    const data: HashMap<seq<byte>>
    var files: seq<FileInfo>
    var completedPieces: int
    var downloaded: int
    var left: int
    var needed: bool

    ghost function TheSetup(): Setup {
      Setup(cfg, hashes)
    }

    /** The objects are well formed and distinct, and the bitfields have the size that the data needs. */
    ghost predicate Shaped() {
      && TheSetup().Valid()
      && claimed.Valid() && completed.Valid() && claimed.bytes != completed.bytes
      && data.buckets as object != claimed.bytes && data.buckets as object != completed.bytes
      && claimed.bitCount == completed.bitCount == cfg.ChunkCount()
    }

    lemma ShapedParts()
      requires Shaped()
      ensures claimed.Valid() && completed.Valid() && claimed.bytes != completed.bytes
      ensures data.buckets as object != claimed.bytes && data.buckets as object != completed.bytes
      ensures cfg.chunkSize > 0 && claimed.bitCount == completed.bitCount == cfg.ChunkCount()
      ensures cfg.ChunkCount() <= |claimed.Bits()| == |completed.Bits()|
    {
      hide Config.ChunkCount;
    }

    /** What claiming does not touch: the buffered pieces have the size of a piece, the files lie end to end and the
        padding of the completed bitfield is set. */
    ghost predicate DataOk()
      requires cfg.chunkSize > 0
      reads this, completed, completed.bytes, data, data.buckets
    {
      && data.Valid() && (forall key :: key in data.contents ==> |data.contents[key]| == cfg.pieceSize)
      && Contiguous(files, 0)
      && Padded(cfg, completed.Bits())
    }

    ghost predicate Valid()
      reads this, claimed, claimed.bytes, completed, completed.bytes, claims, claims.nodes, data, data.buckets
    {
      && Shaped()
      && claims.Valid() && InRange(claims.Contents(), cfg.ChunkCount())
      && DataOk()
    }

    ghost function Abs(): State
      reads this, claimed, claimed.bytes, completed, completed.bytes, claims, data
    {
      State(claimed.Bits(), completed.Bits(), claims.Contents(), data.contents, Concat(files),
            completedPieces, downloaded, left, needed)
    }

    /** torrent_data_set_data_size, once the sizes, the hashes and the files are known. */
    constructor (cfg: Config, hashes: Option<seq<byte>>, files: seq<FileInfo>, needed: bool, hash: Key -> nat)
      requires Setup(cfg, hashes).Valid() && Contiguous(files, 0)
      ensures Valid() && this.cfg == cfg && this.hashes == hashes
      ensures Abs() == Init(Setup(cfg, hashes), Concat(files), needed)
    {
      this.cfg, this.hashes := cfg, hashes;
      claimed := new Bitfield(cfg.ChunkCount(), 0, 0xFF);
      completed := new Bitfield(cfg.ChunkCount(), 0, 0xFF);
      claims := new ClaimList();
      data := new HashMap(hash, 1000);
      this.files, this.needed := files, needed;
      completedPieces, downloaded, left := 0, 0, cfg.dataSize;
      new;
      hide BitAt;
      hide BitsOf;
      hide FreshBits;
      hide Config.ChunkCount;
      hide Concat;
      hide Contiguous;
      FreshIsPadded(cfg);
      assert claims.Contents() == [];
      hide HashMap.Valid;
      hide ClaimList.Valid;
      hide Padded;
      MakeValid();
    }

    /** torrent_data_is_piece_complete: compares the bytes of the completed bitfield that belong to the piece with
        0xFF. */
    method IsPieceComplete(piece: nat) returns (complete: bool)
      requires Shaped()
      ensures complete <==> ByteTest(cfg, completed.Bits(), piece)
    {
      var u := BytesPerPiece(cfg);
      var i := 0;
      ghost var bits := completed.Bits();
      while i < u
        invariant 0 <= i <= u
        invariant forall b :: piece * u <= b < piece * u + i && b < |bits| / 8 ==> ByteUniform(bits, b, true)
      {
        var byteIndex := piece * u + i;
        if byteIndex < completed.bytes.Length {
          FullByte(completed.bytes[..], byteIndex);
          if completed.bytes[byteIndex] != 0xFF {
            assert !ByteUniform(bits, byteIndex, true);
            return false;
          }
        }
        i := i + 1;
      }
      complete := true;
    }

    /** torrent_data_is_complete */
    predicate IsComplete()
      requires cfg.pieceSize > 0
      reads this
    {
      cfg.PieceCount() != 0 && completedPieces == cfg.PieceCount()
    }

    /** strncmp over the length of the buffers. */
    static method CompareText(a: seq<byte>, b: seq<byte>) returns (same: bool)
      requires |a| == |b|
      ensures same <==> SameText(a, b)
    {
      var i := 0;
      while i < |a|
        invariant i <= |a| && (SameText(a, b) <==> SameText(a[i..], b[i..]))
      {
        if a[i] != b[i] {
          return false;
        }
        if a[i] == 0 {
          return true;
        }
        i := i + 1;
      }
      same := true;
    }

    /** torrent_data_validate_piece */
    method ValidatePiece(piece: nat, bytes: seq<byte>) returns (ok: bool)
      requires TheSetup().Valid() && |bytes| <= TWO_32 - 64
      ensures ok <==> Validates(TheSetup(), piece, bytes)
    {
      if hashes == None {
        return true;
      }
      if piece * 20 > |hashes.value| - 20 {
        return false;
      }
      var context := new Sha1.Context();
      context.Init();
      assert [] + bytes == bytes;
      context.Update(bytes, []);
      var digest := context.Final(bytes);
      ok := CompareText(digest, hashes.value[20 * piece..20 * piece + 20]);
    }

    /** torrent_data_claim_chunk: `clock(k)` is the time read when chunk k is found. `out` tells for each of the
        `num` places what was written to it; None is a place that is left alone. */
    method ClaimChunks(interested: Bitfield, timeout: int, num: nat, clock: nat -> int)
        returns (ok: bool, out: seq<Option<nat>>)
      requires Valid() && interested.Valid()
      requires cfg.ChunkCount() <= 8 * interested.bytes.Length && interested.bytes != claimed.bytes
      modifies claimed.bytes, claims
      ensures Valid() && interested.Bits() == old(interested.Bits())
      ensures Abs() == ClaimState(old(Abs()), interested.Bits(), timeout, cfg.ChunkCount(), clock, num)
      ensures |out| == num && forall k :: 0 <= k < num ==>
                out[k] == ClaimOut(old(Abs()), interested.Bits(), timeout, cfg.ChunkCount(), clock, k)
      ensures ok <==> exists k :: 0 <= k < num && out[k].Some?
    {
      hide TorrentData.DataOk;
      hide HashMap.Valid;
      hide ClaimList.Valid;
      hide Concat;
      hide Contiguous;
      hide BitAt;
      hide BitsOf;
      hide Padded;
      hide FirstFree;
      hide ClaimOne;
      hide Config.ChunkCount;
      ShapedParts();
      hide TorrentData.Shaped;
      ok, out := false, [];
      ghost var s0, wanted := Abs(), interested.Bits();
      for k := 0 to num
        invariant Valid() && interested.Bits() == wanted
        invariant Abs() == ClaimState(s0, wanted, timeout, cfg.ChunkCount(), clock, k)
        invariant |out| == k && forall j :: 0 <= j < k ==>
                  out[j] == ClaimOut(s0, wanted, timeout, cfg.ChunkCount(), clock, j)
        invariant ok <==> exists j :: 0 <= j < k && out[j].Some?
      {
        var found := ClaimNext(interested, timeout, clock(k));
        ghost var before := out;
        ok, out := ok || found.Some?, out + [found];
        assert out[k] == found && forall j :: 0 <= j < k ==> out[j] == before[j];
      }
    }

    /** The inner loop of torrent_data_claim_chunk. */
    method ClaimNext(interested: Bitfield, timeout: int, now: int) returns (found: Option<nat>)
      requires Valid() && interested.Valid()
      requires cfg.ChunkCount() <= 8 * interested.bytes.Length && interested.bytes != claimed.bytes
      modifies claimed.bytes, claims
      ensures Valid() && interested.Bits() == old(interested.Bits())
      ensures (Abs(), found) == ClaimOne(old(Abs()), interested.Bits(), timeout, cfg.ChunkCount(), now)
    {
      hide TorrentData.Valid;
      hide TorrentData.DataOk;
      hide TorrentData.Shaped;
      hide ClaimList.Valid;
      hide Concat;
      hide BitAt;
      hide BitsOf;
      hide FirstFree;
      hide Config.ChunkCount;
      hide InRange;
      hide TorrentData.Abs;
      Parts();
      ShapedParts();
      AbsIs(claimed.Bits(), completed.Bits(), claims.Contents());
      var i := ScanFree(interested);
      if i == cfg.ChunkCount() {
        return None;
      }
      found := Some(i);
      if timeout != 0 {
        ghost var bits, done, before := claimed.Bits(), completed.Bits(), claims.Contents();
        var claim := Claim(now + timeout * 1000, i);
        AbsIs(bits, done, before);
        claimed.SetBit(i, 1);
        InRangeCons(claim, before, cfg.ChunkCount());
        claims.Push(claim);
        MakeValid();
        AbsIs(bits[i := true], done, [claim] + before);
      }
    }

    /** The scan for the first bit that is clear in `claimed` and set in `interested`. */
    method ScanFree(interested: Bitfield) returns (i: nat)
      requires Shaped() && interested.Valid() && cfg.ChunkCount() <= 8 * interested.bytes.Length
      ensures i <= cfg.ChunkCount()
      ensures FirstFree(claimed.Bits(), interested.Bits(), 0, cfg.ChunkCount()) ==
              if i < cfg.ChunkCount() then Some(i) else None
    {
      i := 0;
      while i < claimed.bitCount
        invariant i <= cfg.ChunkCount()
        invariant FirstFree(claimed.Bits(), interested.Bits(), 0, cfg.ChunkCount()) ==
                  FirstFree(claimed.Bits(), interested.Bits(), i, cfg.ChunkCount())
      {
        var taken := claimed.GetBit(i);
        var wanted := interested.GetBit(i);
        if taken == 0 && wanted == 1 {
          return;
        }
        i := i + 1;
      }
    }

    /** torrent_data_release_expired_claims: walks the list with a pointer to the previous node and unlinks in place;
        the k-th record that is looked at is compared with the reading clock(k). */
    method ReleaseExpired(clock: nat -> int)
      requires Valid()
      modifies claimed.bytes, claims, claims.nodes
      ensures Valid()
      ensures Abs() == Release(old(Abs()), clock)
    {
      hide TorrentData.Valid;
      hide TorrentData.Abs;
      hide Releasing;
      hide Release;
      ClaimParts();
      ghost var s0 := Abs();
      var prev: ClaimNode? := null;
      var current := claims.First();
      ghost var i := 0;
      var k := 0;
      ReleasingStart(s0, clock);
      while current != null
        invariant Valid() && (forall node :: node in claims.nodes ==> node in old(claims.nodes))
        invariant WalkAt(prev, current, i) && Walking(s0, Abs(), clock, i, k)
        decreases |claims.nodes| - i
      {
        ClaimParts();
        if current.claim.deadline < clock(k) {
          assert prev != null ==> prev in claims.nodes;
          current := ReleaseOne(prev, current, i, s0, clock, k);
        } else {
          ReleasingKeep(s0, Abs(), clock, i, k);
          prev := current;
          current := claims.After(current, i);
          i := i + 1;
        }
        k := k + 1;
      }
      ClaimParts();
      ReleasingDone(s0, Abs(), clock, k);
    }

    /** What the walk over the claims uses. */
    lemma ClaimParts()
      requires Valid()
      ensures claims.Valid() && |Abs().claims| == |claims.nodes|
      ensures forall i :: 0 <= i < |claims.nodes| ==> Abs().claims[i] == claims.nodes[i].claim
      ensures |Abs().claimed| == |Abs().completed| && InRange(Abs().claims, |Abs().claimed|)
    {
      hide TorrentData.DataOk;
      hide ClaimList.Valid;
      hide Concat;
      ShapedParts();
      hide TorrentData.Shaped;
      hide Config.ChunkCount;
    }

    /** A chunk that was not completed becomes free again. */
    method GiveBack(chunk: nat)
      requires Shaped() && chunk < cfg.ChunkCount()
      modifies claimed.bytes
      ensures chunk < |completed.Bits()| == |old(claimed.Bits())| && completed.Bits() == old(completed.Bits())
      ensures claimed.Bits() == if completed.Bits()[chunk] then old(claimed.Bits())
                                else old(claimed.Bits())[chunk := false]
    {
      hide BitAt;
      hide BitsOf;
      hide Config.ChunkCount;
      var done := completed.GetBit(chunk);
      if done == 0 {
        claimed.SetBit(chunk, 0);
      }
    }

    /** Gives the chunk of a record back and unlinks the record. */
    method DropRecord(prev: ClaimNode?, current: ClaimNode, ghost i: nat) returns (next: ClaimNode?)
      requires Shaped() && claims.Valid() && i < |claims.nodes| && current == claims.nodes[i]
      requires current.claim.chunk < cfg.ChunkCount() && prev == if i == 0 then null else claims.nodes[i - 1]
      modifies claimed.bytes, claims, if prev == null then {} else {prev}
      ensures claims.Valid() && claims.nodes == Without(old(claims.nodes), i)
      ensures next == NodeAt(claims.nodes, i) && (prev == if i == 0 then null else claims.nodes[i - 1])
      ensures claims.Contents() == Without(old(claims.Contents()), i)
      ensures completed.Bits() == old(completed.Bits())
      ensures current.claim.chunk < |completed.Bits()| == |old(claimed.Bits())|
      ensures claimed.Bits() == if completed.Bits()[current.claim.chunk] then old(claimed.Bits())
                                else old(claimed.Bits())[current.claim.chunk := false]
    {
      hide ClaimList.Valid;
      hide BitAt;
      hide BitsOf;
      hide Config.ChunkCount;
      hide ClaimsOf;
      GiveBack(current.claim.chunk);
      ClaimsWithout(claims.nodes, i);
      hide Without;
      next := claims.Unlink(prev, current, i);
    }

    /** Where the two pointers of the walk stand. */
    ghost predicate WalkAt(prev: ClaimNode?, current: ClaimNode?, i: nat)
      reads claims
    {
      && i <= |claims.nodes| && current == NodeAt(claims.nodes, i)
      && prev == if i == 0 then null else claims.nodes[i - 1]
    }

    ghost predicate Walking(s0: State, s: State, clock: nat -> int, i: nat, k: nat) {
      && |s0.claimed| == |s0.completed| && InRange(s0.claims, |s0.claimed|)
      && Releasing(s0, s, clock, i, k)
    }

    /** The branch of the walk that gives a chunk back and unlinks its record. */
    method ReleaseOne(prev: ClaimNode?, current: ClaimNode, ghost i: nat, ghost s0: State, clock: nat -> int, k: nat)
      returns (next: ClaimNode?)
      requires Valid() && WalkAt(prev, current, i) && current.claim.deadline < clock(k)
      requires Walking(s0, Abs(), clock, i, k)
      modifies claimed.bytes, claims, if prev == null then {} else {prev}
      ensures Valid() && WalkAt(prev, next, i) && Walking(s0, Abs(), clock, i, k + 1)
      ensures |claims.nodes| < |old(claims.nodes)| && forall node :: node in claims.nodes ==> node in old(claims.nodes)
    {
      hide TorrentData.Valid;
      hide TorrentData.DataOk;
      hide TorrentData.Shaped;
      hide ClaimList.Valid;
      hide Concat;
      hide BitAt;
      hide BitsOf;
      hide Config.ChunkCount;
      hide Releasing;
      hide InRange;
      hide TorrentData.Abs;
      Parts();
      ghost var s, bits, done, before := Abs(), claimed.Bits(), completed.Bits(), claims.Contents();
      AbsIs(bits, done, before);
      InRangeAt(before, cfg.ChunkCount(), |bits|, i);
      assert before[i] == current.claim;
      hide ClaimsOf;
      hide Without;
      WithoutParts(claims.nodes, i);
      next := DropRecord(prev, current, i);
      ghost var after := claims.Contents();
      WithoutParts(before, i);
      InRangeCut(before, after, i, cfg.ChunkCount());
      MakeValid();
      AbsIs(claimed.Bits(), done, after);
      ReleasingDrop(s0, s, Abs(), clock, i, k);
    }

    lemma AbsIs(bits: seq<bool>, done: seq<bool>, list: seq<Claim>)
      requires claimed.Bits() == bits && completed.Bits() == done && claims.Contents() == list
      ensures Abs() == State(bits, done, list, data.contents, Concat(files), completedPieces, downloaded, left, needed)
    {
      hide BitAt;
      hide BitsOf;
      hide Concat;
      hide ClaimsOf;
    }

    lemma Parts()
      requires Valid()
      ensures Shaped() && claims.Valid() && InRange(claims.Contents(), cfg.ChunkCount())
      ensures cfg.chunkSize > 0 && DataOk() && cfg.ChunkCount() <= |claimed.Bits()| == |completed.Bits()|
      ensures data.buckets as object != claimed.bytes && completed.bytes != claimed.bytes
    {
      hide TorrentData.DataOk;
      hide ClaimList.Valid;
      ShapedParts();
      hide Config.ChunkCount;
    }

    lemma MakeValid()
      requires Shaped() && claims.Valid()
      requires InRange(claims.Contents(), cfg.ChunkCount()) && cfg.chunkSize > 0 && DataOk()
      ensures Valid()
    {
      hide TorrentData.DataOk;
      hide ClaimList.Valid;
      hide TorrentData.Shaped;
    }

    /** Takes the piece out of the hash map, or starts a zeroed one, and copies the chunk to its place. */
    method TakeBuffer(chunk: nat, bytes: seq<byte>) returns (image: seq<byte>)
      requires Valid() && |bytes| <= cfg.chunkSize
      modifies data, data.buckets
      ensures Valid() && |image| == cfg.pieceSize && image == Assembled(TheSetup(), old(Abs()), chunk, bytes)
      ensures PieceKey(cfg.ChunkPiece(chunk)) !in data.contents
      ensures Abs() == old(Abs()).(buffers := old(Abs()).buffers - {PieceKey(cfg.ChunkPiece(chunk))})
    {
      hide HashMap.Valid;
      hide ClaimList.Valid;
      hide Concat;
      hide Contiguous;
      hide BitAt;
      hide BitsOf;
      hide Padded;
      hide InRange;
      hide Config.ChunkCount;
      hide Splat;
      hide NatText;
      hide Config.ChunkPiece;
      cfg.ChunkIsIn(chunk);
      var piece := cfg.ChunkPiece(chunk);
      var got := data.Get(NatText(piece));
      image := if got.Some? then got.value else seq(cfg.pieceSize, _ => 0);
      var relativeOffset: nat := cfg.ChunkOffset(chunk) - cfg.PieceOffset(piece);
      assert relativeOffset + |bytes| <= |image|;
      image := Splat(image, relativeOffset, bytes);
    }

    /** Puts a piece that stays in memory into the hash map. */
    method HoldBuffer(piece: nat, image: seq<byte>)
      requires Valid() && |image| == cfg.pieceSize && PieceKey(piece) !in data.contents
      modifies data, data.buckets
      ensures Valid()
      ensures Abs() == old(Abs()).(buffers := old(Abs()).buffers[PieceKey(piece) := image])
    {
      hide HashMap.Valid;
      hide ClaimList.Valid;
      hide Concat;
      hide Contiguous;
      hide BitAt;
      hide BitsOf;
      hide Padded;
      hide InRange;
      hide Config.ChunkCount;
      hide NatText;
      var ok := data.Set(NatText(piece), image);
    }

    /** Sets the chunk's completed bit between two completion tests. */
    method MarkDone(chunk: nat) returns (justDone: bool)
      requires Valid() && chunk < cfg.ChunkCount()
      modifies completed.bytes
      ensures Valid() && chunk < |old(Abs()).completed|
      ensures justDone <==> JustDone(TheSetup(), old(Abs()), chunk)
      ensures Abs() == old(Abs()).(completed := old(Abs()).completed[chunk := true])
    {
      hide HashMap.Valid;
      hide ClaimList.Valid;
      hide Concat;
      hide Contiguous;
      hide BitAt;
      hide BitsOf;
      hide InRange;
      hide ByteTest;
      hide Config.ChunkPiece;
      hide Config.ChunkCount;
      var piece := cfg.ChunkPiece(chunk);
      var already := IsPieceComplete(piece);
      completed.SetBit(chunk, 1);
      var complete := IsPieceComplete(piece);
      justDone := complete && !already;
    }

    /** Scatters a valid piece over the files and counts it, unless the files end before the piece does. */
    method Flush(piece: nat, bytes: seq<byte>) returns (ok: bool)
      requires Valid()
      modifies this
      ensures Valid()
      ensures var s, begin := old(Abs()), cfg.PieceOffset(piece);
              var pieces := s.completedPieces + 1;
              && (ok <==> Covered(|s.disk|, begin, |bytes|) == |bytes|)
              && Abs() == s.(disk := Splat(s.disk, begin, bytes),
                             completedPieces := if ok then pieces else s.completedPieces,
                             needed := s.needed && !(ok && cfg.PieceCount() != 0 && pieces == cfg.PieceCount()))
    {
      hide HashMap.Valid;
      hide ClaimList.Valid;
      hide Concat;
      hide Contiguous;
      hide BitAt;
      hide BitsOf;
      hide Padded;
      hide InRange;
      hide Config.ChunkCount;
      hide Splat;
      hide Covered;
      ConcatLength(files, 0);
      var written;
      files, written := Scatter(files, cfg.PieceOffset(piece), bytes);
      if written != |bytes| {
        return false;
      }
      completedPieces := completedPieces + 1;
      if IsComplete() {
        needed := false;
      }
      ok := true;
    }

    /** torrent_data_write_chunk does what `Write` says, on every chunk index that the bitfield has. */
    method WriteChunk(chunk: nat, bytes: seq<byte>) returns (ok: bool)
      requires Valid() && chunk < 8 * BytesFor(cfg.ChunkCount()) && cfg.pieceSize <= TWO_32 - 64
      modifies this, completed.bytes, data, data.buckets
      ensures Valid() && chunk < |old(Abs()).completed|
      ensures (Abs(), ok) == Write(TheSetup(), old(Abs()), chunk, bytes)
    {
      hide HashMap.Valid;
      hide ClaimList.Valid;
      hide Concat;
      hide Contiguous;
      hide BitAt;
      hide BitsOf;
      hide Padded;
      hide InRange;
      hide Config.ChunkCount;
      hide Settle;
      hide JustDone;
      hide Assembled;
      hide Validates;
      hide PieceSpan;
      hide Config.ChunkPiece;
      var done := completed.GetBit(chunk);
      if done == 1 {
        return false;
      }
      if |bytes| != cfg.ChunkLength(chunk) {
        return false;
      }
      PaddedBit(cfg, completed.Bits(), chunk);
      ok := Accepted(chunk, bytes);
    }

    /** The part of torrent_data_write_chunk after its two checks. */
    method Accepted(chunk: nat, bytes: seq<byte>) returns (ok: bool)
      requires Valid() && chunk < cfg.ChunkCount() && |bytes| == cfg.ChunkLength(chunk) && cfg.pieceSize <= TWO_32 - 64
      modifies this, completed.bytes, data, data.buckets
      ensures Valid() && chunk < |old(Abs()).completed|
      ensures var s, piece := old(Abs()), cfg.ChunkPiece(chunk);
              var image, span := Assembled(TheSetup(), s, chunk, bytes), PieceSpan(cfg, piece);
              var flush := JustDone(TheSetup(), s, chunk) && span <= |image|
                           && Validates(TheSetup(), piece, image[..span]);
              (Abs(), ok) == Settle(TheSetup(), s, chunk, |bytes|, image, flush)
    {
      hide HashMap.Valid;
      hide ClaimList.Valid;
      hide Concat;
      hide Contiguous;
      hide BitAt;
      hide BitsOf;
      hide Padded;
      hide InRange;
      hide Config.ChunkCount;
      hide Settle;
      hide NatText;
      hide ByteTest;
      hide Assembled;
      hide Validates;
      hide Config.ChunkPiece;
      cfg.ChunkExists(chunk);
      cfg.ChunkInside(chunk);
      var piece := cfg.ChunkPiece(chunk);
      cfg.PieceExists(piece);
      ghost var s := Abs();
      var image := TakeBuffer(chunk, bytes);
      var flush := MarkDone(chunk);
      if flush {
        flush := ValidatePiece(piece, image[..cfg.PieceLength(piece)]);
      }
      ok := Finish(chunk, |bytes|, image, flush, s);
    }

    /** Keeps the piece in memory or writes it out, and moves the counters. */
    method Finish(chunk: nat, size: nat, image: seq<byte>, flush: bool, ghost s: State) returns (ok: bool)
      requires Valid() && chunk < |s.completed|
      requires 0 <= cfg.PieceLength(cfg.ChunkPiece(chunk)) <= |image| == cfg.pieceSize
      requires Abs() ==
               s.(completed := s.completed[chunk := true], buffers := s.buffers - {PieceKey(cfg.ChunkPiece(chunk))})
      modifies this, data, data.buckets
      ensures Valid()
      ensures (Abs(), ok) == Settle(TheSetup(), s, chunk, size, image, flush)
    {
      hide HashMap.Valid;
      hide ClaimList.Valid;
      hide Concat;
      hide Contiguous;
      hide BitAt;
      hide BitsOf;
      hide Padded;
      hide InRange;
      hide Config.ChunkCount;
      hide Splat;
      hide Covered;
      hide NatText;
      hide Config.ChunkPiece;
      hide Config.PieceCount;
      var piece := cfg.ChunkPiece(chunk);
      if flush {
        ok := Flush(piece, image[..cfg.PieceLength(piece)]);
        if !ok {
          return;
        }
      } else {
        HoldBuffer(piece, image);
        PutInstead(s.buffers, PieceKey(piece), image);
        ok := false;
      }
      downloaded := downloaded + size;
      left := left - size;
    }

    /** torrent_data_read_data: each turn gathers the whole piece of `offset` and copies from `offset` to the end of
        that piece. */
    method ReadData(offset: nat, length: nat) returns (r: Option<seq<byte>>)
      requires Valid() && offset < cfg.dataSize
      ensures r == None <==> length > 0 && |Concat(files)| < offset + PieceTail(cfg, offset)
      ensures r.Some? && length > 0 ==>
                && 0 < PieceTail(cfg, offset) && offset + PieceTail(cfg, offset) <= |Concat(files)|
                && r.value == Repeated(Concat(files), offset, PieceTail(cfg, offset), length)
      ensures length == 0 ==> r == Some([])
    {
      hide Repeated;
      hide Contiguous;
      hide Concat;
      TailIsPositive(cfg, offset);
      ConcatLength(files, 0);
      ghost var disk, tail := Concat(files), PieceTail(cfg, offset);
      var out: seq<byte> := [];
      while |out| < length
        invariant |out| <= length
        invariant |out| > 0 ==> offset + tail <= |disk| && out == Repeated(disk, offset, tail, |out|)
        invariant |out| < length ==> |out| % tail == 0
      {
        var piece := offset / cfg.pieceSize;
        var begin, size := cfg.PieceOffset(piece), cfg.PieceLength(piece);
        var bytes := Gather(files, begin, size);
        if |bytes| != size {
          return None;
        }
        var relativeOffset := offset - begin;
        var n := Min(size - relativeOffset, length - |out|);
        ReadStep(disk, begin, size, offset, tail, out, n);
        out := out + bytes[relativeOffset..relativeOffset + n];
      }
      r := Some(out);
    }

    static lemma ReadStep(disk: seq<byte>, begin: nat, size: nat, offset: nat, tail: nat, out: seq<byte>, n: nat)
      requires begin <= offset && tail == begin + size - offset && 0 < tail && begin + size <= |disk|
      requires out == Repeated(disk, offset, tail, |out|) && |out| % tail == 0 && n <= tail
      ensures out + disk[begin..begin + size][offset - begin..offset - begin + n] ==
              Repeated(disk, offset, tail, |out| + n)
      ensures n == tail ==> (|out| + n) % tail == 0
    {
      hide Repeated;
      RepeatMore(disk, offset, tail, |out|, n);
      Slices.Nested(disk, begin, size, offset - begin, offset - begin + n);
    }
  }
}

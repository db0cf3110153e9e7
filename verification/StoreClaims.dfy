/** Claims over every interleaving of claim, write and release steps. */
module StoreClaims {
  import opened Bytes
  import opened Options
  import opened Geometry
  import opened Files
  import opened Store

  ghost predicate HasRecord(claims: seq<Claim>, chunk: nat) {
    exists k :: 0 <= k < |claims| && claims[k].chunk == chunk
  }

  ghost predicate OneRecordEach(claims: seq<Claim>) {
    forall j, k :: 0 <= j < k < |claims| ==> claims[j].chunk != claims[k].chunk
  }

  /** A chunk has at most one record, a record implies the claimed bit, and a claimed bit implies a record or a
      completed chunk. */
  ghost predicate ClaimInv(setup: Setup, s: State)
    requires setup.Valid()
  {
    && Sized(setup, s)
    && OneRecordEach(s.claims)
    && (forall k :: 0 <= k < |s.claims| ==> s.claimed[s.claims[k].chunk])
    && (forall c :: 0 <= c < setup.cfg.ChunkCount() && s.claimed[c] ==> s.completed[c] || HasRecord(s.claims, c))
  }

  // --- one operation ------------------------------------------------------------------------------------

  /** A new record at the head of the list, for a chunk that was not claimed. */
  lemma PushKeepsInv(setup: Setup, s: State, deadline: int, i: nat)
    requires setup.Valid() && ClaimInv(setup, s) && i < setup.cfg.ChunkCount() && !s.claimed[i]
    ensures ClaimInv(setup, s.(claimed := s.claimed[i := true], claims := [Claim(deadline, i)] + s.claims))
  {
    hide Config.ChunkCount;
    var s' := s.(claimed := s.claimed[i := true], claims := [Claim(deadline, i)] + s.claims);
    assert s'.claims[0].chunk == i;
    assert forall k :: 1 <= k < |s'.claims| ==> s'.claims[k] == s.claims[k - 1];
    forall c | 0 <= c < setup.cfg.ChunkCount() && s'.claimed[c] && !s'.completed[c]
      ensures HasRecord(s'.claims, c)
    {
      if c != i {
        var k :| 0 <= k < |s.claims| && s.claims[k].chunk == c;
        assert s'.claims[k + 1].chunk == c;
      }
    }
  }

  lemma ClaimOneKeepsInv(setup: Setup, s: State, interested: seq<bool>, timeout: int, now: int)
    requires setup.Valid() && ClaimInv(setup, s) && |interested| >= setup.cfg.ChunkCount()
    ensures ClaimInv(setup, ClaimOne(s, interested, timeout, setup.cfg.ChunkCount(), now).0)
  {
    var free := FirstFree(s.claimed, interested, 0, setup.cfg.ChunkCount());
    if free.Some? && timeout != 0 {
      PushKeepsInv(setup, s, now + timeout * 1000, free.value);
    }
  }

  lemma {:induction false} ClaimKeepsInv(setup: Setup, s: State, interested: seq<bool>, timeout: int, clock: nat -> int,
                                         num: nat)
    requires setup.Valid() && ClaimInv(setup, s) && |interested| >= setup.cfg.ChunkCount()
    ensures ClaimInv(setup, ClaimState(s, interested, timeout, setup.cfg.ChunkCount(), clock, num))
  {
    if num > 0 {
      ClaimKeepsInv(setup, s, interested, timeout, clock, num - 1);
      var before := ClaimState(s, interested, timeout, setup.cfg.ChunkCount(), clock, num - 1);
      ClaimOneKeepsInv(setup, before, interested, timeout, clock(num - 1));
    }
  }

  ghost predicate Expired(claims: seq<Claim>, clock: nat -> int, i: nat, k: nat)
    requires k < |claims|
  {
    claims[k].deadline < clock(i + k)
  }

  /** Some expired record gives the chunk back. */
  ghost predicate GivenBack(claims: seq<Claim>, clock: nat -> int, i: nat, completed: seq<bool>, chunk: nat) {
    && chunk < |completed| && !completed[chunk]
    && exists k :: 0 <= k < |claims| && claims[k].chunk == chunk && Expired(claims, clock, i, k)
  }

  lemma {:induction false} FreedBit(claims: seq<Claim>, clock: nat -> int, i: nat, claimed: seq<bool>,
                                    completed: seq<bool>, chunk: nat)
    requires |claimed| == |completed| && InRange(claims, |claimed|) && chunk < |claimed|
    ensures Freed(claims, clock, i, claimed, completed)[chunk] ==
            (claimed[chunk] && !GivenBack(claims, clock, i, completed, chunk))
  {
    if claims != [] {
      var c, rest := claims[0], claims[1..];
      var claimed' := if c.deadline < clock(i) && !completed[c.chunk] then claimed[c.chunk := false] else claimed;
      FreedBit(rest, clock, i + 1, claimed', completed, chunk);
      forall k | 0 <= k < |rest|
        ensures rest[k] == claims[k + 1] && Expired(rest, clock, i + 1, k) == Expired(claims, clock, i, k + 1)
      {
        assert i + 1 + k == i + (k + 1);
      }
      if GivenBack(claims, clock, i, completed, chunk) && !GivenBack(rest, clock, i + 1, completed, chunk) {
        var k :| 0 <= k < |claims| && claims[k].chunk == chunk && Expired(claims, clock, i, k);
        if k > 0 {
          assert rest[k - 1].chunk == chunk && Expired(rest, clock, i + 1, k - 1);
        }
      }
      if c.chunk == chunk && Expired(claims, clock, i, 0) && !completed[chunk] {
        assert GivenBack(claims, clock, i, completed, chunk);
      }
      if GivenBack(rest, clock, i + 1, completed, chunk) {
        var k :| 0 <= k < |rest| && rest[k].chunk == chunk && Expired(rest, clock, i + 1, k);
        assert claims[k + 1].chunk == chunk && Expired(claims, clock, i, k + 1);
      }
    }
  }

  /** The position in the list of the k-th record that is kept. */
  ghost function Origin(claims: seq<Claim>, clock: nat -> int, i: nat, k: nat): (j: nat)
    requires k < |Kept(claims, clock, i)|
    ensures j < |claims| && claims[j] == Kept(claims, clock, i)[k] && !Expired(claims, clock, i, j)
  {
    if claims[0].deadline < clock(i) then 1 + Origin(claims[1..], clock, i + 1, k)
    else if k == 0 then 0
    else 1 + Origin(claims[1..], clock, i + 1, k - 1)
  }

  /** The kept records are the unexpired ones, all of them, in their old order. */
  lemma {:induction false} KeptOrder(claims: seq<Claim>, clock: nat -> int, i: nat, j: nat, k: nat)
    requires j < k < |Kept(claims, clock, i)|
    ensures Origin(claims, clock, i, j) < Origin(claims, clock, i, k)
  {
    hide Expired;
    var rest := claims[1..];
    if claims[0].deadline < clock(i) {
      assert Kept(claims, clock, i) == Kept(rest, clock, i + 1);
      KeptOrder(rest, clock, i + 1, j, k);
    } else if j > 0 {
      assert |Kept(claims, clock, i)| == 1 + |Kept(rest, clock, i + 1)|;
      KeptOrder(rest, clock, i + 1, j - 1, k - 1);
    }
  }

  lemma {:induction false} KeptAll(claims: seq<Claim>, clock: nat -> int, i: nat, j: nat) returns (k: nat)
    requires j < |claims| && !Expired(claims, clock, i, j)
    ensures k < |Kept(claims, clock, i)| && Kept(claims, clock, i)[k] == claims[j]
  {
    if j == 0 {
      k := 0;
    } else {
      assert !Expired(claims[1..], clock, i + 1, j - 1);
      k := KeptAll(claims[1..], clock, i + 1, j - 1);
      k := if claims[0].deadline < clock(i) then k else k + 1;
    }
  }

  lemma ReleaseKeepsInv(setup: Setup, s: State, clock: nat -> int)
    requires setup.Valid() && ClaimInv(setup, s)
    ensures ClaimInv(setup, Release(s, clock))
  {
    var n := setup.cfg.ChunkCount();
    var s' := Release(s, clock);
    KeptInRange(s.claims, clock, 0, n);
    forall j, k | 0 <= j < k < |s'.claims|
      ensures s'.claims[j].chunk != s'.claims[k].chunk
    {
      KeptOrder(s.claims, clock, 0, j, k);
    }
    forall k | 0 <= k < |s'.claims|
      ensures s'.claimed[s'.claims[k].chunk]
    {
      var j := Origin(s.claims, clock, 0, k);
      FreedBit(s.claims, clock, 0, s.claimed, s.completed, s.claims[j].chunk);
    }
    forall c | 0 <= c < n && s'.claimed[c] && !s'.completed[c]
      ensures HasRecord(s'.claims, c)
    {
      FreedBit(s.claims, clock, 0, s.claimed, s.completed, c);
      var j :| 0 <= j < |s.claims| && s.claims[j].chunk == c;
      var k := KeptAll(s.claims, clock, 0, j);
      assert s'.claims[k].chunk == c;
    }
  }

  lemma WriteKeepsInv(setup: Setup, s: State, chunk: nat, data: seq<byte>)
    requires setup.Valid() && ClaimInv(setup, s) && chunk < |s.completed|
    ensures ClaimInv(setup, Write(setup, s, chunk, data).0)
  {
    hide Assembled;
    hide Splat;
    hide Covered;
    hide JustDone;
    hide Validates;
  }

  // --- every run ----------------------------------------------------------------------------------------

  lemma StepKeepsInv(setup: Setup, s: State, op: Op)
    requires setup.Valid() && ClaimInv(setup, s) && OpValid(setup, op)
    ensures ClaimInv(setup, Step(setup, s, op))
  {
    match op
    case ClaimOp(interested, timeout, clock, num) => ClaimKeepsInv(setup, s, interested, timeout, clock, num);
    case ReleaseOp(clock) => ReleaseKeepsInv(setup, s, clock);
    case WriteOp(chunk, data) => WriteKeepsInv(setup, s, chunk, data);
  }

  lemma InitInv(setup: Setup, disk: seq<byte>, needed: bool)
    requires setup.Valid()
    ensures ClaimInv(setup, Init(setup, disk, needed))
  {
  }

  /** The invariant holds after every sequence of operations. */
  lemma {:induction false} ClaimsAlwaysConsistent(setup: Setup, disk: seq<byte>, needed: bool, ops: seq<Op>)
    requires setup.Valid() && OpsValid(setup, ops)
    ensures Sized(setup, Init(setup, disk, needed)) && ClaimInv(setup, Run(setup, Init(setup, disk, needed), ops))
  {
    InitInv(setup, disk, needed);
    if ops != [] {
      ClaimsAlwaysConsistent(setup, disk, needed, ops[..|ops| - 1]);
      StepKeepsInv(setup, Run(setup, Init(setup, disk, needed), ops[..|ops| - 1]), ops[|ops| - 1]);
    }
  }

  /** A release unlinks exactly the records whose deadline has passed, and frees exactly their uncompleted chunks. */
  lemma ReleaseExact(setup: Setup, s: State, clock: nat -> int)
    requires setup.Valid() && ClaimInv(setup, s)
    ensures var s' := Release(s, clock);
            && (forall k :: 0 <= k < |s.claims| ==>
                (HasRecord(s'.claims, s.claims[k].chunk) <==> !Expired(s.claims, clock, 0, k)))
            && (forall c :: 0 <= c < |s.claimed| ==>
                (s'.claimed[c] <==> s.claimed[c] && !GivenBack(s.claims, clock, 0, s.completed, c)))
            && s' == s.(claims := s'.claims, claimed := s'.claimed)
  {
    var s' := Release(s, clock);
    forall k | 0 <= k < |s.claims|
      ensures HasRecord(s'.claims, s.claims[k].chunk) <==> !Expired(s.claims, clock, 0, k)
    {
      if !Expired(s.claims, clock, 0, k) {
        var j := KeptAll(s.claims, clock, 0, k);
        assert s'.claims[j].chunk == s.claims[k].chunk;
      } else if HasRecord(s'.claims, s.claims[k].chunk) {
        var j :| 0 <= j < |s'.claims| && s'.claims[j].chunk == s.claims[k].chunk;
        var o := Origin(s.claims, clock, 0, j);
        assert false;
      }
    }
    forall c | 0 <= c < |s.claimed|
      ensures s'.claimed[c] <==> s.claimed[c] && !GivenBack(s.claims, clock, 0, s.completed, c)
    {
      FreedBit(s.claims, clock, 0, s.claimed, s.completed, c);
    }
  }

  // --- handing out --------------------------------------------------------------------------------------

  lemma {:induction false} ClaimOnlyAdds(s: State, interested: seq<bool>, timeout: int, n: nat, clock: nat -> int,
                                         num: nat, c: nat)
    requires n <= |s.claimed| && n <= |interested| && c < |s.claimed| && s.claimed[c]
    ensures ClaimState(s, interested, timeout, n, clock, num).claimed[c]
  {
    if num > 0 {
      ClaimOnlyAdds(s, interested, timeout, n, clock, num - 1, c);
    }
  }

  ghost predicate Settled(s: State, c: nat) {
    c < |s.claimed| && c < |s.completed| && s.claimed[c] && s.completed[c]
  }

  lemma StepKeepsSettled(setup: Setup, s: State, op: Op, c: nat)
    requires setup.Valid() && Sized(setup, s) && OpValid(setup, op) && Settled(s, c)
    ensures Settled(Step(setup, s, op), c)
  {
    match op
    case ClaimOp(interested, timeout, clock, num) =>
      ClaimKeepsSize(s, interested, timeout, setup.cfg.ChunkCount(), clock, num);
      ClaimOnlyAdds(s, interested, timeout, setup.cfg.ChunkCount(), clock, num, c);
    case ReleaseOp(clock) =>
      FreedBit(s.claims, clock, 0, s.claimed, s.completed, c);
    case WriteOp(chunk, data) =>
      hide Assembled;
      hide Splat;
      hide Covered;
      hide JustDone;
      hide Validates;
  }

  /** A chunk that completed while it was claimed stays claimed through every run and no later claim hands it out. */
  lemma {:induction false} NeverHandedOutAgain(setup: Setup, s: State, ops: seq<Op>, c: nat,
                                               interested: seq<bool>, timeout: int, clock: nat -> int, k: nat)
    requires setup.Valid() && Sized(setup, s) && OpsValid(setup, ops) && Settled(s, c)
    requires |interested| >= setup.cfg.ChunkCount()
    ensures Settled(Run(setup, s, ops), c)
    ensures ClaimOut(Run(setup, s, ops), interested, timeout, setup.cfg.ChunkCount(), clock, k) != Some(c)
  {
    if ops != [] {
      NeverHandedOutAgain(setup, s, ops[..|ops| - 1], c, interested, timeout, clock, k);
      StepKeepsSettled(setup, Run(setup, s, ops[..|ops| - 1]), ops[|ops| - 1], c);
    }
    ClaimOnlyAdds(Run(setup, s, ops), interested, timeout, setup.cfg.ChunkCount(), clock, k, c);
  }

  /** Exactly the unclaimed chunks can be handed out: the completed bits are not consulted. */
  lemma HandedOutIff(setup: Setup, s: State, c: nat)
    requires setup.Valid() && Sized(setup, s) && c < setup.cfg.ChunkCount()
    ensures (exists interested: seq<bool>, clock: nat -> int :: |interested| >= setup.cfg.ChunkCount()
               && ClaimOut(s, interested, 10, setup.cfg.ChunkCount(), clock, 0) == Some(c))
       <==> !s.claimed[c]
  {
    var n := setup.cfg.ChunkCount();
    if !s.claimed[c] {
      var only := seq(n, i => i == c);
      var clock: nat -> int := _ => 0;
      assert ClaimOut(s, only, 10, n, clock, 0) == FirstFree(s.claimed, only, 0, n);
      assert only[c];
      assert ClaimOut(s, only, 10, n, clock, 0) == Some(c);
    }
  }

  /** So a chunk whose data arrives while nobody holds a claim on it is completed and can still be handed out. */
  lemma CompletedUnclaimed(setup: Setup, s: State, c: nat, data: seq<byte>)
    requires setup.Valid() && ClaimInv(setup, s) && c < setup.cfg.ChunkCount()
    requires !s.completed[c] && |data| == setup.cfg.ChunkLength(c)
    ensures var s' := Write(setup, s, c, data).0; s'.completed[c] && (s'.claimed[c] <==> HasRecord(s.claims, c))
  {
    hide Assembled;
    hide Splat;
    hide Covered;
    hide JustDone;
    hide Validates;
    if HasRecord(s.claims, c) {
      var k :| 0 <= k < |s.claims| && s.claims[k].chunk == c;
      assert s.claimed[s.claims[k].chunk];
    }
  }

  // --- how long a claim lasts ---------------------------------------------------------------------------

  /** A turn that hands out a chunk dates its record `timeout` seconds from the reading of that turn, and later turns
      keep it. */
  lemma {:induction false} TurnIsRecorded(s: State, interested: seq<bool>, timeout: int, n: nat, clock: nat -> int,
                                          num: nat, k: nat, c: nat)
    requires n <= |s.claimed| && n <= |interested| && timeout != 0 && k < num
    requires ClaimOut(s, interested, timeout, n, clock, k) == Some(c)
    ensures Claim(clock(k) + 1000 * timeout, c) in ClaimState(s, interested, timeout, n, clock, num).claims
  {
    hide FirstFree;
    var before := ClaimState(s, interested, timeout, n, clock, num - 1);
    if k < num - 1 {
      TurnIsRecorded(s, interested, timeout, n, clock, num - 1, k, c);
      OnlyAddsRecords(before, interested, timeout, n, clock(num - 1), Claim(clock(k) + 1000 * timeout, c));
    } else {
      assert ClaimOne(before, interested, timeout, n, clock(k)).1 == Some(c);
      assert ClaimOne(before, interested, timeout, n, clock(k)).0.claims[0] == Claim(clock(k) + 1000 * timeout, c);
    }
  }

  lemma OnlyAddsRecords(s: State, interested: seq<bool>, timeout: int, n: nat, now: int, claim: Claim)
    requires n <= |s.claimed| && n <= |interested| && claim in s.claims
    ensures claim in ClaimOne(s, interested, timeout, n, now).0.claims
  {
    hide FirstFree;
  }

  lemma {:induction false} MoreTurnsKeep(s: State, interested: seq<bool>, timeout: int, n: nat, clock: nat -> int,
                                         num: nat, claim: Claim)
    requires n <= |s.claimed| && n <= |interested| && claim in s.claims
    ensures claim in ClaimState(s, interested, timeout, n, clock, num).claims
  {
    hide ClaimOne;
    if num > 0 {
      MoreTurnsKeep(s, interested, timeout, n, clock, num - 1, claim);
      var before := ClaimState(s, interested, timeout, n, clock, num - 1);
      OnlyAddsRecords(before, interested, timeout, n, clock(num - 1), claim);
    }
  }

  /** No release of these reads a time past the deadline. */
  ghost predicate InTime(op: Op, deadline: int) {
    op.ReleaseOp? ==> forall i: nat :: op.clock(i) <= deadline
  }

  lemma StepKeepsRecord(setup: Setup, s: State, op: Op, claim: Claim)
    requires setup.Valid() && Sized(setup, s) && OpValid(setup, op) && claim in s.claims && InTime(op, claim.deadline)
    ensures claim in Step(setup, s, op).claims
  {
    match op
    case ClaimOp(interested, timeout, clock, num) =>
      MoreTurnsKeep(s, interested, timeout, setup.cfg.ChunkCount(), clock, num, claim);
    case ReleaseOp(clock) =>
      var j :| 0 <= j < |s.claims| && s.claims[j] == claim;
      var k := KeptAll(s.claims, clock, 0, j);
      assert Release(s, clock).claims[k] == claim;
    case WriteOp(chunk, data) =>
      WriteKeepsClaims(setup, s, chunk, data);
  }

  lemma WriteKeepsClaims(setup: Setup, s: State, chunk: nat, data: seq<byte>)
    requires setup.Valid() && chunk < |s.completed|
    ensures Write(setup, s, chunk, data).0.claims == s.claims
  {
    hide Assembled;
    hide Splat;
    hide Covered;
    hide JustDone;
    hide Validates;
  }

  lemma {:induction false} RunKeepsRecord(setup: Setup, s: State, ops: seq<Op>, claim: Claim)
    requires setup.Valid() && ClaimInv(setup, s) && OpsValid(setup, ops) && claim in s.claims
    requires forall i :: 0 <= i < |ops| ==> InTime(ops[i], claim.deadline)
    ensures ClaimInv(setup, Run(setup, s, ops)) && claim in Run(setup, s, ops).claims
  {
    hide InTime;
    if ops != [] {
      var front, op := ops[..|ops| - 1], ops[|ops| - 1];
      assert forall i :: 0 <= i < |front| ==> front[i] == ops[i];
      RunKeepsRecord(setup, s, front, claim);
      StepKeepsInv(setup, Run(setup, s, front), op);
      hide ClaimInv;
      StepKeepsRecord(setup, Run(setup, s, front), op, claim);
    }
  }

  lemma RecordIsClaimed(setup: Setup, s: State, claim: Claim)
    requires setup.Valid() && ClaimInv(setup, s) && claim in s.claims
    ensures claim.chunk < |s.claimed| && s.claimed[claim.chunk]
  {
    var k :| 0 <= k < |s.claims| && s.claims[k] == claim;
    assert s.claimed[s.claims[k].chunk];
  }

  /** A chunk that turn `k` of a claim handed out is claimed through every later run, as long as no release reads a time
      more than `timeout` seconds after that turn. A release that only reads such times gives it back, unless its data
      has come. */
  lemma ClaimLasts(setup: Setup, s: State, interested: seq<bool>, timeout: int, clock: nat -> int, num: nat, k: nat,
                   c: nat, ops: seq<Op>, late: nat -> int)
    requires setup.Valid() && ClaimInv(setup, s) && |interested| >= setup.cfg.ChunkCount() && OpsValid(setup, ops)
    requires timeout != 0 && k < num && ClaimOut(s, interested, timeout, setup.cfg.ChunkCount(), clock, k) == Some(c)
    requires forall i :: 0 <= i < |ops| ==> InTime(ops[i], clock(k) + 1000 * timeout)
    requires forall i: nat :: late(i) > clock(k) + 1000 * timeout
    ensures OpValid(setup, ClaimOp(interested, timeout, clock, num))
    ensures Sized(setup, Step(setup, s, ClaimOp(interested, timeout, clock, num)))
    ensures var s1 := Run(setup, Step(setup, s, ClaimOp(interested, timeout, clock, num)), ops);
            var s2 := Release(s1, late);
            && c < |s1.claimed| == |s1.completed| == |s2.claimed|
            && HasRecord(s1.claims, c) && s1.claimed[c]
            && !HasRecord(s2.claims, c) && (s2.claimed[c] <==> s1.completed[c])
  {
    var op, claim := ClaimOp(interested, timeout, clock, num), Claim(clock(k) + 1000 * timeout, c);
    StepKeepsInv(setup, s, op);
    TurnIsRecorded(s, interested, timeout, setup.cfg.ChunkCount(), clock, num, k, c);
    var t := Step(setup, s, op);
    assert Sized(setup, t);
    hide Step;
    hide ClaimOut;
    RunKeepsRecord(setup, t, ops, claim);
    RecordIsClaimed(setup, Run(setup, t, ops), claim);
    hide Run;
    hide InTime;
    LateRelease(setup, Run(setup, t, ops), claim, late);
  }

  lemma LateRelease(setup: Setup, s: State, claim: Claim, late: nat -> int)
    requires setup.Valid() && ClaimInv(setup, s) && claim in s.claims && forall i: nat :: late(i) > claim.deadline
    ensures var s', c := Release(s, late), claim.chunk;
            && c < |s.claimed| == |s.completed| == |s'.claimed|
            && HasRecord(s.claims, c) && !HasRecord(s'.claims, c) && (s'.claimed[c] <==> s.completed[c])
  {
    var k :| 0 <= k < |s.claims| && s.claims[k] == claim;
    ReleaseExact(setup, s, late);
    assert s.claimed[s.claims[k].chunk] && Expired(s.claims, late, 0, k);
    hide Release;
  }
}

/** Deterministic replay: keep every block that validates on top of what was kept, report the rest. */
module ReplayHarness {
  import opened Common
  import opened ChainBlocks
  import opened SoulValidation
  import TamperEvidence

  /** `hash`: SHA-256 over everything fed in, in order. */
  type Digest = string -> string

  datatype Snapshot = Snapshot(blocks: nat, lastHash: Option<string>, stateHash: string)

  /** One rejected block: `block_index_<index>: <complaints>`. */
  datatype Rejection = Rejection(index: U64, complaints: seq<Complaint>)

  datatype Report = Report(accepted: nat, rejected: nat, errors: seq<Rejection>, snapshot: Snapshot)

  function HashOf(k: Kernel, b: Block): string { if IsBlank(b.hash) then k.digest(b.Covered()) else b.hash }

  /** A block's hash, or its digest if the hash is blank: what a snapshot goes by. */
  ghost function GivenOrComputed(k: Kernel, b: Block): string {
    if Trim(b.hash) != "" then b.hash else k.digest(Payload(b.index, b.timestamp, b.chain, b.data, b.prevHash))
  }

  lemma HashIsGivenOrComputed(k: Kernel, b: Block)
    ensures HashOf(k, b) == GivenOrComputed(k, b)
  {
    TrimIsBlank(b.hash);
  }

  function Fed(k: Kernel, blocks: seq<Block>): string {
    if blocks == [] then "" else Fed(k, blocks[..|blocks| - 1]) + HashOf(k, blocks[|blocks| - 1])
  }

  function SnapshotOf(k: Kernel, hash: Digest, blocks: seq<Block>): Snapshot {
    Snapshot(|blocks|,
             if blocks == [] then None else Some(HashOf(k, blocks[|blocks| - 1])),
             hash(Fed(k, blocks)))
  }

  method TakeSnapshot(k: Kernel, hash: Digest, blocks: seq<Block>) returns (s: Snapshot)
    ensures s == SnapshotOf(k, hash, blocks)
    ensures s.blocks == |blocks| && (blocks == [] ==> s.lastHash == None)
    ensures blocks != [] ==> s.lastHash == Some(GivenOrComputed(k, blocks[|blocks| - 1]))
  {
    var fed := "";
    for i := 0 to |blocks|
      invariant fed == Fed(k, blocks[..i])
    {
      assert blocks[..i + 1][..i] == blocks[..i];
      fed := fed + HashOf(k, blocks[i]);
    }
    assert blocks[..|blocks|] == blocks;
    if blocks != [] { HashIsGivenOrComputed(k, blocks[|blocks| - 1]); }
    s := Snapshot(|blocks|, if blocks == [] then None else Some(HashOf(k, blocks[|blocks| - 1])), hash(fed));
  }

  /** The greedy choice: each block is kept exactly when it validates after the last kept one. */
  ghost function Kept(k: Kernel, blocks: seq<Block>): seq<Block> {
    if blocks == [] then []
    else
      var front := Kept(k, blocks[..|blocks| - 1]);
      if Accepts(k, blocks[|blocks| - 1], Last(front), false) then front + [blocks[|blocks| - 1]] else front
  }

  ghost function Rejections(k: Kernel, blocks: seq<Block>): seq<Rejection> {
    if blocks == [] then []
    else
      var b, front := blocks[|blocks| - 1], blocks[..|blocks| - 1];
      if Accepts(k, b, Last(Kept(k, front)), false) then Rejections(k, front)
      else Rejections(k, front) + [Rejection(b.index, Complaints(k, b, Last(Kept(k, front)), false))]
  }

  ghost predicate IsSubsequence(a: seq<Block>, b: seq<Block>) {
    || a == []
    || (b != [] && (
          || IsSubsequence(a, b[..|b| - 1])
          || (a[|a| - 1] == b[|b| - 1] && IsSubsequence(a[..|a| - 1], b[..|b| - 1]))))
  }

  lemma {:induction false} KeptIsValidSubsequence(k: Kernel, blocks: seq<Block>)
    ensures ValidChain(k, Kept(k, blocks))
    ensures IsSubsequence(Kept(k, blocks), blocks)
    ensures |Kept(k, blocks)| + |Rejections(k, blocks)| == |blocks|
  {
    if blocks != [] {
      var b, front := blocks[|blocks| - 1], blocks[..|blocks| - 1];
      KeptIsValidSubsequence(k, front);
      if Accepts(k, b, Last(Kept(k, front)), false) {
        ValidChainExtends(k, Kept(k, front), b);
        assert Kept(k, blocks)[..|Kept(k, blocks)| - 1] == Kept(k, front);
      }
    }
  }

  /** Every block is judged on top of what was kept before it: it is kept in the next place, or reported with what
      validation has against it. */
  lemma {:induction false} EachBlockIsJudged(k: Kernel, blocks: seq<Block>, i: nat)
    requires i < |blocks|
    ensures Judged(k, Kept(k, blocks[..i]), blocks[i], i, Kept(k, blocks), Rejections(k, blocks))
  {
    hide *;
    var n := |blocks| - 1;
    assert blocks[..n][..i] == blocks[..i];
    if i < n {
      EachBlockIsJudged(k, blocks[..n], i);
      JudgedForGood(k, Kept(k, blocks[..i]), blocks[i], i, blocks);
    } else {
      LastIsJudged(k, blocks);
    }
  }

  /** Block `b` at position `i`, met with `before` kept, stands in `kept` or in `rejected` where it should. */
  ghost predicate Judged(k: Kernel, before: seq<Block>, b: Block, i: nat, kept: seq<Block>, rejected: seq<Rejection>) {
    && |before| <= i && before <= kept
    && (if Accepts(k, b, Last(before), false) then before + [b] <= kept
        else i - |before| < |rejected|
             && rejected[i - |before|] == Rejection(b.index, Complaints(k, b, Last(before), false)))
  }

  lemma LastIsJudged(k: Kernel, blocks: seq<Block>)
    requires blocks != []
    ensures var n := |blocks| - 1;
            Judged(k, Kept(k, blocks[..n]), blocks[n], n, Kept(k, blocks), Rejections(k, blocks))
  {
    hide Accepts, Complaints;
    KeptIsValidSubsequence(k, blocks[..|blocks| - 1]);
  }

  /** Later blocks do not change what was decided. */
  lemma JudgedForGood(k: Kernel, before: seq<Block>, b: Block, i: nat, blocks: seq<Block>)
    requires blocks != []
    requires var front := blocks[..|blocks| - 1]; Judged(k, before, b, i, Kept(k, front), Rejections(k, front))
    ensures Judged(k, before, b, i, Kept(k, blocks), Rejections(k, blocks))
  {
    hide Accepts, Complaints;
    var front := blocks[..|blocks| - 1];
    assert Kept(k, front) <= Kept(k, blocks) && Rejections(k, front) <= Rejections(k, blocks);
  }

  /** A chain that already validates is kept whole, and nothing is reported. */
  lemma {:induction false} ValidChainIsKept(k: Kernel, blocks: seq<Block>)
    requires ValidChain(k, blocks)
    ensures Kept(k, blocks) == blocks && Rejections(k, blocks) == []
  {
    if blocks != [] {
      var b, front := blocks[|blocks| - 1], blocks[..|blocks| - 1];
      assert blocks == front + [b];
      ValidChainExtends(k, front, b);
      ValidChainIsKept(k, front);
    }
  }

  ghost function ReportOf(k: Kernel, hash: Digest, blocks: seq<Block>): Report {
    Report(|Kept(k, blocks)|, |Rejections(k, blocks)|, Rejections(k, blocks), SnapshotOf(k, hash, Kept(k, blocks)))
  }

  method Replay(k: Kernel, hash: Digest, blocks: seq<Block>) returns (r: Report)
    ensures r == ReportOf(k, hash, blocks)
    ensures r.accepted + r.rejected == |blocks| && |r.errors| == r.rejected
    ensures r.accepted == r.snapshot.blocks
  {
    var chain: seq<Block> := [];
    var accepted, rejected := 0, 0;
    var errors: seq<Rejection> := [];
    for i := 0 to |blocks|
      invariant chain == Kept(k, blocks[..i]) && accepted == |chain|
      invariant errors == Rejections(k, blocks[..i]) && rejected == |errors|
    {
      assert blocks[..i + 1][..i] == blocks[..i];
      var verdict := ValidateBlock(k, blocks[i], Last(chain));
      match verdict {
        case Ok(_) =>
          chain := chain + [blocks[i]];
          accepted := accepted + 1;
        case Err(complaints) =>
          rejected := rejected + 1;
          errors := errors + [Rejection(blocks[i].index, complaints)];
      }
    }
    assert blocks[..|blocks|] == blocks;
    KeptIsValidSubsequence(k, blocks);
    var snapshot := TakeSnapshot(k, hash, chain);
    r := Report(accepted, rejected, errors, snapshot);
  }

  /** Replaying what a replay kept accepts all of it and lands on the identical snapshot. */
  lemma ReplayIsIdempotent(k: Kernel, hash: Digest, blocks: seq<Block>)
    ensures var first := ReportOf(k, hash, blocks);
            ReportOf(k, hash, Kept(k, blocks)) == Report(first.accepted, 0, [], first.snapshot)
  {
    KeptIsValidSubsequence(k, blocks);
    ValidChainIsKept(k, Kept(k, blocks));
  }

  /** Hashes are fed in whole and in order, computed ones in the place of blank ones. */
  lemma {:induction false} FedSlices(k: Kernel, blocks: seq<Block>, i: nat)
    requires i < |blocks| && forall j :: 0 <= j < |blocks| ==> |GivenOrComputed(k, blocks[j])| == 64
    ensures |Fed(k, blocks)| == 64 * |blocks|
    ensures Fed(k, blocks)[64 * i..64 * i + 64] == GivenOrComputed(k, blocks[i])
  {
    hide HashOf, GivenOrComputed;
    HashIsGivenOrComputed(k, blocks[|blocks| - 1]);
    var n := |blocks| - 1;
    var front, last := Fed(k, blocks[..n]), HashOf(k, blocks[n]);
    if n > 0 { FedSlices(k, blocks[..n], if i < n then i else 0); }
    assert |front| == 64 * n;
    assert i < n ==> (front + last)[64 * i..64 * i + 64] == front[64 * i..64 * i + 64];
    assert (front + last)[64 * n..64 * n + 64] == last;
  }

  /** Of a valid chain the digested text is its hashes, 64 characters each. */
  lemma FedInOrder(k: Kernel, blocks: seq<Block>, i: nat)
    requires ValidChain(k, blocks) && (forall p :: |k.digest(p)| == 64) && i < |blocks|
    ensures |Fed(k, blocks)| == 64 * |blocks|
    ensures Fed(k, blocks)[64 * i..64 * i + 64] == blocks[i].hash
  {
    hide ValidChain, Fed;
    forall j | 0 <= j < |blocks| ensures GivenOrComputed(k, blocks[j]) == blocks[j].hash && |blocks[j].hash| == 64 {
      ValidLink(k, blocks, j);
    }
    FedSlices(k, blocks, i);
  }

  /** Two non-empty replays that report the same state hash kept the same story, or the state digest maps two texts to
      one, or a block digest is broken. */
  lemma SameStateSameStory(k: Kernel, hash: Digest, a: seq<Block>, b: seq<Block>)
      returns (e: TamperEvidence.Evidence)
    requires forall p :: |k.digest(p)| == 64
    requires ReportOf(k, hash, a).snapshot.stateHash == ReportOf(k, hash, b).snapshot.stateHash
    requires Kept(k, a) != [] && Kept(k, b) != []
    ensures var x, y := Fed(k, Kept(k, a)), Fed(k, Kept(k, b));
            (x != y && hash(x) == hash(y)) || TamperEvidence.Holds(k, Kept(k, a), Kept(k, b), e)
  {
    hide Fed, Kept, ValidChain, TamperEvidence.Holds;
    var x, y := Kept(k, a), Kept(k, b);
    KeptIsValidSubsequence(k, a);
    KeptIsValidSubsequence(k, b);
    e := TamperEvidence.Agree;
    if Fed(k, x) == Fed(k, y) {
      SameFedSameTip(k, x, y);
      e := TamperEvidence.SameTipSameChain(k, x, y);
    }
  }

  lemma SameFedSameTip(k: Kernel, x: seq<Block>, y: seq<Block>)
    requires ValidChain(k, x) && ValidChain(k, y) && (forall p :: |k.digest(p)| == 64) && x != [] && y != []
    requires Fed(k, x) == Fed(k, y)
    ensures x[|x| - 1].hash == y[|y| - 1].hash
  {
    hide Fed, ValidChain;
    FedInOrder(k, x, |x| - 1);
    FedInOrder(k, y, |y| - 1);
  }

  /** Two replays that report the same last hash kept the same story, or exhibit a broken hash. */
  lemma SameLastHashSameStory(k: Kernel, hash: Digest, a: seq<Block>, b: seq<Block>)
      returns (e: TamperEvidence.Evidence)
    requires ReportOf(k, hash, a).snapshot.lastHash == ReportOf(k, hash, b).snapshot.lastHash
    requires Kept(k, a) != []
    ensures TamperEvidence.Holds(k, Kept(k, a), Kept(k, b), e)
  {
    var x, y := Kept(k, a), Kept(k, b);
    KeptIsValidSubsequence(k, a);
    KeptIsValidSubsequence(k, b);
    ValidLink(k, x, |x| - 1);
    ValidLink(k, y, |y| - 1);
    e := TamperEvidence.SameTipSameChain(k, x, y);
  }
}

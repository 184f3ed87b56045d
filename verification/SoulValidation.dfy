/** Block validation: one list of complaints, read two ways. */
module SoulValidation {
  import opened Common
  import opened ChainBlocks

  datatype Complaint =
    | ChainEmpty | ChainNullByte | ChainPath | ContentEmpty | TimestampFormat | HashMismatch
    | SignatureRequired | SignatureBroken
    | GenesisIndex | GenesisPrevHash
    | IndexNotSequential | PrevHashMismatch | PrevTimestampFormat | TimestampBeforePrevious

  /** When each complaint is due. */
  predicate Deserves(k: Kernel, b: Block, prev: Option<Block>, strict: bool, c: Complaint) {
    match c
    case ChainEmpty => IsBlank(b.chain)
    case ChainNullByte => '\0' in b.chain
    case ChainPath => HasPathPart(b.chain)
    case ContentEmpty => IsBlank(b.data.content)
    case TimestampFormat => k.instant(b.timestamp).None?
    case HashMismatch => b.hash != k.digest(Payload(b.index, b.timestamp, b.chain, b.data, b.prevHash))
    case SignatureRequired => strict && VerifySignature(k, b).NotVerified?
    case SignatureBroken => VerifySignature(k, b).Malformed?
    case GenesisIndex => prev.None? && b.index != 0 && b.index != 1
    case GenesisPrevHash => prev.None? && b.prevHash != ZERO_HASH
    case IndexNotSequential => prev.Some? && b.index != Next(prev.value.index)
    case PrevHashMismatch => prev.Some? && b.prevHash != prev.value.hash
    case PrevTimestampFormat => prev.Some? && k.instant(prev.value.timestamp).None?
    case TimestampBeforePrevious =>
      && prev.Some? && k.instant(b.timestamp).Some? && k.instant(prev.value.timestamp).Some?
      && k.instant(b.timestamp).value < k.instant(prev.value.timestamp).value
  }

  /** A block nothing can be said against. */
  ghost predicate Accepts(k: Kernel, b: Block, prev: Option<Block>, strict: bool) {
    forall c: Complaint :: !Deserves(k, b, prev, strict, c)
  }

  function When(due: bool, c: Complaint): seq<Complaint> { if due then [c] else [] }

  function ShapeComplaints(k: Kernel, b: Block): (r: seq<Complaint>) {
    When(IsBlank(b.chain), ChainEmpty) + When('\0' in b.chain, ChainNullByte)
    + When(HasPathPart(b.chain), ChainPath) + When(IsBlank(b.data.content), ContentEmpty)
    + When(k.instant(b.timestamp).None?, TimestampFormat)
  }

  function IntegrityComplaints(k: Kernel, b: Block, strict: bool): (r: seq<Complaint>) {
    When(b.hash != k.digest(b.Covered()), HashMismatch)
    + When(strict && VerifySignature(k, b).NotVerified?, SignatureRequired)
    + When(VerifySignature(k, b).Malformed?, SignatureBroken)
  }

  function LinkComplaints(k: Kernel, b: Block, prev: Option<Block>): (r: seq<Complaint>) {
    match prev
    case None =>
      When(b.index != 0 && b.index != 1, GenesisIndex) + When(b.prevHash != ZERO_HASH, GenesisPrevHash)
    case Some(p) =>
      When(b.index != Next(p.index), IndexNotSequential) + When(b.prevHash != p.hash, PrevHashMismatch)
      + When(k.instant(p.timestamp).None?, PrevTimestampFormat)
      + When(k.instant(b.timestamp).Some? && k.instant(p.timestamp).Some?
             && k.instant(b.timestamp).value < k.instant(p.timestamp).value, TimestampBeforePrevious)
  }

  /** The complaints a block gets, in the order validation raises them. */
  function Complaints(k: Kernel, b: Block, prev: Option<Block>, strict: bool): seq<Complaint> {
    ShapeComplaints(k, b) + IntegrityComplaints(k, b, strict) + LinkComplaints(k, b, prev)
  }

  lemma ShapeExact(k: Kernel, b: Block, prev: Option<Block>, strict: bool, c: Complaint)
    ensures c in ShapeComplaints(k, b) <==>
            (c == ChainEmpty || c == ChainNullByte || c == ChainPath || c == ContentEmpty || c == TimestampFormat)
            && Deserves(k, b, prev, strict, c)
  {
    InWhen(IsBlank(b.chain), ChainEmpty, c);
    InWhen('\0' in b.chain, ChainNullByte, c);
    InWhen(HasPathPart(b.chain), ChainPath, c);
    InWhen(IsBlank(b.data.content), ContentEmpty, c);
    InWhen(k.instant(b.timestamp).None?, TimestampFormat, c);
  }

  lemma InWhen(due: bool, raised: Complaint, c: Complaint)
    ensures c in When(due, raised) <==> due && c == raised
  {
  }

  lemma IntegrityExact(k: Kernel, b: Block, prev: Option<Block>, strict: bool, c: Complaint)
    ensures c in IntegrityComplaints(k, b, strict) <==>
            (c == HashMismatch || c == SignatureRequired || c == SignatureBroken) && Deserves(k, b, prev, strict, c)
  {
  }

  lemma LinkExact(k: Kernel, b: Block, prev: Option<Block>, strict: bool, c: Complaint)
    ensures c in LinkComplaints(k, b, prev) <==>
            (c == GenesisIndex || c == GenesisPrevHash || c == IndexNotSequential || c == PrevHashMismatch
             || c == PrevTimestampFormat || c == TimestampBeforePrevious)
            && Deserves(k, b, prev, strict, c)
  {
  }

  /** Exactly the complaints a block deserves are raised. */
  lemma ComplaintsExact(k: Kernel, b: Block, prev: Option<Block>, strict: bool)
    ensures forall c :: c in Complaints(k, b, prev, strict) <==> Deserves(k, b, prev, strict, c)
    ensures Complaints(k, b, prev, strict) == [] <==> Accepts(k, b, prev, strict)
  {
    var all := Complaints(k, b, prev, strict);
    forall c ensures c in all <==> Deserves(k, b, prev, strict, c) {
      ShapeExact(k, b, prev, strict, c);
      IntegrityExact(k, b, prev, strict, c);
      LinkExact(k, b, prev, strict, c);
    }
    if all != [] { assert all[0] in all; }
  }

  /** The place of each complaint in the order in which validation looks for them. */
  function Rank(c: Complaint): nat {
    match c
    case ChainEmpty => 0 case ChainNullByte => 1 case ChainPath => 2 case ContentEmpty => 3 case TimestampFormat => 4
    case HashMismatch => 5 case SignatureRequired => 6 case SignatureBroken => 7
    case GenesisIndex => 8 case GenesisPrevHash => 9
    case IndexNotSequential => 10 case PrevHashMismatch => 11 case PrevTimestampFormat => 12
    case TimestampBeforePrevious => 13
  }

  /** In that order, each at most once, and all of them from one stretch of it. */
  ghost predicate Ranked(cs: seq<Complaint>, from: nat, to: nat) {
    && (forall i, j :: 0 <= i < j < |cs| ==> Rank(cs[i]) < Rank(cs[j]))
    && (forall i :: 0 <= i < |cs| ==> from <= Rank(cs[i]) < to)
  }

  lemma AppendRanked(a: seq<Complaint>, b: seq<Complaint>, from: nat, mid: nat, to: nat)
    requires from <= mid <= to && Ranked(a, from, mid) && Ranked(b, mid, to)
    ensures Ranked(a + b, from, to)
  {
  }

  lemma AppendWhen(a: seq<Complaint>, due: bool, c: Complaint, from: nat)
    requires from <= Rank(c) && Ranked(a, from, Rank(c))
    ensures Ranked(a + When(due, c), from, Rank(c) + 1)
  {
  }

  lemma ShapeRanked(k: Kernel, b: Block)
    ensures Ranked(ShapeComplaints(k, b), 0, 5)
  {
    hide IsBlank, HasPathPart, When, Ranked;
    var a := When(IsBlank(b.chain), ChainEmpty);
    var a1 := a + When('\0' in b.chain, ChainNullByte);
    var a2 := a1 + When(HasPathPart(b.chain), ChainPath);
    var a3 := a2 + When(IsBlank(b.data.content), ContentEmpty);
    RankedOne(IsBlank(b.chain), ChainEmpty);
    AppendWhen(a, '\0' in b.chain, ChainNullByte, 0);
    AppendWhen(a1, HasPathPart(b.chain), ChainPath, 0);
    AppendWhen(a2, IsBlank(b.data.content), ContentEmpty, 0);
    AppendWhen(a3, k.instant(b.timestamp).None?, TimestampFormat, 0);
  }

  lemma RankedOne(due: bool, c: Complaint)
    ensures Ranked(When(due, c), Rank(c), Rank(c) + 1)
  {
  }

  lemma IntegrityRanked(k: Kernel, b: Block, strict: bool)
    ensures Ranked(IntegrityComplaints(k, b, strict), 5, 8)
  {
  }

  lemma LinkRanked(k: Kernel, b: Block, prev: Option<Block>)
    ensures Ranked(LinkComplaints(k, b, prev), 8, 14)
  {
    match prev
    case None =>
      RankedOne(b.index != 0 && b.index != 1, GenesisIndex);
      AppendWhen(When(b.index != 0 && b.index != 1, GenesisIndex), b.prevHash != ZERO_HASH, GenesisPrevHash, 8);
    case Some(p) => FollowRanked(k, b, p);
  }

  lemma FollowRanked(k: Kernel, b: Block, p: Block)
    ensures Ranked(LinkComplaints(k, b, Some(p)), 8, 14)
  {
    hide When, Ranked;
    var a := When(b.index != Next(p.index), IndexNotSequential);
    var a1 := a + When(b.prevHash != p.hash, PrevHashMismatch);
    var a2 := a1 + When(k.instant(p.timestamp).None?, PrevTimestampFormat);
    var late := k.instant(b.timestamp).Some? && k.instant(p.timestamp).Some?
                && k.instant(b.timestamp).value < k.instant(p.timestamp).value;
    RankedOne(b.index != Next(p.index), IndexNotSequential);
    AppendWhen(a, b.prevHash != p.hash, PrevHashMismatch, 10);
    AppendWhen(a1, k.instant(p.timestamp).None?, PrevTimestampFormat, 10);
    AppendWhen(a2, late, TimestampBeforePrevious, 10);
    RankedWiden(a2 + When(late, TimestampBeforePrevious));
  }

  lemma RankedWiden(cs: seq<Complaint>)
    requires Ranked(cs, 10, 14)
    ensures Ranked(cs, 8, 14)
  {
  }

  /** The errors are listed in the order in which validation looks for them. */
  lemma ComplaintsInOrder(k: Kernel, b: Block, prev: Option<Block>, strict: bool)
    ensures Ranked(Complaints(k, b, prev, strict), 0, 14)
  {
    hide ShapeComplaints, IntegrityComplaints, LinkComplaints, Ranked;
    var shape, integrity := ShapeComplaints(k, b), IntegrityComplaints(k, b, strict);
    ShapeRanked(k, b);
    IntegrityRanked(k, b, strict);
    LinkRanked(k, b, prev);
    AppendRanked(shape, integrity, 0, 5, 8);
    AppendRanked(shape + integrity, LinkComplaints(k, b, prev), 0, 8, 14);
  }

  /** Names and content are usable, the time reads, and the hash is that of the five fields. */
  ghost predicate SoundBlock(k: Kernel, b: Block) {
    && Trim(b.chain) != "" && Trim(b.data.content) != "" && k.instant(b.timestamp).Some?
    && (forall c :: c in b.chain ==> c != '\0' && c != '/' && c != '\\')
    && (forall before, after :: b.chain != before + ".." + after)
    && b.hash == k.digest(Payload(b.index, b.timestamp, b.chain, b.data, b.prevHash))
  }

  /** The signature is absent, or complete and well formed; where demanded it is there and checks out over the hash. */
  ghost predicate SoundSignature(k: Kernel, b: Block, demanded: bool) {
    && b.signer.Some? == b.signature.Some?
    && (b.signer.Some? && b.signature.Some? ==> !k.verify(b.signer.value, b.signature.value, b.hash).Malformed?)
    && (demanded ==> b.signer.Some? && b.signature.Some?
                     && k.verify(b.signer.value, b.signature.value, b.hash).Verified?)
  }

  /** The block begins the chain, or follows the previous one in number, link and time. */
  ghost predicate SoundLink(k: Kernel, b: Block, prev: Option<Block>) {
    match prev
    case None => (b.index == 0 || b.index == 1) && b.prevHash == seq(64, _ => '0')
    case Some(p) =>
      && b.index == (if p.index + 1 == 0x1_0000_0000_0000_0000 then 0 else p.index + 1)
      && b.prevHash == p.hash && k.instant(p.timestamp).Some?
      && (k.instant(b.timestamp).Some? ==> k.instant(p.timestamp).value <= k.instant(b.timestamp).value)
  }

  lemma SoundBlockIff(k: Kernel, b: Block, prev: Option<Block>, strict: bool)
    ensures SoundBlock(k, b) <==> ShapeComplaints(k, b) == [] && !Deserves(k, b, prev, strict, HashMismatch)
  {
    hide IsBlank, HasPathPart, Trim;
    TrimIsBlank(b.chain);
    TrimIsBlank(b.data.content);
    PathPartIff(b.chain);
  }

  lemma SoundSignatureIff(k: Kernel, b: Block, prev: Option<Block>, strict: bool)
    requires !Deserves(k, b, prev, strict, HashMismatch)
    ensures SoundSignature(k, b, strict) <==> IntegrityComplaints(k, b, strict) == []
  {
  }

  lemma SoundLinkIff(k: Kernel, b: Block, prev: Option<Block>)
    ensures SoundLink(k, b, prev) <==> LinkComplaints(k, b, prev) == []
  {
    assert ZERO_HASH == seq(64, _ => '0');
  }

  /** What validation asks of a block, in full. */
  lemma AcceptedIff(k: Kernel, b: Block, prev: Option<Block>, strict: bool)
    ensures Accepts(k, b, prev, strict) <==> SoundBlock(k, b) && SoundSignature(k, b, strict) && SoundLink(k, b, prev)
  {
    ComplaintsExact(k, b, prev, strict);
    SoundBlockIff(k, b, prev, strict);
    SoundLinkIff(k, b, prev);
    if !Deserves(k, b, prev, strict, HashMismatch) {
      SoundSignatureIff(k, b, prev, strict);
    } else {
      IntegrityExact(k, b, prev, strict, HashMismatch);
    }
    hide ShapeComplaints, IntegrityComplaints, LinkComplaints, SoundBlock, SoundSignature, SoundLink, Accepts;
  }

  /** Strict validation demands one thing more: a signature that checks out. */
  lemma StrictAddsSignature(k: Kernel, b: Block, prev: Option<Block>)
    ensures Accepts(k, b, prev, true) <==> Accepts(k, b, prev, false) && VerifySignature(k, b).Verified?
  {
    forall c ensures Deserves(k, b, prev, true, c) <==>
                     Deserves(k, b, prev, false, c) || (c == SignatureRequired && VerifySignature(k, b).NotVerified?) {
    }
    assert Deserves(k, b, prev, true, SignatureRequired) <==> VerifySignature(k, b).NotVerified?;
    assert Deserves(k, b, prev, false, SignatureBroken) <==> VerifySignature(k, b).Malformed?;
  }

  method ValidateBlockInternal(k: Kernel, block: Block, prev: Option<Block>, requireSignature: bool)
    returns (r: Result<(), seq<Complaint>>)
    ensures r.Ok? <==> Accepts(k, block, prev, requireSignature)
    ensures r.Ok? <==> SoundBlock(k, block) && SoundSignature(k, block, requireSignature) && SoundLink(k, block, prev)
    ensures r.Err? ==> r.error == Complaints(k, block, prev, requireSignature)
  {
    var blockTs := k.instant(block.timestamp);
    var errors := ValidateShape(k, block, blockTs);
    var integrity := ValidateIntegrity(k, block, requireSignature);
    var link := ValidateLink(k, block, prev, blockTs);
    errors := errors + integrity + link;
    ComplaintsExact(k, block, prev, requireSignature);
    AcceptedIff(k, block, prev, requireSignature);
    r := if errors == [] then Ok(()) else Err(errors);
  }

  /** The part that looks at the names, the content and the clock. */
  method ValidateShape(k: Kernel, block: Block, blockTs: Option<int>) returns (errors: seq<Complaint>)
    requires blockTs == k.instant(block.timestamp)
    ensures errors == ShapeComplaints(k, block)
  {
    errors := [];
    errors := errors + When(IsBlank(block.chain), ChainEmpty);
    errors := errors + When('\0' in block.chain, ChainNullByte);
    errors := errors + When(HasPathPart(block.chain), ChainPath);
    errors := errors + When(IsBlank(block.data.content), ContentEmpty);
    errors := errors + When(blockTs.None?, TimestampFormat);
  }

  /** The part that recomputes the digest and checks the signature. */
  method ValidateIntegrity(k: Kernel, block: Block, requireSignature: bool) returns (errors: seq<Complaint>)
    ensures errors == IntegrityComplaints(k, block, requireSignature)
  {
    errors := [];
    errors := errors + When(block.hash != k.digest(block.Covered()), HashMismatch);
    match VerifySignature(k, block) {
      case Verified =>
      case NotVerified => errors := errors + When(requireSignature, SignatureRequired);
      case Malformed => errors := errors + [SignatureBroken];
    }
  }

  /** The part that looks at the previous block. */
  method ValidateLink(k: Kernel, block: Block, prev: Option<Block>, blockTs: Option<int>)
    returns (errors: seq<Complaint>)
    requires blockTs == k.instant(block.timestamp)
    ensures errors == LinkComplaints(k, block, prev)
  {
    errors := [];
    match prev {
      case None =>
        errors := errors + When(block.index != 0 && block.index != 1, GenesisIndex);
        errors := errors + When(block.prevHash != ZERO_HASH, GenesisPrevHash);
      case Some(p) =>
        errors := errors + When(block.index != Next(p.index), IndexNotSequential);
        errors := errors + When(block.prevHash != p.hash, PrevHashMismatch);
        var prevTs := k.instant(p.timestamp);
        errors := errors + When(prevTs.None?, PrevTimestampFormat);
        if blockTs.Some? && prevTs.Some? {
          errors := errors + When(blockTs.value < prevTs.value, TimestampBeforePrevious);
        }
    }
  }

  method ValidateBlock(k: Kernel, block: Block, prev: Option<Block>) returns (r: Result<(), seq<Complaint>>)
    ensures r.Ok? <==> Accepts(k, block, prev, false)
    ensures r.Ok? <==> SoundBlock(k, block) && SoundSignature(k, block, false) && SoundLink(k, block, prev)
    ensures r.Err? ==> r.error == Complaints(k, block, prev, false)
  {
    r := ValidateBlockInternal(k, block, prev, false);
  }

  method ValidateBlockStrict(k: Kernel, block: Block, prev: Option<Block>) returns (r: Result<(), seq<Complaint>>)
    ensures r.Ok? <==> Accepts(k, block, prev, true)
    ensures r.Ok? <==> SoundBlock(k, block) && SoundSignature(k, block, true) && SoundLink(k, block, prev)
    ensures r.Err? ==> r.error == Complaints(k, block, prev, true)
  {
    r := ValidateBlockInternal(k, block, prev, true);
  }

  // ---- chains ----

  /** Every block is acceptable after the one before it. */
  ghost predicate ValidChain(k: Kernel, blocks: seq<Block>) {
    forall i :: 0 <= i < |blocks| ==> Accepts(k, blocks[i], Last(blocks[..i]), false)
  }

  lemma ValidChainExtends(k: Kernel, blocks: seq<Block>, b: Block)
    ensures ValidChain(k, blocks + [b]) <==> ValidChain(k, blocks) && Accepts(k, b, Last(blocks), false)
  {
    var all := blocks + [b];
    assert all[..|blocks|] == blocks;
    assert forall i :: 0 <= i < |blocks| ==> all[i] == blocks[i] && all[..i] == blocks[..i];
    if ValidChain(k, all) {
      assert all[|blocks|] == b;
      forall i | 0 <= i < |blocks| ensures Accepts(k, blocks[i], Last(blocks[..i]), false) {
        assert Accepts(k, all[i], Last(all[..i]), false);
      }
    }
  }

  lemma ValidChainPrefix(k: Kernel, blocks: seq<Block>, n: nat)
    requires ValidChain(k, blocks) && n <= |blocks|
    ensures ValidChain(k, blocks[..n])
  {
    forall i | 0 <= i < n ensures blocks[..n][..i] == blocks[..i] && blocks[..n][i] == blocks[i] {}
  }

  /** What one link of a valid chain looks like. */
  lemma ValidLink(k: Kernel, blocks: seq<Block>, i: nat)
    requires ValidChain(k, blocks) && i < |blocks|
    ensures var b := blocks[i];
            && b.hash == k.digest(Payload(b.index, b.timestamp, b.chain, b.data, b.prevHash))
            && k.instant(b.timestamp).Some?
    ensures i == 0 ==> blocks[0].prevHash == ZERO_HASH && (blocks[0].index == 0 || blocks[0].index == 1)
    ensures i > 0 ==> blocks[i].prevHash == blocks[i - 1].hash && blocks[i].index == Next(blocks[i - 1].index)
    ensures i > 0 && k.instant(blocks[i - 1].timestamp).Some? ==>
              k.instant(blocks[i - 1].timestamp).value <= k.instant(blocks[i].timestamp).value
  {
    var prev := Last(blocks[..i]);
    assert Accepts(k, blocks[i], prev, false);
    forall c: Complaint ensures !Deserves(k, blocks[i], prev, false, c) {}
    assert !Deserves(k, blocks[i], prev, false, HashMismatch);
    assert !Deserves(k, blocks[i], prev, false, TimestampFormat);
    if i == 0 {
      assert !Deserves(k, blocks[0], prev, false, GenesisIndex);
      assert !Deserves(k, blocks[0], prev, false, GenesisPrevHash);
    } else {
      assert !Deserves(k, blocks[i], prev, false, IndexNotSequential);
      assert !Deserves(k, blocks[i], prev, false, PrevHashMismatch);
      assert !Deserves(k, blocks[i], prev, false, TimestampBeforePrevious);
    }
  }

  /** Indices count up from 0 or 1, modulo the width of `u64`. */
  lemma {:induction false} IndicesCountUp(k: Kernel, blocks: seq<Block>, i: nat)
    requires ValidChain(k, blocks) && i < |blocks|
    ensures blocks[i].index == (blocks[0].index + i) % U64_SIZE
  {
    ValidLink(k, blocks, i);
    if i > 0 {
      IndicesCountUp(k, blocks, i - 1);
      NextCounts(blocks[0].index, i);
    }
  }

  lemma NextCounts(start: U64, i: int)
    requires i > 0
    ensures Next((start + i - 1) % U64_SIZE) == (start + i) % U64_SIZE
  {
  }

  /** Time never runs backwards between any two blocks, not just between neighbours. */
  lemma {:induction false} TimestampsNonDecreasing(k: Kernel, blocks: seq<Block>, i: nat, j: nat)
    requires ValidChain(k, blocks) && i <= j < |blocks|
    ensures k.instant(blocks[i].timestamp).Some? && k.instant(blocks[j].timestamp).Some?
    ensures k.instant(blocks[i].timestamp).value <= k.instant(blocks[j].timestamp).value
  {
    ValidLink(k, blocks, j);
    if i < j { TimestampsNonDecreasing(k, blocks, i, j - 1); }
  }
}

/** The JSON importer: candidates normalized, deduplicated by hash, re-indexed and linked anew. */
module ImportJson {
  import opened Common
  import opened JsonText
  import opened JsonFields

  /** What a number's text reads as. A long enough run of digits reads as infinity. */
  datatype Number = Finite(value: real) | Infinite

  type Reader = string -> Number

  datatype BlockData = BlockData(kind: Option<string>, content: Option<string>, tags: Option<seq<string>>)

  datatype Block = Block(index: Number, hash: string, prevHash: string, timestamp: Option<string>,
                         chain: Option<string>, data: Option<BlockData>)

  datatype Reason = NotAnObject | MissingHash | DuplicateHash | InvalidIndex | MissingGenesisPrevHash | PrevHashMismatch

  datatype Ref = CandidateRef(i: nat) | HashRef(hash: string)

  datatype Issue = Issue(ref: Ref, reason: Reason)

  datatype Shape = ArrayShape | ObjectBlocks | LegacyChain

  datatype ImportJsonResult = ImportJsonResult(
    imported: nat, valid: bool, skipped: int, shape: Shape, totalCandidates: nat, reconciled: nat,
    indexRewritten: nat, prevHashRewritten: nat, duplicatesSkipped: nat, issues: seq<Issue>, blocks: seq<Block>)

  /** The import gives up on a payload without a list of blocks, and when it reads the hash of a block it does not
      have. */
  datatype ImportError = NoBlocks | NoPreviousBlock

  // ---- one candidate ----

  function PickString(source: seq<Field>, keys: seq<string>): Option<string> {
    if keys == [] then None
    else
      var value := Get(source, keys[0]);
      if value.Str? && value.s != "" then Some(value.s) else PickString(source, keys[1..])
  }

  predicate AllDigits(t: string) { t != "" && forall i :: 0 <= i < |t| ==> '0' <= t[i] <= '9' }

  function PickNumber(source: seq<Field>, keys: seq<string>, number: Reader): Option<Number> {
    if keys == [] then None
    else
      var value := Get(source, keys[0]);
      if value.Num? && number(value.lexeme).Finite? then Some(number(value.lexeme))
      else if value.Str? && AllDigits(value.s) then Some(number(value.s))
      else PickNumber(source, keys[1..], number)
  }

  function PickTags(source: seq<Field>): Option<seq<string>> {
    var value := Get(source, "tags");
    if value.Arr? && forall i :: 0 <= i < |value.items| ==> value.items[i].Str?
    then Some(seq(|value.items|, i requires 0 <= i < |value.items| => value.items[i].s))
    else None
  }

  function Or<T>(a: Option<T>, b: Option<T>): Option<T> { if a.Some? then a else b }

  function NormalizeData(obj: seq<Field>): Option<BlockData> {
    var data := Get(obj, "data");
    var inner := if data.Obj? then data.fields else [];
    var content := Or(PickString(obj, ["content"]), PickString(inner, ["content", "text"]));
    var tags := Or(PickTags(obj), PickTags(inner));
    var kind := Or(PickString(obj, ["type", "block_type"]), PickString(inner, ["type", "block_type"]));
    if content.Some? || tags.Some? || kind.Some? then Some(BlockData(kind, content, tags)) else None
  }

  function NormalizeCandidate(raw: Json, indexHint: nat, number: Reader): Result<Block, Reason> {
    if !raw.Obj? then Err(NotAnObject)
    else
      var obj := raw.fields;
      match PickString(obj, ["hash", "block_hash"])
      case None => Err(MissingHash)
      case Some(hash) =>
        var index := PickNumber(obj, ["index", "idx", "height"], number);
        var prevHash := PickString(obj, ["prev_hash", "prevHash", "previous_hash", "previousHash"]);
        Ok(Block(if index.Some? then index.value else Finite(indexHint as real), hash,
                 if prevHash.Some? then prevHash.value else ZERO_HASH,
                 PickString(obj, ["timestamp", "ts", "created_at"]), PickString(obj, ["chain", "chain_name"]),
                 NormalizeData(obj)))
  }

  // ---- the first loop ----

  function Hashes(blocks: seq<Block>): set<string> { set b | b in blocks :: b.hash }

  /** The blocks kept: each hash once, where it first occurs. */
  function Kept(candidates: seq<Json>, number: Reader): (r: seq<Block>)
    ensures |r| <= |candidates|
  {
    if candidates == [] then []
    else
      var n := |candidates| - 1;
      var front := Kept(candidates[..n], number);
      match NormalizeCandidate(candidates[n], n, number)
      case Err(_) => front
      case Ok(block) => if block.hash in Hashes(front) then front else front + [block]
  }

  /** One issue for every candidate that is not kept. */
  function FirstIssues(candidates: seq<Json>, number: Reader): seq<Issue> {
    if candidates == [] then []
    else FirstIssues(candidates[..|candidates| - 1], number) + LastIssue(candidates, number)
  }

  function LastIssue(candidates: seq<Json>, number: Reader): seq<Issue>
    requires candidates != []
  {
    var n := |candidates| - 1;
    match NormalizeCandidate(candidates[n], n, number)
    case Err(reason) => [Issue(CandidateRef(n), reason)]
    case Ok(block) =>
      if block.hash in Hashes(Kept(candidates[..n], number)) then [Issue(HashRef(block.hash), DuplicateHash)] else []
  }

  // ---- the second loop ----

  function ExpectedPrevHash(blocks: seq<Block>, i: nat): string
    requires i <= |blocks|
  {
    if i == 0 then ZERO_HASH else blocks[i - 1].hash
  }

  /** The block in its place. */
  function Placed(blocks: seq<Block>, i: nat): Block
    requires i < |blocks|
  {
    blocks[i].(index := Finite(i as real), prevHash := ExpectedPrevHash(blocks, i))
  }

  function Relinked(blocks: seq<Block>): (r: seq<Block>)
    ensures |r| == |blocks|
    ensures forall i :: 0 <= i < |blocks| ==> r[i] == Placed(blocks, i)
  {
    seq(|blocks|, i requires 0 <= i < |blocks| => Placed(blocks, i))
  }

  predicate Misplaced(blocks: seq<Block>, i: nat)
    requires i < |blocks|
  {
    blocks[i].index != Finite(i as real)
  }

  predicate Mislinked(blocks: seq<Block>, i: nat)
    requires i < |blocks|
  {
    blocks[i].prevHash != ExpectedPrevHash(blocks, i)
  }

  function IndexRewrites(blocks: seq<Block>): set<nat> { set i: nat | i < |blocks| && Misplaced(blocks, i) }

  function LinkRewrites(blocks: seq<Block>): set<nat> { set i: nat | i < |blocks| && Mislinked(blocks, i) }

  function LinkReason(block: Block, i: nat): Reason {
    if i == 0 && block.prevHash == "" then MissingGenesisPrevHash else PrevHashMismatch
  }

  function LinkIssues(blocks: seq<Block>): seq<Issue> {
    if blocks == [] then []
    else
      var n := |blocks| - 1;
      LinkIssues(blocks[..n])
      + if Mislinked(blocks, n) then [Issue(HashRef(blocks[n].hash), LinkReason(blocks[n], n))] else []
  }

  /** Only a last block may have an index that is not finite: it is dropped, and nothing asks for its hash. */
  predicate Linkable(kept: seq<Block>) { forall i :: 0 <= i < |kept| - 1 ==> kept[i].index.Finite? }

  predicate LastDropped(kept: seq<Block>) { kept != [] && kept[|kept| - 1].index.Infinite? }

  function Usable(kept: seq<Block>): seq<Block> { if LastDropped(kept) then kept[..|kept| - 1] else kept }

  function SecondIssues(kept: seq<Block>): seq<Issue> {
    LinkIssues(Usable(kept)) + if LastDropped(kept) then [Issue(HashRef(kept[|kept| - 1].hash), InvalidIndex)] else []
  }

  // ---- the whole import ----

  function ResolvePayloadShape(payload: Json): Option<(Shape, seq<Json>)> {
    match payload
    case Arr(items) => Some((ArrayShape, items))
    case Obj(fields) =>
      var blocks, chain := Get(fields, "blocks"), Get(fields, "chain");
      if blocks.Arr? then Some((ObjectBlocks, blocks.items))
      else if chain.Arr? then Some((LegacyChain, chain.items))
      else None
    case _ => None
  }

  predicate IsDuplicate(issue: Issue) { issue.reason == DuplicateHash }

  predicate AllDuplicates(issues: seq<Issue>) { forall i :: 0 <= i < |issues| ==> IsDuplicate(issues[i]) }

  function Report(shape: Shape, candidates: seq<Json>, kept: seq<Block>, issues: seq<Issue>): ImportJsonResult {
    var usable := Usable(kept);
    ImportJsonResult(|usable|, AllDuplicates(issues), |candidates| - |usable|, shape,
                     |candidates|, |kept|, |IndexRewrites(usable)|, |LinkRewrites(usable)|,
                     |Filter(issues, IsDuplicate)|, issues, Relinked(usable))
  }

  function Import(payload: Json, number: Reader): Result<ImportJsonResult, ImportError> {
    match ResolvePayloadShape(payload)
    case None => Err(NoBlocks)
    case Some((shape, candidates)) =>
      var kept := Kept(candidates, number);
      if Linkable(kept) then Ok(Report(shape, candidates, kept, FirstIssues(candidates, number) + SecondIssues(kept)))
      else Err(NoPreviousBlock)
  }

  method RunImportJsonPayload(payload: Json, number: Reader) returns (r: Result<ImportJsonResult, ImportError>)
    ensures r == Import(payload, number)
  {
    hide Kept, FirstIssues, SecondIssues, Relinked, IndexRewrites, LinkRewrites, Usable, Linkable, ResolvePayloadShape;
    var resolved := ResolvePayloadShape(payload);
    if resolved == None { return Err(NoBlocks); }
    var (shape, candidates) := resolved.value;
    var deduped, issues := DedupeCandidates(candidates, number);
    var reconciliation := Reconcile(deduped, issues);
    if reconciliation == None { return Err(NoPreviousBlock); }
    var Reconciliation(reconciled, indexRewritten, prevHashRewritten, allIssues) := reconciliation.value;
    r := Ok(ImportJsonResult(|reconciled|, AllDuplicates(allIssues), |candidates| - |reconciled|, shape,
                             |candidates|, |deduped|, indexRewritten, prevHashRewritten,
                             |Filter(allIssues, IsDuplicate)|, allIssues, reconciled));
  }

  datatype Reconciliation = Reconciliation(blocks: seq<Block>, indexRewritten: nat, prevHashRewritten: nat,
      issues: seq<Issue>)

  function Reconciled(kept: seq<Block>, issues: seq<Issue>): Reconciliation {
    Reconciliation(Relinked(Usable(kept)), |IndexRewrites(Usable(kept))|, |LinkRewrites(Usable(kept))|,
                   issues + SecondIssues(kept))
  }

  /** The second loop. It has no result when it asks for the hash of a block that was dropped. */
  method Reconcile(deduped: seq<Block>, firstIssues: seq<Issue>) returns (r: Option<Reconciliation>)
    ensures r == if Linkable(deduped) then Some(Reconciled(deduped, firstIssues)) else None
  {
    hide Relinked, IndexRewrites, LinkRewrites, Reconciled, LastDropped;
    NothingReconciled(firstIssues);
    var reconciled: seq<Block>, indexRewritten: nat, prevHashRewritten: nat, issues := [], 0, 0, firstIssues;
    var i := 0;
    while i < |deduped|
      invariant i <= |deduped|
      invariant Linkable(deduped[..i])
      invariant Reconciliation(reconciled, indexRewritten, prevHashRewritten, issues) ==
          Reconciled(deduped[..i], firstIssues)
    {
      var source := deduped[i];
      ghost var front := deduped[..i];
      assert deduped[..i + 1] == front + [source];
      ReconciledSize(front, firstIssues);
      if i > 0 && i - 1 >= |reconciled| {
        assert !deduped[i - 1].index.Finite?;
        return None;
      }
      var expectedPrevHash := if i == 0 then ZERO_HASH else reconciled[i - 1].hash;
      if source.index.Infinite? {
        issues := issues + [Issue(HashRef(source.hash), InvalidIndex)];
        DroppedStep(front, source, firstIssues);
        i := i + 1;
        continue;
      }
      var out := source;
      if source.index != Finite(i as real) {
        out := out.(index := Finite(i as real));
        indexRewritten := indexRewritten + 1;
      }
      if source.prevHash != expectedPrevHash {
        if i == 0 && source.prevHash == "" {
          issues := issues + [Issue(HashRef(source.hash), MissingGenesisPrevHash)];
        } else {
          issues := issues + [Issue(HashRef(source.hash), PrevHashMismatch)];
        }
        out := out.(prevHash := expectedPrevHash);
        prevHashRewritten := prevHashRewritten + 1;
      }
      PlacedStep(front, source, firstIssues);
      reconciled := reconciled + [out];
      i := i + 1;
    }
    assert deduped[..i] == deduped;
    r := Some(Reconciliation(reconciled, indexRewritten, prevHashRewritten, issues));
  }

  lemma NothingReconciled(issues: seq<Issue>)
    ensures Reconciled([], issues) == Reconciliation([], 0, 0, issues)
  {
    assert Relinked([]) == [];
    assert IndexRewrites([]) == {} && LinkRewrites([]) == {};
  }

  /** A hash is missing exactly after a dropped block; otherwise the last reconciled block has the hash to link to. */
  lemma ReconciledSize(kept: seq<Block>, issues: seq<Issue>)
    ensures |Reconciled(kept, issues).blocks| == |kept| - (if LastDropped(kept) then 1 else 0)
    ensures LastDropped(kept) <==> kept != [] && kept[|kept| - 1].index.Infinite?
    ensures !LastDropped(kept) && kept != [] ==>
              Reconciled(kept, issues).blocks[|kept| - 1].hash == kept[|kept| - 1].hash
  {
  }

  lemma DroppedStep(front: seq<Block>, b: Block, issues: seq<Issue>)
    requires !LastDropped(front) && b.index.Infinite?
    ensures var r := Reconciled(front, issues);
            Reconciled(front + [b], issues) == r.(issues := r.issues + [Issue(HashRef(b.hash), InvalidIndex)])
  {
    var kept := front + [b];
    assert kept[|kept| - 1] == b && kept[..|kept| - 1] == front;
    assert Usable(kept) == front && Usable(front) == front;
  }

  lemma PlacedStep(front: seq<Block>, b: Block, issues: seq<Issue>)
    requires !LastDropped(front) && b.index.Finite?
    ensures var r, kept, n := Reconciled(front, issues), front + [b], |front|;
            Reconciled(kept, issues)
            == Reconciliation(r.blocks + [Placed(kept, n)],
                              r.indexRewritten + (if Misplaced(kept, n) then 1 else 0),
                              r.prevHashRewritten + (if Mislinked(kept, n) then 1 else 0),
                              r.issues + (if Mislinked(kept, n) then [Issue(HashRef(b.hash), LinkReason(b, n))]
                                  else []))
  {
    var kept, n := front + [b], |front|;
    assert kept[|kept| - 1] == b && kept[..n] == front;
    assert !LastDropped(kept) && Usable(kept) == kept && Usable(front) == front;
    RelinkedStep(front, b);
    IndexRewritesStep(front, b);
    LinkRewritesStep(front, b);
  }

  lemma RelinkedStep(front: seq<Block>, b: Block)
    ensures Relinked(front + [b]) == Relinked(front) + [Placed(front + [b], |front|)]
  {
    forall i | 0 <= i < |front| ensures Placed(front + [b], i) == Placed(front, i) {
    }
  }

  lemma IndexRewritesStep(front: seq<Block>, b: Block)
    ensures |IndexRewrites(front + [b])| == |IndexRewrites(front)| + (if Misplaced(front + [b], |front|) then 1 else 0)
  {
    var kept, n := front + [b], |front|;
    forall i: nat ensures i in IndexRewrites(kept) <==> i in IndexRewrites(front) || (i == n && Misplaced(kept, n)) {
      if i < n { assert kept[i] == front[i]; }
    }
    OneMore(IndexRewrites(front), IndexRewrites(kept), n, Misplaced(kept, n));
  }

  lemma LinkRewritesStep(front: seq<Block>, b: Block)
    ensures |LinkRewrites(front + [b])| == |LinkRewrites(front)| + (if Mislinked(front + [b], |front|) then 1 else 0)
  {
    var kept, n := front + [b], |front|;
    forall i: nat ensures i in LinkRewrites(kept) <==> i in LinkRewrites(front) || (i == n && Mislinked(kept, n)) {
      if i < n { assert Mislinked(kept, i) <==> Mislinked(front, i); }
    }
    OneMore(LinkRewrites(front), LinkRewrites(kept), n, Mislinked(kept, n));
  }

  lemma OneMore(a: set<nat>, b: set<nat>, n: nat, more: bool)
    requires n !in a && forall i: nat :: i in b <==> i in a || (i == n && more)
    ensures |b| == |a| + (if more then 1 else 0)
  {
    assert b == a + if more then {n} else {};
  }

  method DedupeCandidates(candidates: seq<Json>, number: Reader) returns (deduped: seq<Block>, issues: seq<Issue>)
    ensures deduped == Kept(candidates, number)
    ensures issues == FirstIssues(candidates, number)
  {
    hide NormalizeCandidate, Kept, FirstIssues;
    NothingKept(number);
    deduped, issues := [], [];
    var seenHash: set<string> := {};
    for i := 0 to |candidates|
      invariant deduped == Kept(candidates[..i], number)
      invariant seenHash == Hashes(deduped)
      invariant issues == FirstIssues(candidates[..i], number)
    {
      OneMoreKept(candidates, i, number);
      match NormalizeCandidate(candidates[i], i, number) {
        case Err(reason) =>
          issues := issues + [Issue(CandidateRef(i), reason)];
        case Ok(block) =>
          if block.hash in seenHash {
            issues := issues + [Issue(HashRef(block.hash), DuplicateHash)];
          } else {
            seenHash := seenHash + {block.hash};
            deduped := deduped + [block];
          }
      }
    }
    assert candidates[..|candidates|] == candidates;
  }

  lemma NothingKept(number: Reader)
    ensures Kept([], number) == [] && FirstIssues([], number) == []
  {
  }

  lemma OneMoreKept(candidates: seq<Json>, i: nat, number: Reader)
    requires i < |candidates|
    ensures var kept, issues := Kept(candidates[..i], number), FirstIssues(candidates[..i], number);
            match NormalizeCandidate(candidates[i], i, number)
            case Err(reason) =>
              Kept(candidates[..i + 1], number) == kept
              && FirstIssues(candidates[..i + 1], number) == issues + [Issue(CandidateRef(i), reason)]
            case Ok(block) =>
              if block.hash in Hashes(kept) then
                Kept(candidates[..i + 1], number) == kept
                && FirstIssues(candidates[..i + 1], number) == issues + [Issue(HashRef(block.hash), DuplicateHash)]
              else
                Kept(candidates[..i + 1], number) == kept + [block]
                    && FirstIssues(candidates[..i + 1], number) == issues
  {
    hide NormalizeCandidate;
    assert candidates[..i + 1][..i] == candidates[..i];
  }

  // ---- what an import keeps ----

  predicate Readable(candidates: seq<Json>, i: nat, number: Reader)
    requires i < |candidates|
  {
    NormalizeCandidate(candidates[i], i, number).Ok?
  }

  function BlockAt(candidates: seq<Json>, i: nat, number: Reader): Block
    requires i < |candidates| && Readable(candidates, i, number)
  {
    NormalizeCandidate(candidates[i], i, number).value
  }

  /** A readable candidate whose hash no earlier readable one has. */
  predicate IsFirst(candidates: seq<Json>, i: nat, number: Reader)
    requires i < |candidates|
  {
    Readable(candidates, i, number) && !Earlier(candidates, i, BlockAt(candidates, i, number).hash, number)
  }

  predicate Earlier(candidates: seq<Json>, n: nat, hash: string, number: Reader)
    requires n <= |candidates|
  {
    exists j :: 0 <= j < n && Readable(candidates, j, number) && BlockAt(candidates, j, number).hash == hash
  }

  /** The blocks of the first-occurring candidates among the first `n`, in order. */
  function Firsts(candidates: seq<Json>, n: nat, number: Reader): seq<Block>
    requires n <= |candidates|
  {
    if n == 0 then []
    else
      Firsts(candidates, n - 1, number)
      + if IsFirst(candidates, n - 1, number) then [BlockAt(candidates, n - 1, number)] else []
  }

  lemma {:induction false} KeptUpTo(candidates: seq<Json>, n: nat, number: Reader)
    requires n <= |candidates|
    ensures Kept(candidates[..n], number) == Firsts(candidates, n, number)
    ensures forall hash :: hash in Hashes(Firsts(candidates, n, number)) <==> Earlier(candidates, n, hash, number)
  {
    hide NormalizeCandidate;
    if n > 0 {
      KeptUpTo(candidates, n - 1, number);
      assert candidates[..n][..n - 1] == candidates[..n - 1];
      forall hash
        ensures Earlier(candidates, n, hash, number) ==
                (Earlier(candidates, n - 1, hash, number)
                 || (Readable(candidates, n - 1, number) && BlockAt(candidates, n - 1, number).hash == hash)) {
      }
    }
  }

  /** The kept blocks are exactly those of the first candidates with each hash, in their order. */
  lemma KeptAreFirsts(candidates: seq<Json>, number: Reader)
    ensures Kept(candidates, number) == Firsts(candidates, |candidates|, number)
    ensures forall i :: 0 <= i < |candidates| && Readable(candidates, i, number) ==>
              exists b :: b in Kept(candidates, number) && b.hash == BlockAt(candidates, i, number).hash
  {
    KeptUpTo(candidates, |candidates|, number);
    assert candidates[..|candidates|] == candidates;
    forall i | 0 <= i < |candidates| && Readable(candidates, i, number)
      ensures exists b :: b in Kept(candidates, number) && b.hash == BlockAt(candidates, i, number).hash {
      assert BlockAt(candidates, i, number).hash in Hashes(Kept(candidates, number));
    }
  }

  predicate DistinctHashes(blocks: seq<Block>) {
    forall i, j :: 0 <= i < j < |blocks| ==> blocks[i].hash != blocks[j].hash
  }

  lemma {:induction false} KeptAreDistinct(candidates: seq<Json>, number: Reader)
    ensures DistinctHashes(Kept(candidates, number))
  {
    hide NormalizeCandidate;
    if candidates != [] {
      KeptAreDistinct(candidates[..|candidates| - 1], number);
    }
  }

  predicate Linked(blocks: seq<Block>) {
    forall i :: 0 <= i < |blocks| ==>
      blocks[i].index == Finite(i as real) && blocks[i].prevHash == if i == 0 then ZERO_HASH else blocks[i - 1].hash
  }

  /** Numbered from zero, each naming the one before it, no hash twice, and every candidate accounted for. */
  lemma ImportedChainIsLinked(payload: Json, number: Reader)
    requires Import(payload, number).Ok?
    ensures var r := Import(payload, number).value;
            && Linked(r.blocks) && DistinctHashes(r.blocks)
            && r.imported == |r.blocks| && r.imported + r.skipped == r.totalCandidates && r.skipped >= 0
  {
    var candidates := ResolvePayloadShape(payload).value.1;
    KeptAreDistinct(candidates, number);
    RelinkedIsLinked(Usable(Kept(candidates, number)));
  }

  lemma RelinkedIsLinked(blocks: seq<Block>)
    ensures Linked(Relinked(blocks))
  {
    var r := Relinked(blocks);
    forall i | 0 <= i < |blocks|
      ensures r[i].index == Finite(i as real) && r[i].prevHash == if i == 0 then ZERO_HASH else r[i - 1].hash {
      assert Relinked(blocks)[i] == Placed(blocks, i);
      if i > 0 { assert Relinked(blocks)[i - 1] == Placed(blocks, i - 1); }
    }
  }

  // ---- what an import reports ----

  /** Every candidate is kept or gets one issue. */
  lemma {:induction false} EveryCandidateCounts(candidates: seq<Json>, number: Reader)
    ensures |Kept(candidates, number)| + |FirstIssues(candidates, number)| == |candidates|
  {
    hide NormalizeCandidate;
    if candidates != [] {
      EveryCandidateCounts(candidates[..|candidates| - 1], number);
    }
  }

  function ReadablePositions(candidates: seq<Json>, n: nat, number: Reader): set<nat>
    requires n <= |candidates|
  {
    set i: nat | i < n && Readable(candidates, i, number)
  }

  lemma {:induction false} FirstDuplicates(candidates: seq<Json>, n: nat, number: Reader)
    requires n <= |candidates|
    ensures |Filter(FirstIssues(candidates[..n], number), IsDuplicate)| + |Kept(candidates[..n], number)|
            == |ReadablePositions(candidates, n, number)|
  {
    hide NormalizeCandidate, LastIssue, IsDuplicate, Kept;
    if n == 0 {
      NothingKept(number);
      assert ReadablePositions(candidates, 0, number) == {};
    } else {
      FirstDuplicates(candidates, n - 1, number);
      var front, all := candidates[..n - 1], candidates[..n];
      assert all[..n - 1] == front;
      FilterConcat(FirstIssues(front, number), LastIssue(all, number), IsDuplicate);
      LastDuplicates(all, number);
      ReadableStep(candidates, n, number);
    }
  }

  lemma ReadableStep(candidates: seq<Json>, n: nat, number: Reader)
    requires 0 < n <= |candidates|
    ensures |ReadablePositions(candidates, n, number)|
            == |ReadablePositions(candidates, n - 1, number)|
                + (if Readable(candidates[..n], n - 1, number) then 1 else 0)
  {
    hide NormalizeCandidate;
    OneMore(ReadablePositions(candidates, n - 1, number), ReadablePositions(candidates, n, number), n - 1,
            Readable(candidates[..n], n - 1, number));
  }

  lemma LastDuplicates(candidates: seq<Json>, number: Reader)
    requires candidates != []
    ensures var n := |candidates| - 1;
            |Filter(LastIssue(candidates, number), IsDuplicate)| + |Kept(candidates, number)|
            == |Kept(candidates[..n], number)| + (if Readable(candidates, n, number) then 1 else 0)
  {
    var issues := LastIssue(candidates, number);
    if issues != [] {
      assert issues == [] + [issues[0]] && issues[..|issues| - 1] == [];
    }
  }

  lemma {:induction false} NoLinkDuplicates(blocks: seq<Block>)
    ensures Filter(LinkIssues(blocks), IsDuplicate) == []
  {
    if blocks != [] {
      var front, issues := LinkIssues(blocks[..|blocks| - 1]), LinkIssues(blocks);
      NoLinkDuplicates(blocks[..|blocks| - 1]);
      assert issues == front || (issues == front + [issues[|front|]] && !IsDuplicate(issues[|front|]));
      assert issues != front ==> issues[..|issues| - 1] == front;
    }
  }

  /** Whatever is skipped is a dropped duplicate, an unreadable candidate, or a last block without a usable index. */
  lemma SkippedIsExplained(payload: Json, number: Reader)
    requires Import(payload, number).Ok?
    ensures var r, candidates := Import(payload, number).value, ResolvePayloadShape(payload).value.1;
            var readable := |ReadablePositions(candidates, |candidates|, number)|;
            && r.duplicatesSkipped == readable - |Kept(candidates, number)|
            && r.skipped == r.duplicatesSkipped + (|candidates| - readable)
                + (if LastDropped(Kept(candidates, number)) then 1 else 0)
  {
    hide NormalizeCandidate, IsDuplicate, Relinked, IndexRewrites, LinkRewrites, ResolvePayloadShape, LinkIssues;
    var candidates := ResolvePayloadShape(payload).value.1;
    var kept := Kept(candidates, number);
    FirstDuplicates(candidates, |candidates|, number);
    assert candidates[..|candidates|] == candidates;
    FilterConcat(FirstIssues(candidates, number), SecondIssues(kept), IsDuplicate);
    NoSecondDuplicates(kept);
  }

  lemma NoSecondDuplicates(kept: seq<Block>)
    ensures Filter(SecondIssues(kept), IsDuplicate) == []
  {
    NoLinkDuplicates(Usable(kept));
    if LastDropped(kept) {
      var dropped := [Issue(HashRef(kept[|kept| - 1].hash), InvalidIndex)];
      FilterConcat(LinkIssues(Usable(kept)), dropped, IsDuplicate);
      assert dropped[..0] == [];
    } else {
      assert SecondIssues(kept) == LinkIssues(Usable(kept));
    }
  }

  lemma AllDuplicatesConcat(a: seq<Issue>, b: seq<Issue>)
    ensures AllDuplicates(a + b) <==> AllDuplicates(a) && AllDuplicates(b)
  {
    assert forall i :: 0 <= i < |a| ==> a[i] == (a + b)[i];
    assert forall i :: 0 <= i < |b| ==> b[i] == (a + b)[|a| + i];
  }

  lemma AllDuplicatesOne(issue: Issue)
    ensures AllDuplicates([issue]) <==> IsDuplicate(issue)
    ensures AllDuplicates([])
  {
    assert [issue][0] == issue;
  }

  lemma {:induction false} FirstIssuesTell(candidates: seq<Json>, n: nat, number: Reader)
    requires n <= |candidates|
    ensures AllDuplicates(FirstIssues(candidates[..n], number)) <==> forall i :: 0 <= i < n ==>
        Readable(candidates, i, number)
  {
    hide NormalizeCandidate, AllDuplicates, LastIssue;
    if n == 0 {
      AllDuplicatesOne(Issue(HashRef(""), DuplicateHash));
    } else {
      FirstIssuesTell(candidates, n - 1, number);
      assert candidates[..n][..n - 1] == candidates[..n - 1];
      LastIssueTells(candidates[..n], number);
      AllDuplicatesConcat(FirstIssues(candidates[..n - 1], number), LastIssue(candidates[..n], number));
      assert Readable(candidates[..n], n - 1, number) <==> Readable(candidates, n - 1, number);
    }
  }

  /** A candidate that cannot be read is not reported as a duplicate. */
  lemma LastIssueTells(candidates: seq<Json>, number: Reader)
    requires candidates != []
    ensures AllDuplicates(LastIssue(candidates, number)) <==> Readable(candidates, |candidates| - 1, number)
  {
    var issues := LastIssue(candidates, number);
    assert issues == [] || issues == [issues[0]];
    if issues != [] { AllDuplicatesOne(issues[0]); }
  }

  lemma {:induction false} LinkIssuesTell(blocks: seq<Block>, n: nat)
    requires n <= |blocks|
    ensures AllDuplicates(LinkIssues(blocks[..n])) <==> forall i :: 0 <= i < n ==> !Mislinked(blocks, i)
  {
    hide AllDuplicates;
    if n == 0 {
      AllDuplicatesOne(Issue(HashRef(""), DuplicateHash));
    } else {
      LinkIssuesTell(blocks, n - 1);
      assert blocks[..n][..n - 1] == blocks[..n - 1];
      assert Mislinked(blocks[..n], n - 1) <==> Mislinked(blocks, n - 1);
      var front := LinkIssues(blocks[..n - 1]);
      var issue := Issue(HashRef(blocks[n - 1].hash), LinkReason(blocks[n - 1], n - 1));
      AllDuplicatesOne(issue);
      AllDuplicatesConcat(front, [issue]);
      AllDuplicatesConcat(front, []);
    }
  }

  lemma SecondIssuesTell(kept: seq<Block>)
    requires Linkable(kept)
    ensures AllDuplicates(SecondIssues(kept)) <==> WellLinked(kept)
  {
    hide AllDuplicates;
    var usable := Usable(kept);
    LinkIssuesTell(usable, |usable|);
    assert usable[..|usable|] == usable;
    WellLinkedMeans(kept);
    if LastDropped(kept) {
      var issue := Issue(HashRef(kept[|kept| - 1].hash), InvalidIndex);
      AllDuplicatesOne(issue);
      AllDuplicatesConcat(LinkIssues(usable), [issue]);
    } else {
      AllDuplicatesOne(Issue(HashRef(""), DuplicateHash));
      AllDuplicatesConcat(LinkIssues(usable), []);
    }
  }

  predicate AllReadable(candidates: seq<Json>, number: Reader) {
    forall i :: 0 <= i < |candidates| ==> Readable(candidates, i, number)
  }

  predicate WellLinked(blocks: seq<Block>) {
    forall i :: 0 <= i < |blocks| ==>
      blocks[i].index.Finite? && blocks[i].prevHash == if i == 0 then ZERO_HASH else blocks[i - 1].hash
  }

  lemma WellLinkedMeans(blocks: seq<Block>)
    ensures WellLinked(blocks) <==> forall i :: 0 <= i < |blocks| ==> blocks[i].index.Finite? && !Mislinked(blocks, i)
  {
    if WellLinked(blocks) {
      forall i | 0 <= i < |blocks| ensures blocks[i].index.Finite? && !Mislinked(blocks, i) {}
    }
    if forall i :: 0 <= i < |blocks| ==> blocks[i].index.Finite? && !Mislinked(blocks, i) {
      forall i | 0 <= i < |blocks|
        ensures blocks[i].index.Finite? && blocks[i].prevHash == if i == 0 then ZERO_HASH else blocks[i - 1].hash {
        assert !Mislinked(blocks, i);
      }
    }
  }

  /** An import is valid exactly when every candidate can be read and the kept blocks were linked already:
      dropped duplicates and wrong indices do not count. */
  lemma ValidIff(payload: Json, number: Reader)
    requires Import(payload, number).Ok?
    ensures var candidates := ResolvePayloadShape(payload).value.1;
            var kept := Kept(candidates, number);
            Import(payload, number).value.valid <==> AllReadable(candidates, number) && WellLinked(kept)
  {
    hide NormalizeCandidate, Kept, FirstIssues, SecondIssues, Relinked, IndexRewrites, LinkRewrites,
        ResolvePayloadShape;
    var candidates := ResolvePayloadShape(payload).value.1;
    var kept := Kept(candidates, number);
    FirstIssuesTell(candidates, |candidates|, number);
    assert candidates[..|candidates|] == candidates;
    SecondIssuesTell(kept);
    AllDuplicatesConcat(FirstIssues(candidates, number), SecondIssues(kept));
    var issues := FirstIssues(candidates, number) + SecondIssues(kept);
    assert Import(payload, number).value.valid == AllDuplicates(issues);
    assert AllDuplicates(FirstIssues(candidates, number)) <==> AllReadable(candidates, number);
    assert AllDuplicates(SecondIssues(kept)) <==> WellLinked(kept);
  }

  /** The import gets through exactly when no kept block but the last has an index that reads as infinity. */
  lemma ImportSucceedsIff(payload: Json, number: Reader)
    ensures Import(payload, number).Ok? <==>
              && ResolvePayloadShape(payload).Some?
              && var candidates := ResolvePayloadShape(payload).value.1;
                 var firsts := Firsts(candidates, |candidates|, number);
                 forall i :: 0 <= i < |firsts| - 1 ==> firsts[i].index.Finite?
  {
    if ResolvePayloadShape(payload).Some? {
      KeptAreFirsts(ResolvePayloadShape(payload).value.1, number);
    }
  }

  /** Two readable candidates with different hashes are both kept. */
  lemma BothKept(x: Json, y: Json, number: Reader)
    requires NormalizeCandidate(x, 0, number).Ok? && NormalizeCandidate(y, 1, number).Ok?
    requires NormalizeCandidate(x, 0, number).value.hash != NormalizeCandidate(y, 1, number).value.hash
    ensures Kept([x, y], number) == [NormalizeCandidate(x, 0, number).value, NormalizeCandidate(y, 1, number).value]
  {
    hide NormalizeCandidate;
    var candidates := [x, y];
    assert candidates[..1] == [x] && [x][..0] == [];
    assert Kept([x], number) == [NormalizeCandidate(x, 0, number).value];
  }

  /** Two blocks, the first with an index that overflows: the second one's link cannot be computed. */
  lemma OverflowingIndexStopsImport(digits: string, number: Reader)
    requires AllDigits(digits) && number(digits).Infinite?
    ensures Import(Arr([Obj([Field("hash", Str("a")), Field("index", Str(digits))]), Obj([Field("hash", Str("b"))])]),
        number)
            == Err(NoPreviousBlock)
  {
    var f := [Field("hash", Str("a")), Field("index", Str(digits))];
    var g := [Field("hash", Str("b"))];
    hide NormalizeCandidate;
    ReadsHash(f, "a", 0, number);
    ReadsHash(g, "b", 1, number);
    ReadsDigits(f, digits, 0, number);
    BothKept(Obj(f), Obj(g), number);
    var kept := [NormalizeCandidate(Obj(f), 0, number).value, NormalizeCandidate(Obj(g), 1, number).value];
    assert !kept[0].index.Finite?;
  }

  lemma ReadsHash(f: seq<Field>, hash: string, hint: nat, number: Reader)
    requires DistinctKeys(f) && f != [] && f[0] == Field("hash", Str(hash)) && hash != ""
    ensures NormalizeCandidate(Obj(f), hint, number).Ok? && NormalizeCandidate(Obj(f), hint, number).value.hash == hash
  {
    GetAt(f, 0);
    assert PickString(f, ["hash", "block_hash"]) == Some(hash);
  }

  lemma ReadsDigits(f: seq<Field>, digits: string, hint: nat, number: Reader)
    requires DistinctKeys(f) && |f| > 1 && f[1] == Field("index", Str(digits)) && AllDigits(digits)
    requires NormalizeCandidate(Obj(f), hint, number).Ok?
    ensures NormalizeCandidate(Obj(f), hint, number).value.index == number(digits)
  {
    GetAt(f, 1);
    assert PickNumber(f, ["index", "idx", "height"], number) == Some(number(digits));
  }
}

/** Blocks loaded for a replay: defaults filled in, put in order, re-indexed and linked anew. */
module ReplayNormalizer {
  import opened Common
  import opened Sorting
  import opened JsonText
  import opened JsonFields
  import opened Numerals

  /** What the runtime supplies: the value of a number's text (`None` when it is not finite), the printer and digest
      of a value, and the collation of timestamps (`a.localeCompare(b)` is not positive). */
  datatype Host = Host(number: string -> Option<real>, stringify: Json -> string, digest: Json -> string,
                       timeOrder: (string, string) -> bool)

  ghost predicate Sane(h: Host) {
    && (forall v :: h.digest(v) != "")
    && (forall n: int :: 0 <= n < MAX_ARRAY_LENGTH ==> h.number(IntText(n)) == Some(n as real))
  }

  datatype ReplayData = ReplayData(blockType: string, content: string, tags: seq<string>)

  datatype ReplayBlock = ReplayBlock(index: nat, timestamp: string, chain: string, data: ReplayData,
                                     prevHash: string, hash: string)

  /** `new Date(0).toISOString()`. */
  const EPOCH: string := "1970-01-01T00:00:00.000Z"

  function NonEmptyOr(v: Json, fallback: string): string { if v.Str? && v.s != "" then v.s else fallback }

  function Strings(items: seq<Json>): seq<string> {
    if items == [] then []
    else Strings(items[..|items| - 1]) + (match items[|items| - 1] case Str(s) => [s] case _ => [])
  }

  function IndexOf(v: Json, h: Host): nat {
    if !v.Num? then 0
    else match h.number(v.lexeme)
      case Some(x) => if x < 0.0 then 0 else x.Floor
      case None => 0
  }

  function NormalizeData(rawData: seq<Field>, h: Host): ReplayData {
    var tags := Get(rawData, "tags");
    var blockType := Get(rawData, "block_type");
    var oldType := Get(rawData, "type");
    var content := Get(rawData, "content");
    ReplayData(
      if blockType.Str? then blockType.s else if oldType.Str? then oldType.s else "journal",
      if content.Str? then content.s else h.stringify(Obj(rawData)),
      if tags.Arr? then Strings(tags.items) else [])
  }

  function NormalizeBlock(raw: Json, fallbackChain: string, h: Host): Option<ReplayBlock> {
    if !raw.Obj? then None
    else
      var data := Get(raw.fields, "data");
      Some(ReplayBlock(
             IndexOf(Get(raw.fields, "index"), h),
             NonEmptyOr(Get(raw.fields, "timestamp"), EPOCH),
             NonEmptyOr(Get(raw.fields, "chain"), fallbackChain),
             NormalizeData(if data.Obj? then data.fields else [], h),
             NonEmptyOr(Get(raw.fields, "prev_hash"), ZERO_HASH),
             NonEmptyOr(Get(raw.fields, "hash"), h.digest(raw))))
  }

  /** The normalized objects among `rawBlocks`, in order. */
  function Parsed(rawBlocks: seq<Json>, chain: string, h: Host): (r: seq<ReplayBlock>)
    ensures |r| <= |rawBlocks|
  {
    if rawBlocks == [] then []
    else
      Parsed(rawBlocks[..|rawBlocks| - 1], chain, h)
      + (match NormalizeBlock(rawBlocks[|rawBlocks| - 1], chain, h) case Some(b) => [b] case None => [])
  }

  /** By index, then by timestamp. */
  function InOrder(h: Host): (ReplayBlock, ReplayBlock) -> bool {
    (a: ReplayBlock, b: ReplayBlock) => a.index < b.index || (a.index == b.index
        && h.timeOrder(a.timestamp, b.timestamp))
  }

  /** A block apart from its place in the chain. */
  function Payload(b: ReplayBlock): ReplayBlock { b.(index := 0, prevHash := "") }

  function Payloads(blocks: seq<ReplayBlock>): (r: seq<ReplayBlock>)
    ensures |r| == |blocks|
    ensures forall i :: 0 <= i < |blocks| ==> r[i] == Payload(blocks[i])
  {
    seq(|blocks|, i requires 0 <= i < |blocks| => Payload(blocks[i]))
  }

  lemma SameBlock(a: ReplayBlock, b: ReplayBlock)
    requires Payload(a) == Payload(b) && a.index == b.index && a.prevHash == b.prevHash
    ensures a == b
  {
    assert a == Payload(a).(index := a.index, prevHash := a.prevHash);
  }

  lemma SamePayload(a: ReplayBlock, b: ReplayBlock)
    requires Payload(a) == Payload(b)
    ensures a.hash == b.hash && a.timestamp == b.timestamp && a.chain == b.chain && a.data == b.data
  {
    assert Payload(a).hash == a.hash && Payload(b).hash == b.hash;
  }

  /** Indices count from zero, and each block names the hash of the one before it. */
  predicate Linked(blocks: seq<ReplayBlock>) { forall i :: 0 <= i < |blocks| ==> LinkedAt(blocks, i) }

  predicate LinkedAt(blocks: seq<ReplayBlock>, i: nat)
    requires i < |blocks|
  {
    blocks[i].index == i && blocks[i].prevHash == if i == 0 then ZERO_HASH else blocks[i - 1].hash
  }

  /** The payloads of the parsed blocks in sorted order, with new links. */
  ghost predicate IsNormalized(rawBlocks: seq<Json>, chain: string, h: Host, normalized: seq<ReplayBlock>) {
    && Linked(normalized)
    && Payloads(normalized) == Payloads(Sort(Parsed(rawBlocks, chain, h), InOrder(h)))
  }

  method NormalizeReplayBlocks(rawBlocks: seq<Json>, chain: string, h: Host) returns (normalized: seq<ReplayBlock>)
    ensures IsNormalized(rawBlocks, chain, h, normalized)
    ensures forall i :: 0 <= i < |normalized| ==> normalized[i].index == i
    ensures normalized != [] ==> normalized[0].prevHash == seq(64, _ => '0')
    ensures forall i :: 0 < i < |normalized| ==> normalized[i].prevHash == normalized[i - 1].hash
  {
    hide Linked, Payloads, Parsed, Sort;
    NothingLinked();
    var parsed := Sort(Parsed(rawBlocks, chain, h), InOrder(h));
    assert parsed[..0] == [];
    normalized := [];
    var idx := 0;
    while idx < |parsed|
      invariant idx <= |parsed| && |normalized| == idx
      invariant Linked(normalized)
      invariant Payloads(normalized) == Payloads(parsed[..idx])
    {
      var current := parsed[idx];
      var relinked := current.(index := idx, prevHash := if idx == 0 then ZERO_HASH else normalized[idx - 1].hash);
      LinkedStep(normalized, relinked);
      PayloadsStep(normalized, relinked);
      PayloadsStep(parsed[..idx], current);
      assert parsed[..idx + 1] == parsed[..idx] + [current];
      normalized := normalized + [relinked];
      idx := idx + 1;
    }
    assert parsed[..idx] == parsed;
    LinkedMeans(normalized);
  }

  lemma NothingLinked()
    ensures Linked([]) && Payloads([]) == []
  {
  }

  lemma LinkedMeans(blocks: seq<ReplayBlock>)
    requires Linked(blocks)
    ensures forall i :: 0 <= i < |blocks| ==> blocks[i].index == i
    ensures blocks != [] ==> blocks[0].prevHash == seq(64, _ => '0')
    ensures forall i :: 0 < i < |blocks| ==> blocks[i].prevHash == blocks[i - 1].hash
  {
    assert ZERO_HASH == seq(64, _ => '0');
    forall i | 0 <= i < |blocks|
      ensures blocks[i].index == i
      ensures i == 0 ==> blocks[i].prevHash == ZERO_HASH
      ensures i > 0 ==> blocks[i].prevHash == blocks[i - 1].hash
    {
      assert LinkedAt(blocks, i);
    }
  }

  lemma LinkedStep(blocks: seq<ReplayBlock>, b: ReplayBlock)
    requires Linked(blocks) && b.index == |blocks|
    requires b.prevHash == if blocks == [] then ZERO_HASH else blocks[|blocks| - 1].hash
    ensures Linked(blocks + [b])
  {
    forall i | 0 <= i < |blocks| ensures LinkedAt(blocks + [b], i) {
      assert LinkedAt(blocks, i);
    }
  }

  lemma PayloadsStep(blocks: seq<ReplayBlock>, b: ReplayBlock)
    ensures Payloads(blocks + [b]) == Payloads(blocks) + [Payload(b)]
  {
  }

  lemma SameLength(a: seq<ReplayBlock>, b: seq<ReplayBlock>)
    requires Payloads(a) == Payloads(b)
    ensures |a| == |b|
  {
    assert |Payloads(a)| == |a| && |Payloads(b)| == |b|;
  }

  lemma SameAt(a: seq<ReplayBlock>, b: seq<ReplayBlock>, i: nat)
    requires Payloads(a) == Payloads(b) && i < |a|
    ensures |a| == |b| && Payload(a[i]) == Payload(b[i]) && a[i].hash == b[i].hash
    ensures a[i].timestamp == b[i].timestamp && a[i].chain == b[i].chain
  {
    assert |Payloads(a)| == |a| && |Payloads(b)| == |b|;
    assert Payloads(a)[i] == Payloads(b)[i];
    SamePayload(a[i], b[i]);
  }

  predicate SameRank(b: ReplayBlock, c: ReplayBlock, h: Host) {
    b.index == c.index && h.timeOrder(b.timestamp, c.timestamp) && h.timeOrder(c.timestamp, b.timestamp)
  }

  function RankOf(b: ReplayBlock, h: Host): ReplayBlock -> bool { (c: ReplayBlock) => SameRank(b, c, h) }

  lemma OrderIsTotal(h: Host)
    requires Total(h.timeOrder) && Transitive(h.timeOrder)
    ensures Total(InOrder(h)) && Transitive(InOrder(h))
  {
    forall a, b ensures InOrder(h)(a, b) || InOrder(h)(b, a) {
      assert h.timeOrder(a.timestamp, b.timestamp) || h.timeOrder(b.timestamp, a.timestamp);
    }
    forall a, b, c | InOrder(h)(a, b) && InOrder(h)(b, c) ensures InOrder(h)(a, c) {
      if h.timeOrder(a.timestamp, b.timestamp) && h.timeOrder(b.timestamp, c.timestamp) {
        assert h.timeOrder(a.timestamp, c.timestamp);
      }
    }
  }

  /** What the replay sees: every loaded object once, by old index and timestamp, and in loading order where these
      agree. */
  lemma NormalizedOrder(rawBlocks: seq<Json>, chain: string, h: Host, normalized: seq<ReplayBlock>, b: ReplayBlock)
    requires Total(h.timeOrder) && Transitive(h.timeOrder)
    requires IsNormalized(rawBlocks, chain, h, normalized)
    ensures exists sorted: seq<ReplayBlock> ::
              && Payloads(sorted) == Payloads(normalized)
              && multiset(sorted) == multiset(Parsed(rawBlocks, chain, h))
              && (forall i, j :: 0 <= i < j < |sorted| ==>
                    || sorted[i].index < sorted[j].index
                    || (sorted[i].index == sorted[j].index && h.timeOrder(sorted[i].timestamp, sorted[j].timestamp)))
              && Filter(sorted, RankOf(b, h)) == Filter(Parsed(rawBlocks, chain, h), RankOf(b, h))
  {
    hide Parsed, Payloads;
    var parsed := Parsed(rawBlocks, chain, h);
    OrderIsTotal(h);
    SortSorts(parsed, InOrder(h));
    SameRankIsClass(b, h);
    SortIsStable(parsed, InOrder(h), RankOf(b, h));
    var sorted := Sort(parsed, InOrder(h));
    assert Payloads(sorted) == Payloads(normalized);
    assert forall i, j :: 0 <= i < j < |sorted| ==> InOrder(h)(sorted[i], sorted[j]);
  }

  lemma SameRankIsClass(b: ReplayBlock, h: Host)
    requires Transitive(InOrder(h))
    ensures IsClass(InOrder(h), RankOf(b, h))
  {
    var le := InOrder(h);
    forall x, y | RankOf(b, h)(x) && RankOf(b, h)(y) ensures le(x, y) { assert le(x, b) && le(b, y); }
  }

  /** There is only one way to relink given payloads. */
  lemma LinksAreDetermined(a: seq<ReplayBlock>, b: seq<ReplayBlock>)
    requires Linked(a) && Linked(b) && Payloads(a) == Payloads(b)
    ensures a == b
  {
    assert |Payloads(a)| == |a| && |Payloads(b)| == |b|;
    forall i | 0 <= i < |a| ensures a[i] == b[i] {
      assert LinkedAt(a, i) && LinkedAt(b, i);
      SameAt(a, b, i);
      if i > 0 { SameAt(a, b, i - 1); }
      SameBlock(a[i], b[i]);
    }
  }

  /** The object a normalized block is written as. */
  function ToJson(b: ReplayBlock): Json { Obj(BlockFields(b)) }

  function BlockFields(b: ReplayBlock): seq<Field> {
    [Field("index", Num(IntText(b.index))), Field("timestamp", Str(b.timestamp)), Field("chain", Str(b.chain)),
     Field("data", Obj(DataFields(b.data))), Field("prev_hash", Str(b.prevHash)), Field("hash", Str(b.hash))]
  }

  function DataFields(d: ReplayData): seq<Field> {
    [Field("block_type", Str(d.blockType)), Field("content", Str(d.content)), Field("tags", Arr(StringItems(d.tags)))]
  }

  function AllToJson(blocks: seq<ReplayBlock>): seq<Json> {
    seq(|blocks|, i requires 0 <= i < |blocks| => ToJson(blocks[i]))
  }

  lemma {:induction false} StringsReadBack(tags: seq<string>)
    ensures Strings(StringItems(tags)) == tags
  {
    if tags != [] {
      StringsReadBack(tags[..|tags| - 1]);
      assert StringItems(tags)[..|tags| - 1] == StringItems(tags[..|tags| - 1]);
    }
  }

  lemma DataReadsBack(d: ReplayData, h: Host)
    ensures NormalizeData(DataFields(d), h) == d
  {
    var f := DataFields(d);
    GetAt(f, 0);
    GetAt(f, 1);
    GetAt(f, 2);
    StringsReadBack(d.tags);
  }

  /** Nothing a reader would fill in with a default is left empty. */
  predicate Complete(b: ReplayBlock, chain: string) {
    b.timestamp != "" && b.hash != "" && b.prevHash != "" && (b.chain != "" || b.chain == chain)
  }

  lemma BlockReadsBack(b: ReplayBlock, chain: string, h: Host)
    requires Sane(h) && Complete(b, chain) && b.index < MAX_ARRAY_LENGTH
    ensures NormalizeBlock(ToJson(b), chain, h) == Some(b)
  {
    var f := BlockFields(b);
    GetAt(f, 0);
    GetAt(f, 1);
    GetAt(f, 2);
    GetAt(f, 3);
    GetAt(f, 4);
    GetAt(f, 5);
    DataReadsBack(b.data, h);
  }

  lemma NormalizedIsComplete(raw: Json, chain: string, h: Host)
    requires Sane(h) && NormalizeBlock(raw, chain, h).Some?
    ensures Complete(NormalizeBlock(raw, chain, h).value, chain)
  {
  }

  lemma {:induction false} ParsedIsComplete(rawBlocks: seq<Json>, chain: string, h: Host)
    requires Sane(h)
    ensures forall b :: b in Parsed(rawBlocks, chain, h) ==> Complete(b, chain)
  {
    if rawBlocks != [] {
      ParsedIsComplete(rawBlocks[..|rawBlocks| - 1], chain, h);
    }
  }

  lemma AllToJsonStep(blocks: seq<ReplayBlock>)
    requires blocks != []
    ensures AllToJson(blocks)[..|blocks| - 1] == AllToJson(blocks[..|blocks| - 1])
    ensures AllToJson(blocks)[|blocks| - 1] == ToJson(blocks[|blocks| - 1])
  {
  }

  lemma {:induction false} AllReadBack(blocks: seq<ReplayBlock>, chain: string, h: Host)
    requires Sane(h) && forall b :: b in blocks ==> Complete(b, chain) && b.index < MAX_ARRAY_LENGTH
    ensures Parsed(AllToJson(blocks), chain, h) == blocks
  {
    hide NormalizeBlock, ToJson, Sane, Complete;
    if blocks != [] {
      AllToJsonStep(blocks);
      AllReadBack(blocks[..|blocks| - 1], chain, h);
      BlockReadsBack(blocks[|blocks| - 1], chain, h);
      ParsedStep(AllToJson(blocks), blocks[|blocks| - 1], chain, h);
      assert blocks == blocks[..|blocks| - 1] + [blocks[|blocks| - 1]];
    }
  }

  lemma ParsedStep(rawBlocks: seq<Json>, b: ReplayBlock, chain: string, h: Host)
    requires rawBlocks != [] && NormalizeBlock(rawBlocks[|rawBlocks| - 1], chain, h) == Some(b)
    ensures Parsed(rawBlocks, chain, h) == Parsed(rawBlocks[..|rawBlocks| - 1], chain, h) + [b]
  {
    hide NormalizeBlock;
  }

  lemma LinkedIndices(blocks: seq<ReplayBlock>)
    requires Linked(blocks)
    ensures forall b :: b in blocks ==> b.index < |blocks|
  {
    forall i | 0 <= i < |blocks| ensures blocks[i].index < |blocks| {
      assert LinkedAt(blocks, i);
    }
  }

  lemma LinkedIsSorted(blocks: seq<ReplayBlock>, h: Host)
    requires Linked(blocks)
    ensures SortedBy(blocks, InOrder(h))
  {
    forall i, j | 0 <= i < j < |blocks| ensures InOrder(h)(blocks[i], blocks[j]) {
      assert LinkedAt(blocks, i) && LinkedAt(blocks, j);
    }
  }

  /** A chain that is linked already comes back as it is. */
  lemma LinkedIsKept(blocks: seq<ReplayBlock>, chain: string, h: Host, normalized: seq<ReplayBlock>)
    requires Sane(h) && |blocks| <= MAX_ARRAY_LENGTH && Linked(blocks) && forall b :: b in blocks ==> Complete(b, chain)
    requires IsNormalized(AllToJson(blocks), chain, h, normalized)
    ensures normalized == blocks
  {
    hide Linked, LinkedAt, Payloads, Parsed, AllToJson, Complete, InOrder, SortedBy;
    LinkedIndices(blocks);
    AllReadBack(blocks, chain, h);
    LinkedIsSorted(blocks, h);
    SortedIsFixed(blocks, InOrder(h));
    LinksAreDetermined(normalized, blocks);
  }

  /** Normalizing what has been normalized changes nothing. */
  lemma NormalizingIsIdempotent(rawBlocks: seq<Json>, chain: string, h: Host, once: seq<ReplayBlock>,
                              twice: seq<ReplayBlock>)
    requires Sane(h) && |rawBlocks| <= MAX_ARRAY_LENGTH
    requires IsNormalized(rawBlocks, chain, h, once) && IsNormalized(AllToJson(once), chain, h, twice)
    ensures twice == once
  {
    hide Parsed, Payloads, InOrder;
    ParsedIsComplete(rawBlocks, chain, h);
    var sorted := Sort(Parsed(rawBlocks, chain, h), InOrder(h));
    forall i | 0 <= i < |once| ensures Complete(once[i], chain) {
      assert LinkedAt(once, i);
      SameAt(once, sorted, i);
      assert sorted[i] in sorted;
      if i > 0 {
        SameAt(once, sorted, i - 1);
        assert sorted[i - 1] in sorted;
      }
    }
    SameLength(once, sorted);
    LinkedIsKept(once, chain, h, twice);
  }
}

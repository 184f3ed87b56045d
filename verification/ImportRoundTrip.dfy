/** Importing what an import has written. */
module ImportRoundTrip {
  import opened Common
  import opened JsonText
  import opened JsonFields
  import opened Numerals
  import opened ImportJson

  /** Array positions read back as themselves. */
  ghost predicate ReadsPositions(number: Reader) {
    forall n: int :: 0 <= n < MAX_ARRAY_LENGTH ==> number(IntText(n)) == Finite(n as real)
  }

  // ---- the file format ----

  function TagsJson(v: Option<seq<string>>): Json {
    match v case Some(tags) => Arr(StringItems(tags)) case None => Undefined
  }

  /** Infinity is written as null. */
  function IndexJson(n: Number): Json { match n case Finite(x) => Num(IntText(x.Floor)) case Infinite => Null }

  function DataFields(d: BlockData): seq<Field> {
    [Field("type", Text(d.kind)), Field("content", Text(d.content)), Field("tags", TagsJson(d.tags))]
  }

  function DataJson(v: Option<BlockData>): Json {
    match v case Some(d) => Obj(Written(DataFields(d))) case None => Undefined
  }

  function BlockFields(b: Block): seq<Field> {
    [Field("index", IndexJson(b.index)), Field("prev_hash", Str(b.prevHash)), Field("hash", Str(b.hash)),
     Field("timestamp", Text(b.timestamp)), Field("chain", Text(b.chain)), Field("data", DataJson(b.data))]
  }

  function ToJson(b: Block): Json { Obj(Written(BlockFields(b))) }

  function AllToJson(blocks: seq<Block>): (r: seq<Json>)
    ensures |r| == |blocks|
    ensures forall i :: 0 <= i < |blocks| ==> r[i] == ToJson(blocks[i])
  {
    seq(|blocks|, i requires 0 <= i < |blocks| => ToJson(blocks[i]))
  }

  /** The document an import writes. */
  function Document(blocks: seq<Block>): Json { Obj([Field("blocks", Arr(AllToJson(blocks)))]) }

  // ---- what an import produces ----

  predicate NotEmpty(v: Option<string>) { v.Some? ==> v.value != "" }

  /** Texts are not empty, and data that says nothing is absent. */
  predicate Complete(b: Block) {
    && b.hash != "" && b.prevHash != "" && NotEmpty(b.timestamp) && NotEmpty(b.chain)
    && (b.data.Some? ==> CompleteData(b.data.value))
  }

  predicate CompleteData(d: BlockData) {
    NotEmpty(d.kind) && NotEmpty(d.content) && (d.kind.Some? || d.content.Some? || d.tags.Some?)
  }

  lemma {:induction false} PickedIsNotEmpty(source: seq<Field>, keys: seq<string>)
    ensures NotEmpty(PickString(source, keys))
  {
    if keys != [] { PickedIsNotEmpty(source, keys[1..]); }
  }

  lemma NormalizedDataIsComplete(obj: seq<Field>)
    ensures NormalizeData(obj).Some? ==> CompleteData(NormalizeData(obj).value)
  {
    hide PickString, PickTags;
    var data := Get(obj, "data");
    var inner := if data.Obj? then data.fields else [];
    PickedIsNotEmpty(obj, ["content"]);
    PickedIsNotEmpty(inner, ["content", "text"]);
    PickedIsNotEmpty(obj, ["type", "block_type"]);
    PickedIsNotEmpty(inner, ["type", "block_type"]);
  }

  lemma NormalizedIsComplete(raw: Json, hint: nat, number: Reader)
    requires NormalizeCandidate(raw, hint, number).Ok?
    ensures Complete(NormalizeCandidate(raw, hint, number).value)
  {
    hide PickString, PickNumber, NormalizeData;
    var obj := raw.fields;
    PickedIsNotEmpty(obj, ["hash", "block_hash"]);
    PickedIsNotEmpty(obj, ["prev_hash", "prevHash", "previous_hash", "previousHash"]);
    PickedIsNotEmpty(obj, ["timestamp", "ts", "created_at"]);
    PickedIsNotEmpty(obj, ["chain", "chain_name"]);
    NormalizedDataIsComplete(obj);
  }

  lemma {:induction false} KeptAreComplete(candidates: seq<Json>, number: Reader)
    ensures forall b :: b in Kept(candidates, number) ==> Complete(b)
  {
    hide NormalizeCandidate, Complete;
    if candidates != [] {
      var n := |candidates| - 1;
      KeptAreComplete(candidates[..n], number);
      if NormalizeCandidate(candidates[n], n, number).Ok? { NormalizedIsComplete(candidates[n], n, number); }
    }
  }

  // ---- reading a written block ----

  lemma PickFirst(source: seq<Field>, keys: seq<string>, s: string)
    requires keys != [] && Get(source, keys[0]) == Str(s) && s != ""
    ensures PickString(source, keys) == Some(s)
  {
  }

  lemma {:induction false} PickNone(source: seq<Field>, keys: seq<string>)
    requires forall i :: 0 <= i < |keys| ==> Get(source, keys[i]) == Undefined
    ensures PickString(source, keys) == None
  {
    if keys != [] { PickNone(source, keys[1..]); }
  }

  /** A text that is absent or not empty comes back when nothing is found under the other keys. */
  lemma PickText(source: seq<Field>, keys: seq<string>, v: Option<string>)
    requires keys != [] && Get(source, keys[0]) == Text(v) && NotEmpty(v)
    requires forall i :: 1 <= i < |keys| ==> Get(source, keys[i]) == Undefined
    ensures PickString(source, keys) == v
  {
    if v.Some? { PickFirst(source, keys, v.value); } else { PickNone(source, keys); }
  }

  lemma PickTagsBack(source: seq<Field>, v: Option<seq<string>>)
    requires Get(source, "tags") == TagsJson(v)
    ensures PickTags(source) == v
  {
    if v.Some? {
      var items := StringItems(v.value);
      assert seq(|items|, i requires 0 <= i < |items| => items[i].s) == v.value;
    }
  }

  lemma BlockFieldsRead(b: Block)
    ensures var f := Written(BlockFields(b));
            && Get(f, "index") == IndexJson(b.index) && Get(f, "prev_hash") == Str(b.prevHash)
                && Get(f, "hash") == Str(b.hash)
            && Get(f, "timestamp") == Text(b.timestamp) && Get(f, "chain") == Text(b.chain)
                && Get(f, "data") == DataJson(b.data)
  {
    var f := BlockFields(b);
    assert DistinctKeys(f);
    forall i | 0 <= i < |f| ensures Get(Written(f), f[i].key) == f[i].value {
      GetAt(f, i);
      WrittenReadsBack(f, f[i].key);
    }
    assert f[0].key == "index" && f[1].key == "prev_hash" && f[2].key == "hash";
    assert f[3].key == "timestamp" && f[4].key == "chain" && f[5].key == "data";
  }

  lemma BlockFieldsMissing(b: Block, key: string)
    requires key !in {"index", "prev_hash", "hash", "timestamp", "chain", "data"}
    ensures Get(Written(BlockFields(b)), key) == Undefined
  {
    GetMissing(BlockFields(b), key);
    WrittenReadsBack(BlockFields(b), key);
  }

  lemma DataFieldsRead(d: BlockData)
    ensures var f := Written(DataFields(d));
            && Get(f, "type") == Text(d.kind) && Get(f, "content") == Text(d.content)
                && Get(f, "tags") == TagsJson(d.tags)
            && Get(f, "text") == Undefined && Get(f, "block_type") == Undefined
  {
    var f := DataFields(d);
    assert DistinctKeys(f);
    forall i | 0 <= i < |f| ensures Get(Written(f), f[i].key) == f[i].value {
      GetAt(f, i);
      WrittenReadsBack(f, f[i].key);
    }
    assert f[0].key == "type" && f[1].key == "content" && f[2].key == "tags";
    GetMissing(f, "text");
    WrittenReadsBack(f, "text");
    GetMissing(f, "block_type");
    WrittenReadsBack(f, "block_type");
  }

  lemma NothingOnTop(b: Block)
    ensures var f := Written(BlockFields(b));
            PickString(f, ["content"]) == None && PickTags(f) == None && PickString(f, ["type", "block_type"]) == None
  {
    hide BlockFields;
    var f := Written(BlockFields(b));
    BlockFieldsMissing(b, "content");
    BlockFieldsMissing(b, "tags");
    BlockFieldsMissing(b, "type");
    BlockFieldsMissing(b, "block_type");
    PickNone(f, ["content"]);
    PickNone(f, ["type", "block_type"]);
  }

  lemma InnerDataReadsBack(d: BlockData)
    requires CompleteData(d)
    ensures var f := Written(DataFields(d));
            && PickString(f, ["content", "text"]) == d.content && PickTags(f) == d.tags
            && PickString(f, ["type", "block_type"]) == d.kind
  {
    hide DataFields;
    var f := Written(DataFields(d));
    DataFieldsRead(d);
    PickText(f, ["content", "text"], d.content);
    PickTagsBack(f, d.tags);
    PickText(f, ["type", "block_type"], d.kind);
  }

  lemma DataReadsBack(b: Block)
    requires Complete(b)
    ensures NormalizeData(Written(BlockFields(b))) == b.data
  {
    hide BlockFields, DataFields, PickString, PickTags;
    NothingOnTop(b);
    BlockFieldsRead(b);
    if b.data.Some? {
      InnerDataReadsBack(b.data.value);
    } else {
      PickNone([], ["content", "text"]);
      PickNone([], ["type", "block_type"]);
      PickTagsBack([], None);
    }
  }

  lemma BlockReadsBack(b: Block, i: nat, hint: nat, number: Reader)
    requires Complete(b) && b.index == Finite(i as real) && ReadsPositions(number) && i < MAX_ARRAY_LENGTH
    ensures NormalizeCandidate(ToJson(b), hint, number) == Ok(b)
  {
    hide BlockFields, PickString, NormalizeData;
    var f := Written(BlockFields(b));
    BlockFieldsRead(b);
    DataReadsBack(b);
    PickFirst(f, ["hash", "block_hash"], b.hash);
    PickFirst(f, ["prev_hash", "prevHash", "previous_hash", "previousHash"], b.prevHash);
    BlockFieldsMissing(b, "ts");
    BlockFieldsMissing(b, "created_at");
    PickText(f, ["timestamp", "ts", "created_at"], b.timestamp);
    BlockFieldsMissing(b, "chain_name");
    PickText(f, ["chain", "chain_name"], b.chain);
    assert number(IntText(i)) == Finite(i as real);
    assert PickNumber(f, ["index", "idx", "height"], number) == Some(b.index);
  }

  // ---- reading a written chain ----

  predicate Importable(blocks: seq<Block>) {
    && |blocks| <= MAX_ARRAY_LENGTH && Linked(blocks) && DistinctHashes(blocks)
    && forall b :: b in blocks ==> Complete(b)
  }

  lemma ReadsBackAt(blocks: seq<Block>, i: nat, hint: nat, number: Reader)
    requires Importable(blocks) && ReadsPositions(number) && i < |blocks|
    ensures NormalizeCandidate(ToJson(blocks[i]), hint, number) == Ok(blocks[i])
  {
    hide NormalizeCandidate, ToJson, Complete;
    assert !Misplaced(blocks, i);
    BlockReadsBack(blocks[i], i, hint, number);
  }

  /** Everything written is kept, and nothing is reported. */
  lemma {:induction false} WrittenIsKept(blocks: seq<Block>, n: nat, number: Reader)
    requires Importable(blocks) && ReadsPositions(number) && n <= |blocks|
    ensures Kept(AllToJson(blocks)[..n], number) == blocks[..n] && FirstIssues(AllToJson(blocks)[..n], number) == []
  {
    hide NormalizeCandidate, ToJson, Importable, ReadsPositions;
    var candidates := AllToJson(blocks)[..n];
    if n > 0 {
      WrittenIsKept(blocks, n - 1, number);
      assert candidates[..n - 1] == AllToJson(blocks)[..n - 1];
      ReadsBackAt(blocks, n - 1, n - 1, number);
      NewHash(blocks, n - 1);
      assert blocks[..n] == blocks[..n - 1] + [blocks[n - 1]];
    }
  }

  lemma NewHash(blocks: seq<Block>, n: nat)
    requires Importable(blocks) && n < |blocks|
    ensures blocks[n].hash !in Hashes(blocks[..n])
  {
  }

  lemma NothingToRewrite(blocks: seq<Block>)
    requires Linked(blocks)
    ensures Relinked(blocks) == blocks && IndexRewrites(blocks) == {} && LinkRewrites(blocks) == {}
    ensures Linkable(blocks) && !LastDropped(blocks) && Usable(blocks) == blocks
  {
    forall i | 0 <= i < |blocks| ensures Placed(blocks, i) == blocks[i] && blocks[i].index.Finite? {
      assert !Misplaced(blocks, i) && !Mislinked(blocks, i);
    }
  }

  lemma {:induction false} NoLinkIssues(blocks: seq<Block>, n: nat)
    requires Linked(blocks) && n <= |blocks|
    ensures LinkIssues(blocks[..n]) == []
  {
    if n > 0 {
      NoLinkIssues(blocks, n - 1);
      assert blocks[..n][..n - 1] == blocks[..n - 1];
      assert !Mislinked(blocks, n - 1);
    }
  }

  /** An import of a written, linked chain changes no block, rewrites nothing, skips nothing and is valid. */
  lemma WrittenChainIsFixed(blocks: seq<Block>, number: Reader)
    requires Importable(blocks) && ReadsPositions(number)
    ensures Import(Document(blocks), number)
            == Ok(ImportJsonResult(|blocks|, true, 0, ObjectBlocks, |blocks|, |blocks|, 0, 0, 0, [], blocks))
  {
    hide ToJson, Kept, FirstIssues, SecondIssues, Linkable, Report, ResolvePayloadShape, Importable, ReadsPositions;
    var candidates := AllToJson(blocks);
    DocumentResolves(blocks);
    WrittenIsKept(blocks, |blocks|, number);
    assert candidates[..|blocks|] == candidates && blocks[..|blocks|] == blocks;
    WrittenReport(blocks, candidates);
  }

  lemma DocumentResolves(blocks: seq<Block>)
    ensures ResolvePayloadShape(Document(blocks)) == Some((ObjectBlocks, AllToJson(blocks)))
  {
    GetAt([Field("blocks", Arr(AllToJson(blocks)))], 0);
  }

  lemma WrittenReport(blocks: seq<Block>, candidates: seq<Json>)
    requires Importable(blocks) && |candidates| == |blocks|
    ensures Linkable(blocks) && [] + SecondIssues(blocks) == []
    ensures Report(ObjectBlocks, candidates, blocks, [])
            == ImportJsonResult(|blocks|, true, 0, ObjectBlocks, |blocks|, |blocks|, 0, 0, 0, [], blocks)
  {
    hide Relinked, IndexRewrites, LinkRewrites, Linked, Usable, LastDropped;
    NothingToRewrite(blocks);
    NoLinkIssues(blocks, |blocks|);
    assert blocks[..|blocks|] == blocks;
  }

  lemma RelinkedIsComplete(blocks: seq<Block>)
    requires forall b :: b in blocks ==> Complete(b)
    ensures forall b :: b in Relinked(blocks) ==> Complete(b)
  {
    forall i | 0 <= i < |blocks| ensures Complete(Relinked(blocks)[i]) {
      assert Relinked(blocks)[i] == Placed(blocks, i) && Complete(blocks[i]);
      if i > 0 { assert Complete(blocks[i - 1]); }
    }
  }

  lemma ImportIsImportable(payload: Json, number: Reader)
    requires Import(payload, number).Ok? && Import(payload, number).value.totalCandidates <= MAX_ARRAY_LENGTH
    ensures Importable(Import(payload, number).value.blocks)
  {
    hide NormalizeCandidate, Kept, FirstIssues, SecondIssues, Relinked, Complete, IndexRewrites, LinkRewrites;
    var candidates := ResolvePayloadShape(payload).value.1;
    ImportedChainIsLinked(payload, number);
    KeptAreComplete(candidates, number);
    var kept := Kept(candidates, number);
    assert forall b :: b in Usable(kept) ==> b in kept;
    RelinkedIsComplete(Usable(kept));
  }

  /** Importing the output of an import gives the same blocks, whatever the first payload looked like. */
  lemma ReimportIsIdentity(payload: Json, number: Reader)
    requires ReadsPositions(number)
    requires Import(payload, number).Ok? && Import(payload, number).value.totalCandidates <= MAX_ARRAY_LENGTH
    ensures var first := Import(payload, number).value;
            Import(Document(first.blocks), number)
            == Ok(ImportJsonResult(first.imported, true, 0, ObjectBlocks, first.imported, first.imported, 0, 0, 0, [],
                first.blocks))
  {
    hide Import;
    ImportedChainIsLinked(payload, number);
    ImportIsImportable(payload, number);
    WrittenChainIsFixed(Import(payload, number).value.blocks, number);
  }
}

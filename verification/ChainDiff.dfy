/** The keyed difference of two replicas of a chain. */
module ChainDiff {
  import opened Common
  import opened OrderedMaps
  import opened JsonText
  import opened Numerals
  import opened CanonicalPrinter
  import opened KeyTexts

  datatype Block = Block(
    index: Option<int>,
    timestamp: Option<string>,
    hash: Option<string>,
    chain: Option<string>,
    data: Option<Json>
  )

  datatype Conflict = Conflict(key: string, local: Block, remote: Block)

  datatype Diff = Diff(localOnly: seq<Block>, remoteOnly: seq<Block>, conflicts: seq<Conflict>)

  /** `block.data ?? {}` */
  function DataOf(b: Block): Json {
    match b.data
    case Some(v) => if v == Null then Obj([]) else v
    case None => Obj([])
  }

  ghost predicate BlockOk(b: Block) { b.data.Some? ==> b.data.value != Undefined && Wf(b.data.value) }

  /** A missing or empty hash, and a missing index, fall through to the next kind of key. */
  function BlockKey(b: Block, le: KeyOrder): string {
    if b.hash.Some? && b.hash.value != "" then "hash:" + b.hash.value
    else if b.index.Some? then "idx:" + IntText(b.index.value)
    else "ts:" + (if b.timestamp.Some? then b.timestamp.value else "unknown") + ":" + StableStringify(DataOf(b), le)
  }

  function Number(n: Option<int>): Json { match n case Some(i) => Num(IntText(i)) case None => Undefined }

  function FingerprintValue(b: Block): Json {
    Obj([Field("index", Number(b.index)),
         Field("timestamp", Text(b.timestamp)),
         Field("hash", Text(b.hash)),
         Field("chain", Text(b.chain)),
         Field("data", DataOf(b))])
  }

  function BlockFingerprint(b: Block, le: KeyOrder): string { StableStringify(FingerprintValue(b), le) }

  /** Blocks that agree on every field, with absent data read as an empty object. */
  ghost predicate SameBlock(a: Block, b: Block) {
    && a.index == b.index && a.timestamp == b.timestamp && a.hash == b.hash && a.chain == b.chain
    && SameValue(DataOf(a), DataOf(b))
  }

  lemma FingerprintWf(b: Block)
    requires BlockOk(b)
    ensures Wf(FingerprintValue(b))
  {
    if b.index.Some? { IntTextIsLexeme(b.index.value); }
    FingerprintKeysDistinct(b);
  }

  lemma FingerprintKeysDistinct(b: Block)
    ensures DistinctKeys(FingerprintValue(b).fields)
  {
    assert "index" != "timestamp" && "index" != "hash" && "index" != "chain" && "index" != "data";
    assert "timestamp" != "hash" && "timestamp" != "chain" && "timestamp" != "data";
    assert "hash"[0] != "chain"[0] && "hash"[0] != "data"[0] && "chain"[0] != "data"[0];
  }

  /** Field by field, the fingerprints of two blocks say what the blocks say. */
  lemma FingerprintSameValue(a: Block, b: Block)
    ensures SameValue(FingerprintValue(a), FingerprintValue(b)) <==> SameBlock(a, b)
  {
    var x, y := FingerprintValue(a).fields, FingerprintValue(b).fields;
    FingerprintKeysDistinct(a);
    AlignedObjects(x, y);
    NumberSame(a.index, b.index);
    TextSame(a.timestamp, b.timestamp);
    TextSame(a.hash, b.hash);
    TextSame(a.chain, b.chain);
    FiveAlike(x, y);
  }

  lemma FiveAlike(x: seq<Field>, y: seq<Field>)
    requires |x| == 5 && |y| == 5
    ensures (forall i :: 0 <= i < |x| ==> SameValue(x[i].value, y[i].value)) <==>
            && SameValue(x[0].value, y[0].value) && SameValue(x[1].value, y[1].value)
                && SameValue(x[2].value, y[2].value)
            && SameValue(x[3].value, y[3].value) && SameValue(x[4].value, y[4].value)
  {
  }

  lemma TextSame(s: Option<string>, t: Option<string>)
    ensures SameValue(Text(s), Text(t)) <==> s == t
  {
  }

  lemma NumberSame(m: Option<int>, n: Option<int>)
    ensures SameValue(Number(m), Number(n)) <==> m == n
  {
    if m.Some? && n.Some? && m != n { IntTextsDiffer(m.value, n.value); }
  }

  lemma IntTextsDiffer(m: int, n: int)
    requires m != n
    ensures IntText(m) != IntText(n)
  {
    if IntText(m) == IntText(n) { IntTextInjective(m, n); }
  }

  /** Equal fingerprints come from equal blocks; equal blocks have equal fingerprints unless their data has
      tied keys. */
  lemma FingerprintDecidesBlock(a: Block, b: Block, le: KeyOrder)
    requires BlockOk(a) && BlockOk(b)
    ensures BlockFingerprint(a, le) == BlockFingerprint(b, le) ==> SameBlock(a, b)
    ensures Ordering(le) && Separated(DataOf(a), le) && SameBlock(a, b) ==>
        BlockFingerprint(a, le) == BlockFingerprint(b, le)
  {
    FingerprintWf(a);
    FingerprintWf(b);
    FingerprintSameValue(a, b);
    TextDecidesValue(FingerprintValue(a), FingerprintValue(b), le);
    if Ordering(le) && Separated(DataOf(a), le) && SameBlock(a, b) { SameBlockSameFields(a, b, le); }
  }

  /** The five fields are always written in one order, so ties among their names do not matter. */
  lemma SameBlockSameFields(a: Block, b: Block, le: KeyOrder)
    requires BlockOk(a) && BlockOk(b) && Ordering(le) && Separated(DataOf(a), le) && SameBlock(a, b)
    ensures Canonical(FingerprintValue(a), le) == Canonical(FingerprintValue(b), le)
  {
    hide SameValue, Ordering, Separated, Canonical, FingerprintValue;
    SameValueSameCanonical(DataOf(a), DataOf(b), le);
    FingerprintShape(a, b);
    AlignedFieldsAgree(FingerprintValue(a).fields, FingerprintValue(b).fields, le);
  }

  /** Two fingerprints have the same five keys in the same order. */
  lemma FingerprintShape(a: Block, b: Block)
    ensures FingerprintValue(a).Obj? && FingerprintValue(b).Obj?
    ensures var x, y := FingerprintValue(a).fields, FingerprintValue(b).fields;
            && |x| == |y| == 5 && (forall n :: 0 <= n < 5 ==> x[n].key == y[n].key)
            && x[4].value == DataOf(a) && y[4].value == DataOf(b)
            && (a.(data := b.data) == b ==> forall n :: 0 <= n < 4 ==> x[n] == y[n])
  {
  }

  /** A block whose data has two keys, in the given order. */
  function PairBlock(j: string, k: string): Block { Block(Some(1), None, Some("h"), None, Some(Pair(j, k))) }

  lemma TiedKeysShowInBlocks(j: string, k: string, le: KeyOrder)
    requires j != k && Tied(le, j, k)
    ensures BlockOk(PairBlock(j, k)) && BlockOk(PairBlock(k, j)) && SameBlock(PairBlock(j, k), PairBlock(k, j))
    ensures BlockFingerprint(PairBlock(j, k), le) != BlockFingerprint(PairBlock(k, j), le)
  {
    var a, b := PairBlock(j, k), PairBlock(k, j);
    TiedKeysShow(j, k, le);
    FingerprintWf(a);
    FingerprintWf(b);
    if BlockFingerprint(a, le) == BlockFingerprint(b, le) {
      DataShows(a, b, le);
    }
  }

  /** Equal fingerprints have equal data texts. */
  lemma DataShows(a: Block, b: Block, le: KeyOrder)
    requires Wf(FingerprintValue(a)) && Wf(FingerprintValue(b)) && BlockFingerprint(a, le) == BlockFingerprint(b, le)
    ensures Canonical(DataOf(a), le) == Canonical(DataOf(b), le)
  {
    hide FingerprintValue, Canonical, Wf;
    FingerprintShape(a, b);
    EqualTextsShow(FingerprintValue(a).fields, FingerprintValue(b).fields, le, 4);
  }

  /** Fingerprints tell blocks apart exactly, for all blocks, exactly when the comparator tells all keys apart. */
  lemma FingerprintsAreExactIff(le: KeyOrder)
    requires Ordering(le)
    ensures Separating(le) <==>
            forall a, b :: BlockOk(a) && BlockOk(b) ==>
                (BlockFingerprint(a, le) == BlockFingerprint(b, le) <==> SameBlock(a, b))
  {
    if Separating(le) {
      forall a, b | BlockOk(a) && BlockOk(b)
        ensures BlockFingerprint(a, le) == BlockFingerprint(b, le) <==> SameBlock(a, b) {
        SeparatingSeparates(DataOf(a), le);
        FingerprintDecidesBlock(a, b, le);
      }
    } else {
      var j, k :| le(j, k) && le(k, j) && j != k;
      TiedKeysShowInBlocks(j, k, le);
    }
  }

  // ---- the difference ----

  /** Absent data, null and the empty object are one and the same to a fingerprint and to a key. */
  lemma NoDataIsEmptyObject(b: Block, le: KeyOrder)
    ensures forall data :: data == None || data == Some(Null) ==>
              && BlockFingerprint(b.(data := data), le) == BlockFingerprint(b.(data := Some(Obj([]))), le)
              && BlockKey(b.(data := data), le) == BlockKey(b.(data := Some(Obj([]))), le)
  {
  }

  // ---- which blocks share a key ----

  predicate Named(b: Block) { b.hash.Some? && b.hash.value != "" }

  function Time(b: Block): string { match b.timestamp case Some(t) => t case None => "unknown" }

  /** The same hash; without hashes, the same number; without either, the same time and data of the same text. */
  ghost predicate SameIdentity(a: Block, b: Block, le: KeyOrder) {
    if Named(a) || Named(b) then Named(a) && Named(b) && a.hash.value == b.hash.value
    else if a.index.Some? || b.index.Some? then a.index == b.index
    else Time(a) == Time(b) && StableStringify(DataOf(a), le) == StableStringify(DataOf(b), le)
  }

  lemma DataIsWf(b: Block, le: KeyOrder)
    requires BlockOk(b)
    ensures Wf(DataOf(b)) && Wf(Canonical(DataOf(b), le))
  {
    CanonicalWf(DataOf(b), le);
  }

  /** Keys pair exactly the blocks of one identity. None of the three kinds of key is ever taken for another, and the
      colons in a time or in the data never make two keys run into each other. */
  lemma KeysAgreeIff(a: Block, b: Block, le: KeyOrder)
    requires BlockOk(a) && BlockOk(b)
    ensures BlockKey(a, le) == BlockKey(b, le) <==> SameIdentity(a, b, le)
  {
    hide IntText, StableStringify, DataOf, BlockOk;
    if Named(a) && Named(b) {
      if "hash:" + a.hash.value == "hash:" + b.hash.value { Cancel("hash:", a.hash.value, b.hash.value); }
    } else if !Named(a) && !Named(b) && a.index.Some? && b.index.Some? {
      if "idx:" + IntText(a.index.value) == "idx:" + IntText(b.index.value) {
        Cancel("idx:", IntText(a.index.value), IntText(b.index.value));
        IntTextInjective(a.index.value, b.index.value);
      }
    } else if !Named(a) && !Named(b) && a.index.None? && b.index.None? {
      TimeKeysAgreeIff(a, b, le);
    } else {
      assert BlockKey(a, le)[0] != BlockKey(b, le)[0];
    }
  }

  lemma TimeKeysAgreeIff(a: Block, b: Block, le: KeyOrder)
    requires BlockOk(a) && BlockOk(b) && !Named(a) && !Named(b) && a.index.None? && b.index.None?
    ensures BlockKey(a, le) == BlockKey(b, le) <==> SameIdentity(a, b, le)
  {
    hide BlockOk, Wf, Canonical, DataOf, Print;
    DataIsWf(a, le);
    DataIsWf(b, le);
    var v, w := Canonical(DataOf(a), le), Canonical(DataOf(b), le);
    OneColonFits(Time(a), v, Time(b), w);
    var x, y := Time(a) + ([':'] + Print(v)), Time(b) + ([':'] + Print(w));
    assert BlockKey(a, le) == "ts:" + x && BlockKey(b, le) == "ts:" + y;
    if BlockKey(a, le) == BlockKey(b, le) { Cancel("ts:", x, y); }
  }

  /** Data of one text is data of one value, and the other way round unless it has tied keys. */
  lemma IdentityIsByValue(a: Block, b: Block, le: KeyOrder)
    requires BlockOk(a) && BlockOk(b) && !Named(a) && !Named(b) && a.index.None? && b.index.None?
    ensures SameIdentity(a, b, le) ==> Time(a) == Time(b) && SameValue(DataOf(a), DataOf(b))
    ensures Ordering(le) && Separated(DataOf(a), le) && Time(a) == Time(b) && SameValue(DataOf(a), DataOf(b)) ==>
              SameIdentity(a, b, le)
  {
    hide BlockOk, Wf, DataOf, StableStringify, SameValue;
    DataIsWf(a, le);
    DataIsWf(b, le);
    TextDecidesValue(DataOf(a), DataOf(b), le);
  }

  type Held = OrderedMap<string, Block>

  /** How blocks are told apart: a key to pair them by, and a fingerprint to compare them by. */
  datatype Identity = Identity(key: Block -> string, fingerprint: Block -> string)

  /** `blockKey` and `blockFingerprint` under the given key comparator. */
  function ByText(le: KeyOrder): Identity {
    Identity((b: Block) => BlockKey(b, le), (b: Block) => BlockFingerprint(b, le))
  }

  /** The block held for each key: of two blocks with one key the later stays. */
  function HeldBy(blocks: seq<Block>, id: Identity): map<string, Block> {
    if blocks == [] then map[]
    else HeldBy(blocks[..|blocks| - 1], id)[id.key(blocks[|blocks| - 1]) := blocks[|blocks| - 1]]
  }

  /** `new Map(blocks.map((b) => [blockKey(b), b]))` */
  function IndexBy(blocks: seq<Block>, id: Identity): (m: Held)
    ensures m.Valid() && m.vals == HeldBy(blocks, id)
  {
    if blocks == [] then Empty()
    else IndexBy(blocks[..|blocks| - 1], id).Set(id.key(blocks[|blocks| - 1]), blocks[|blocks| - 1])
  }

  lemma {:induction false} HeldIsListed(blocks: seq<Block>, id: Identity, k: string)
    requires k in HeldBy(blocks, id)
    ensures id.key(HeldBy(blocks, id)[k]) == k && HeldBy(blocks, id)[k] in blocks
  {
    var front := blocks[..|blocks| - 1];
    if k != id.key(blocks[|blocks| - 1]) { HeldIsListed(front, id, k); }
  }

  lemma {:induction false} ListedIsHeld(blocks: seq<Block>, id: Identity, b: Block)
    requires b in blocks
    ensures id.key(b) in HeldBy(blocks, id)
  {
    var front := blocks[..|blocks| - 1];
    assert blocks == front + [blocks[|blocks| - 1]];
    if b in front { ListedIsHeld(front, id, b); }
  }

  // ---- what a list holds, said of positions in it ----

  ghost predicate Lists(id: Identity, blocks: seq<Block>, k: string) {
    exists i :: 0 <= i < |blocks| && id.key(blocks[i]) == k
  }

  ghost predicate LastAt(id: Identity, blocks: seq<Block>, i: nat) {
    i < |blocks| && forall j :: i < j < |blocks| ==> id.key(blocks[j]) != id.key(blocks[i])
  }

  /** `b` is the last block with its key. */
  ghost predicate LastOf(id: Identity, blocks: seq<Block>, b: Block) {
    exists i :: 0 <= i < |blocks| && LastAt(id, blocks, i) && blocks[i] == b
  }

  ghost predicate At(id: Identity, m: map<string, Block>, b: Block) { id.key(b) in m && m[id.key(b)] == b }

  lemma ListsStep(id: Identity, blocks: seq<Block>, k: string)
    requires blocks != []
    ensures Lists(id, blocks, k) <==> Lists(id, blocks[..|blocks| - 1], k) || id.key(blocks[|blocks| - 1]) == k
  {
    var front := blocks[..|blocks| - 1];
    assert forall i :: 0 <= i < |front| ==> front[i] == blocks[i];
  }

  lemma LastStep(id: Identity, blocks: seq<Block>, b: Block)
    requires blocks != []
    ensures var front, last := blocks[..|blocks| - 1], blocks[|blocks| - 1];
            LastOf(id, blocks, b) <==> b == last || (LastOf(id, front, b) && id.key(b) != id.key(last))
  {
    var front, last := blocks[..|blocks| - 1], blocks[|blocks| - 1];
    assert forall i :: 0 <= i < |front| ==> front[i] == blocks[i];
    assert LastAt(id, blocks, |front|);
    forall i | 0 <= i < |front|
      ensures LastAt(id, blocks, i) <==> LastAt(id, front, i) && id.key(blocks[i]) != id.key(last) {}
    hide LastAt;
    if LastOf(id, front, b) && id.key(b) != id.key(last) {
      var i :| 0 <= i < |front| && LastAt(id, front, i) && front[i] == b;
      assert LastAt(id, blocks, i);
    }
    if LastOf(id, blocks, b) && b != last {
      var i :| 0 <= i < |blocks| && LastAt(id, blocks, i) && blocks[i] == b;
      assert i < |front| && LastAt(id, front, i);
    }
  }

  /** A list holds for each key its last block. */
  lemma {:induction false} HeldIsTheLast(id: Identity, blocks: seq<Block>, b: Block)
    ensures At(id, HeldBy(blocks, id), b) <==> LastOf(id, blocks, b)
    ensures id.key(b) in HeldBy(blocks, id) <==> Lists(id, blocks, id.key(b))
  {
    if blocks != [] {
      HeldIsTheLast(id, blocks[..|blocks| - 1], b);
      LastStep(id, blocks, b);
      ListsStep(id, blocks, id.key(b));
    }
  }

  /** The first block with key `k` comes before any with key `l`. */
  ghost predicate AppearsBefore(k: string, l: string, blocks: seq<Block>, id: Identity) {
    exists p :: 0 <= p < |blocks| && id.key(blocks[p]) == k && FreeUpTo(l, p, blocks, id)
  }

  ghost predicate AppearInOrder(keys: seq<string>, blocks: seq<Block>, id: Identity) {
    forall i, j :: 0 <= i < j < |keys| ==> AppearsBefore(keys[i], keys[j], blocks, id)
  }

  ghost predicate FreeUpTo(l: string, p: nat, blocks: seq<Block>, id: Identity) {
    p < |blocks| && forall q :: 0 <= q <= p ==> id.key(blocks[q]) != l
  }

  lemma {:induction false} KeysInOrder(blocks: seq<Block>, id: Identity)
    ensures AppearInOrder(IndexBy(blocks, id).keys, blocks, id)
  {
    if blocks != [] {
      var n := |blocks| - 1;
      var front, keys := IndexBy(blocks[..n], id), IndexBy(blocks, id).keys;
      KeysInOrder(blocks[..n], id);
      hide AppearsBefore;
      KeysHeld(front);
      forall i, j | 0 <= i < j < |keys| ensures AppearsBefore(keys[i], keys[j], blocks, id) {
        if j < |front.keys| {
          assert keys[i] == front.keys[i] && keys[j] == front.keys[j];
          StillBefore(keys[i], keys[j], blocks, id);
        } else {
          assert keys[i] in front.keys && keys[j] !in front.vals;
          NewKeyIsLast(keys[i], keys[j], blocks, id);
        }
      }
    }
  }

  lemma StillBefore(k: string, l: string, blocks: seq<Block>, id: Identity)
    requires blocks != [] && AppearsBefore(k, l, blocks[..|blocks| - 1], id)
    ensures AppearsBefore(k, l, blocks, id)
  {
    var front := blocks[..|blocks| - 1];
    var p :| 0 <= p < |front| && id.key(front[p]) == k && FreeUpTo(l, p, front, id);
    assert forall q :: 0 <= q <= p ==> front[q] == blocks[q];
    assert id.key(blocks[p]) == k && FreeUpTo(l, p, blocks, id);
  }

  lemma NewKeyIsLast(k: string, l: string, blocks: seq<Block>, id: Identity)
    requires blocks != []
    requires var front := blocks[..|blocks| - 1]; k in HeldBy(front, id) && l !in HeldBy(front, id)
    ensures AppearsBefore(k, l, blocks, id)
  {
    var front := blocks[..|blocks| - 1];
    HeldIsListed(front, id, k);
    var p :| 0 <= p < |front| && front[p] == HeldBy(front, id)[k];
    forall q | 0 <= q <= p ensures id.key(blocks[q]) != l {
      assert front[q] == blocks[q];
      ListedIsHeld(front, id, front[q]);
    }
    assert id.key(blocks[p]) == k && FreeUpTo(l, p, blocks, id);
  }

  method IndexBlocks(blocks: seq<Block>, id: Identity) returns (m: Held)
    ensures m == IndexBy(blocks, id)
    ensures forall b :: At(id, m.vals, b) <==> LastOf(id, blocks, b)
    ensures AppearInOrder(m.keys, blocks, id)
  {
    KeysInOrder(blocks, id);
    forall b ensures At(id, HeldBy(blocks, id), b) <==> LastOf(id, blocks, b) { HeldIsTheLast(id, blocks, b); }
    hide AppearInOrder, LastOf;
    m := Empty();
    for i := 0 to |blocks|
      invariant m == IndexBy(blocks[..i], id)
    {
      assert blocks[..i + 1][..i] == blocks[..i];
      m := m.Set(id.key(blocks[i]), blocks[i]);
    }
    assert blocks[..|blocks|] == blocks;
  }

  function Pick(keys: seq<string>, vals: map<string, Block>): (r: seq<Block>)
    requires forall k :: k in keys ==> k in vals
  {
    seq(|keys|, i requires 0 <= i < |keys| => vals[keys[i]])
  }

  lemma PickStep(keys: seq<string>, vals: map<string, Block>, n: nat, keep: string -> bool)
    requires (forall k :: k in keys && keep(k) ==> k in vals) && n < |keys|
    ensures Pick(Filter(keys[..n + 1], keep), vals) ==
            Pick(Filter(keys[..n], keep), vals) + (if keep(keys[n]) then [vals[keys[n]]] else [])
  {
    FilterStep(keys, n, keep);
  }

  lemma ConflictStep(keys: seq<string>, l: map<string, Block>, r: map<string, Block>, n: nat, keep: string -> bool)
    requires (forall k :: k in keys && keep(k) ==> k in l && k in r) && n < |keys|
    ensures Conflicts(Filter(keys[..n + 1], keep), l, r) ==
            Conflicts(Filter(keys[..n], keep), l, r)
            + (if keep(keys[n]) then [Conflict(keys[n], l[keys[n]], r[keys[n]])] else [])
  {
    FilterStep(keys, n, keep);
  }

  /** The conflicts at `keys`, in that order. */
  function Conflicts(keys: seq<string>, local: map<string, Block>, remote: map<string, Block>): seq<Conflict>
    requires forall k :: k in keys ==> k in local && k in remote
  {
    seq(|keys|, i requires 0 <= i < |keys| => Conflict(keys[i], local[keys[i]], remote[keys[i]]))
  }

  function Missing(other: map<string, Block>): string -> bool { (k: string) => k !in other }

  function Clashing(local: map<string, Block>, remote: map<string, Block>, id: Identity): string -> bool {
    (k: string) => Clashes(k, local, remote, id)
  }

  predicate Clashes(k: string, local: map<string, Block>, remote: map<string, Block>, id: Identity) {
    k in local && k in remote && id.fingerprint(local[k]) != id.fingerprint(remote[k])
  }

  function DiffOf(local: seq<Block>, remote: seq<Block>, id: Identity): Diff {
    var l, r := IndexBy(local, id), IndexBy(remote, id);
    KeysHeld(l);
    KeysHeld(r);
    Diff(Pick(Filter(l.keys, Missing(r.vals)), l.vals),
         Pick(Filter(r.keys, Missing(l.vals)), r.vals),
         Conflicts(Filter(l.keys, Clashing(l.vals, r.vals, id)), l.vals, r.vals))
  }

  lemma KeysHeld(m: Held)
    requires m.Valid()
    ensures forall k :: k in m.keys <==> k in m.vals
  {
    assert forall k :: k in m.keys <==> k in Elems(m.keys);
  }

  /** `b` is the last block of its key on its own side, and the other side has none with that key. */
  ghost predicate OnlyHere(b: Block, here: seq<Block>, there: seq<Block>, id: Identity) {
    LastOf(id, here, b) && forall x :: x in there ==> id.key(x) != id.key(b)
  }

  /** `x` and `y` are the last blocks of one key on their sides, and differ. */
  ghost predicate Disagree(x: Block, y: Block, local: seq<Block>, remote: seq<Block>, id: Identity) {
    LastOf(id, local, x) && LastOf(id, remote, y) && id.key(x) == id.key(y) && id.fingerprint(x) != id.fingerprint(y)
  }

  lemma PickedAre(keys: seq<string>, blocks: seq<Block>, other: seq<Block>, id: Identity)
    requires forall k :: k in keys <==> k in HeldBy(blocks, id)
    ensures forall b :: b in Pick(Filter(keys, Missing(HeldBy(other, id))), HeldBy(blocks, id)) <==>
                        OnlyHere(b, blocks, other, id)
  {
    var vals := HeldBy(blocks, id);
    var kept := Filter(keys, Missing(HeldBy(other, id)));
    forall b ensures b in Pick(kept, vals) <==> OnlyHere(b, blocks, other, id) {
      HeldIsTheLast(id, blocks, b);
      HeldIsTheLast(id, other, b);
      if b in Pick(kept, vals) {
        var i :| 0 <= i < |kept| && vals[kept[i]] == b;
        assert kept[i] in kept;
        HeldIsListed(blocks, id, kept[i]);
        forall x | x in other ensures id.key(x) != id.key(b) { ListedIsHeld(other, id, x); }
      }
      if OnlyHere(b, blocks, other, id) {
        assert id.key(b) in kept;
        var i :| 0 <= i < |kept| && kept[i] == id.key(b);
        assert Pick(kept, vals)[i] == b;
      }
    }
  }

  lemma ConflictsAre(local: seq<Block>, remote: seq<Block>, id: Identity)
    ensures forall c :: c in DiffOf(local, remote, id).conflicts <==>
                        c.key == id.key(c.local) && Disagree(c.local, c.remote, local, remote, id)
  {
    var l, r := IndexBy(local, id), IndexBy(remote, id);
    KeysHeld(l);
    var conflicts, keys := DiffOf(local, remote, id).conflicts, Filter(l.keys, Clashing(l.vals, r.vals, id));
    assert conflicts == Conflicts(keys, l.vals, r.vals);
    forall c ensures c in conflicts <==>
                     c.key == id.key(c.local) && Disagree(c.local, c.remote, local, remote, id) {
      HeldIsTheLast(id, local, c.local);
      HeldIsTheLast(id, remote, c.remote);
      if c in conflicts {
        var i :| 0 <= i < |keys| && conflicts[i] == c;
        assert keys[i] in keys;
        HeldIsListed(local, id, keys[i]);
        HeldIsListed(remote, id, keys[i]);
      }
      if c.key == id.key(c.local) && Disagree(c.local, c.remote, local, remote, id) {
        assert c.key in keys;
        var i :| 0 <= i < |keys| && keys[i] == c.key;
        assert conflicts[i] == c;
      }
    }
  }

  method DetectChainDiff(local: seq<Block>, remote: seq<Block>, id: Identity) returns (d: Diff)
    ensures d == DiffOf(local, remote, id)
    ensures forall b :: b in d.localOnly <==> OnlyHere(b, local, remote, id)
    ensures forall b :: b in d.remoteOnly <==> OnlyHere(b, remote, local, id)
    ensures forall c :: c in d.conflicts <==>
                        c.key == id.key(c.local) && Disagree(c.local, c.remote, local, remote, id)
  {
    KeysHeld(IndexBy(local, id));
    KeysHeld(IndexBy(remote, id));
    PickedAre(IndexBy(local, id).keys, local, remote, id);
    PickedAre(IndexBy(remote, id).keys, remote, local, id);
    ConflictsAre(local, remote, id);
    hide Pick, Conflicts, OnlyHere, Disagree;
    var localMap := IndexBlocks(local, id);
    var remoteMap := IndexBlocks(remote, id);
    var localOnly, conflicts := WalkLocal(localMap, remoteMap, id);
    var remoteOnly := WalkRemote(localMap, remoteMap);
    d := Diff(localOnly, remoteOnly, conflicts);
  }

  /** The first loop: the keys of the local map. */
  method WalkLocal(localMap: Held, remoteMap: Held, id: Identity)
    returns (localOnly: seq<Block>, conflicts: seq<Conflict>)
    requires localMap.Valid()
    ensures forall k :: k in localMap.keys <==> k in localMap.vals
    ensures localOnly == Pick(Filter(localMap.keys, Missing(remoteMap.vals)), localMap.vals)
    ensures conflicts ==
            Conflicts(Filter(localMap.keys, Clashing(localMap.vals, remoteMap.vals, id)), localMap.vals, remoteMap.vals)
  {
    hide Pick, Conflicts, BlockFingerprint;
    KeysHeld(localMap);
    NothingWalked(localMap, remoteMap, id);
    localOnly, conflicts := [], [];
    for i := 0 to |localMap.keys|
      invariant localOnly == Pick(Filter(localMap.keys[..i], Missing(remoteMap.vals)), localMap.vals)
      invariant conflicts == Conflicts(Filter(localMap.keys[..i], Clashing(localMap.vals, remoteMap.vals, id)),
                                       localMap.vals, remoteMap.vals)
    {
      var key := localMap.keys[i];
      PickStep(localMap.keys, localMap.vals, i, Missing(remoteMap.vals));
      ConflictStep(localMap.keys, localMap.vals, remoteMap.vals, i, Clashing(localMap.vals, remoteMap.vals, id));
      var localBlock := localMap.vals[key];
      if key !in remoteMap.vals {
        localOnly := localOnly + [localBlock];
      } else if id.fingerprint(localBlock) != id.fingerprint(remoteMap.vals[key]) {
        conflicts := conflicts + [Conflict(key, localBlock, remoteMap.vals[key])];
      }
    }
    assert localMap.keys[..|localMap.keys|] == localMap.keys;
  }

  lemma NothingWalked(l: Held, r: Held, id: Identity)
    requires forall k :: k in l.keys ==> k in l.vals
    ensures Pick(Filter(l.keys[..0], Missing(r.vals)), l.vals) == []
    ensures Conflicts(Filter(l.keys[..0], Clashing(l.vals, r.vals, id)), l.vals, r.vals) == []
  {
  }

  /** The second loop: the keys of the remote map. */
  method WalkRemote(localMap: Held, remoteMap: Held) returns (remoteOnly: seq<Block>)
    requires remoteMap.Valid()
    ensures forall k :: k in remoteMap.keys <==> k in remoteMap.vals
    ensures remoteOnly == Pick(Filter(remoteMap.keys, Missing(localMap.vals)), remoteMap.vals)
  {
    KeysHeld(remoteMap);
    remoteOnly := [];
    for i := 0 to |remoteMap.keys|
      invariant remoteOnly == Pick(Filter(remoteMap.keys[..i], Missing(localMap.vals)), remoteMap.vals)
    {
      var key := remoteMap.keys[i];
      PickStep(remoteMap.keys, remoteMap.vals, i, Missing(localMap.vals));
      if key !in localMap.vals {
        remoteOnly := remoteOnly + [remoteMap.vals[key]];
      }
    }
    assert remoteMap.keys[..|remoteMap.keys|] == remoteMap.keys;
  }

  /** The last block of its identity in `here`, and nothing of that identity in `there`. */
  ghost predicate MissingThere(b: Block, here: seq<Block>, there: seq<Block>, le: KeyOrder) {
    LastOfIdentity(b, here, le) && forall x :: x in there ==> !SameIdentity(x, b, le)
  }

  ghost predicate LastOfIdentity(b: Block, blocks: seq<Block>, le: KeyOrder) {
    exists i :: 0 <= i < |blocks| && LastOneAt(i, blocks, le) && blocks[i] == b
  }

  ghost predicate LastOneAt(i: nat, blocks: seq<Block>, le: KeyOrder) {
    i < |blocks| && forall j :: i < j < |blocks| ==> !SameIdentity(blocks[j], blocks[i], le)
  }

  lemma LastOfIdentityIff(b: Block, blocks: seq<Block>, le: KeyOrder)
    requires BlocksOk(blocks)
    ensures LastOf(ByText(le), blocks, b) <==> LastOfIdentity(b, blocks, le)
  {
    hide SameIdentity, BlockKey, BlockOk;
    forall i | 0 <= i < |blocks| ensures LastAt(ByText(le), blocks, i) <==> LastOneAt(i, blocks, le) {
      forall j | i < j < |blocks|
        ensures ByText(le).key(blocks[j]) == ByText(le).key(blocks[i]) <==> SameIdentity(blocks[j], blocks[i], le) {
        KeysAgreeIff(blocks[j], blocks[i], le);
      }
    }
  }

  lemma MissingThereIff(b: Block, here: seq<Block>, there: seq<Block>, le: KeyOrder)
    requires BlocksOk(here) && BlocksOk(there)
    ensures OnlyHere(b, here, there, ByText(le)) <==> MissingThere(b, here, there, le)
  {
    hide SameIdentity, BlockKey, BlockOk, LastAt, LastOneAt;
    LastOfIdentityIff(b, here, le);
    if LastOfIdentity(b, here, le) {
      forall x | x in there ensures ByText(le).key(x) == ByText(le).key(b) <==> SameIdentity(x, b, le) {
        KeysAgreeIff(x, b, le);
      }
    }
  }

  /** A difference names on each side the last block of every identity the other side lacks, and as conflicts the last
      blocks of a shared identity whose fingerprints differ. */
  lemma DifferenceIsByIdentity(local: seq<Block>, remote: seq<Block>, le: KeyOrder, d: Diff)
    requires BlocksOk(local) && BlocksOk(remote)
    requires d == DiffOf(local, remote, ByText(le))
    ensures forall b :: b in d.localOnly <==> MissingThere(b, local, remote, le)
    ensures forall b :: b in d.remoteOnly <==> MissingThere(b, remote, local, le)
    ensures forall x, y :: Conflict(BlockKey(x, le), x, y) in d.conflicts <==>
              && LastOfIdentity(x, local, le) && LastOfIdentity(y, remote, le) && SameIdentity(x, y, le)
              && BlockFingerprint(x, le) != BlockFingerprint(y, le)
  {
    hide SameIdentity, BlockKey, BlockOk, LastAt, LastOneAt, BlockFingerprint, Pick, Conflicts;
    var id := ByText(le);
    KeysHeld(IndexBy(local, id));
    KeysHeld(IndexBy(remote, id));
    PickedAre(IndexBy(local, id).keys, local, remote, id);
    PickedAre(IndexBy(remote, id).keys, remote, local, id);
    forall b ensures OnlyHere(b, local, remote, id) <==> MissingThere(b, local, remote, le) {
      MissingThereIff(b, local, remote, le);
    }
    forall b ensures OnlyHere(b, remote, local, id) <==> MissingThere(b, remote, local, le) {
      MissingThereIff(b, remote, local, le);
    }
    ConflictsAre(local, remote, id);
    hide DiffOf;
    forall x, y ensures Disagree(x, y, local, remote, id) <==>
                        && LastOfIdentity(x, local, le) && LastOfIdentity(y, remote, le) && SameIdentity(x, y, le)
                        && BlockFingerprint(x, le) != BlockFingerprint(y, le) {
      LastOfIdentityIff(x, local, le);
      LastOfIdentityIff(y, remote, le);
      if LastOfIdentity(x, local, le) && LastOfIdentity(y, remote, le) { KeysAgreeIff(x, y, le); }
    }
  }

  /** The keys at which the two sides hold different blocks. */
  ghost predicate Differ(k: string, l: map<string, Block>, r: map<string, Block>) {
    k in l && k in r && !SameBlock(l[k], r[k])
  }

  lemma ClashIsDifference(k: string, l: map<string, Block>, r: map<string, Block>, le: KeyOrder)
    requires k in l && k in r ==> BlockOk(l[k]) && BlockOk(r[k])
    ensures Differ(k, l, r) ==> Clashes(k, l, r, ByText(le))
    ensures Ordering(le) && (k in l ==> Separated(DataOf(l[k]), le)) && Clashes(k, l, r, ByText(le)) ==> Differ(k, l, r)
  {
    if k in l && k in r { FingerprintDecidesBlock(l[k], r[k], le); }
  }

  function ConflictKeys(d: Diff): seq<string> {
    seq(|d.conflicts|, i requires 0 <= i < |d.conflicts| => d.conflicts[i].key)
  }

  /** `conflicts` is what the keys and blocks of two maps say. */
  ghost predicate ListsDifferences(d: Diff, l: map<string, Block>, r: map<string, Block>) {
    && NoDup(ConflictKeys(d))
    && (forall k :: k in ConflictKeys(d) <==> Differ(k, l, r))
    && (forall i :: 0 <= i < |d.conflicts| ==>
          && Differ(d.conflicts[i].key, l, r)
          && d.conflicts[i].local == l[d.conflicts[i].key]
          && d.conflicts[i].remote == r[d.conflicts[i].key])
  }

  ghost predicate BlocksOk(blocks: seq<Block>) { forall b :: b in blocks ==> BlockOk(b) }

  lemma ConflictKeysAre(local: seq<Block>, remote: seq<Block>, le: KeyOrder)
    ensures var l, r := IndexBy(local, ByText(le)).vals, IndexBy(remote, ByText(le)).vals;
            var d := DiffOf(local, remote, ByText(le));
            && NoDup(ConflictKeys(d))
            && (forall k :: k in ConflictKeys(d) <==> Clashes(k, l, r, ByText(le)))
            && (forall i :: 0 <= i < |d.conflicts| ==>
                  && d.conflicts[i].key in l && d.conflicts[i].key in r && d.conflicts[i].key in ConflictKeys(d)
                  && d.conflicts[i].local == l[d.conflicts[i].key]
                  && d.conflicts[i].remote == r[d.conflicts[i].key])
  {
    var l, r := IndexBy(local, ByText(le)), IndexBy(remote, ByText(le));
    KeysHeld(l);
    var d := DiffOf(local, remote, ByText(le));
    hide BlockFingerprint, BlockKey, HeldBy, IndexBy, Pick;
    FilterNoDup(l.keys, Clashing(l.vals, r.vals, ByText(le)));
    ConflictsList(Filter(l.keys, Clashing(l.vals, r.vals, ByText(le))), l.vals, r.vals, d);
  }

  lemma ConflictsList(keys: seq<string>, l: map<string, Block>, r: map<string, Block>, d: Diff)
    requires (forall k :: k in keys ==> k in l && k in r) && d.conflicts == Conflicts(keys, l, r)
    ensures ConflictKeys(d) == keys
    ensures forall i :: 0 <= i < |d.conflicts| ==>
              && d.conflicts[i].key == keys[i] && d.conflicts[i].key in keys
              && d.conflicts[i].local == l[d.conflicts[i].key] && d.conflicts[i].remote == r[d.conflicts[i].key]
  {
  }

  /** No difference is ever missed; and unless local data has tied keys, the conflicts are exactly the shared keys whose
      blocks differ, once each, with both blocks. */
  lemma ConflictsAreTheDifferences(local: seq<Block>, remote: seq<Block>, le: KeyOrder)
    requires BlocksOk(local) && BlocksOk(remote)
    ensures var l, r := IndexBy(local, ByText(le)).vals, IndexBy(remote, ByText(le)).vals;
            var d := DiffOf(local, remote, ByText(le));
            && (forall k :: Differ(k, l, r) ==> k in ConflictKeys(d))
            && (Ordering(le) && (forall b :: b in local ==> Separated(DataOf(b), le)) ==> ListsDifferences(d, l, r))
  {
    hide Ordering, Separated, BlockOk, SameBlock, DiffOf, ConflictKeys;
    ConflictKeysAre(local, remote, le);
    var l, r := IndexBy(local, ByText(le)).vals, IndexBy(remote, ByText(le)).vals;
    forall k
      ensures Differ(k, l, r) ==> Clashes(k, l, r, ByText(le))
      ensures Ordering(le) && (forall b :: b in local ==> Separated(DataOf(b), le)) && Clashes(k, l, r, ByText(le)) ==>
                Differ(k, l, r)
    {
      if k in l { HeldIsListed(local, ByText(le), k); }
      if k in r { HeldIsListed(remote, ByText(le), k); }
      ClashIsDifference(k, l, r, le);
    }
  }

  /** The conflicts are exact for all chains exactly when the comparator tells all keys apart. */
  lemma ConflictsAreExactIff(le: KeyOrder)
    requires Ordering(le)
    ensures Separating(le) <==>
            forall local, remote :: BlocksOk(local) && BlocksOk(remote) ==>
              ListsDifferences(DiffOf(local, remote, ByText(le)),
                               IndexBy(local, ByText(le)).vals, IndexBy(remote, ByText(le)).vals)
  {
    hide BlockOk, DiffOf;
    if Separating(le) {
      forall local, remote | BlocksOk(local) && BlocksOk(remote)
        ensures ListsDifferences(DiffOf(local, remote, ByText(le)),
                                 IndexBy(local, ByText(le)).vals, IndexBy(remote, ByText(le)).vals)
      {
        forall b | b in local ensures Separated(DataOf(b), le) { OkDataIsSeparated(b, le); }
        ConflictsAreTheDifferences(local, remote, le);
      }
    } else {
      var j, k :| le(j, k) && le(k, j) && j != k;
      TiedKeysConflict(j, k, le);
    }
  }

  lemma OkDataIsSeparated(b: Block, le: KeyOrder)
    requires BlockOk(b) && Separating(le)
    ensures Separated(DataOf(b), le)
  {
    SeparatingSeparates(DataOf(b), le);
  }

  /** One block written with its data's keys in two orders is reported as a conflict. */
  lemma TiedKeysConflict(j: string, k: string, le: KeyOrder)
    requires j != k && Tied(le, j, k)
    ensures var local, remote := [PairBlock(j, k)], [PairBlock(k, j)];
            && BlocksOk(local) && BlocksOk(remote)
            && !ListsDifferences(DiffOf(local, remote, ByText(le)),
                                 IndexBy(local, ByText(le)).vals, IndexBy(remote, ByText(le)).vals)
  {
    TiedKeysShowInBlocks(j, k, le);
    ClashWithoutDifference(PairBlock(j, k), PairBlock(k, j), le);
  }

  lemma ClashWithoutDifference(a: Block, b: Block, le: KeyOrder)
    requires a.hash == b.hash == Some("h") && SameBlock(a, b) && BlockFingerprint(a, le) != BlockFingerprint(b, le)
    ensures !ListsDifferences(DiffOf([a], [b], ByText(le)),
                              IndexBy([a], ByText(le)).vals, IndexBy([b], ByText(le)).vals)
  {
    OneBlockHeld(a, le);
    OneBlockHeld(b, le);
    hide BlockFingerprint, SameBlock, DiffOf, ConflictKeys, IndexBy, HeldBy;
    ConflictKeysAre([a], [b], le);
    var l, r := IndexBy([a], ByText(le)).vals, IndexBy([b], ByText(le)).vals;
    assert Clashes("hash:h", l, r, ByText(le)) && !Differ("hash:h", l, r);
  }

  lemma OneBlockHeld(a: Block, le: KeyOrder)
    requires a.hash == Some("h")
    ensures IndexBy([a], ByText(le)).vals == map["hash:h" := a]
  {
    assert [a][..0] == [];
    assert "hash:" + "h" == "hash:h";
  }
}

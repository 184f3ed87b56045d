/** Which fields the two importers read, under which names, and what stands in for a missing one. */
module FieldNames {
  import opened Common
  import opened JsonText
  import opened JsonFields
  import ImportJson
  import ReplayNormalizer

  /** The field is a text with something in it. */
  predicate HasText(source: seq<Field>, name: string) { Get(source, name).Str? && Get(source, name).s != "" }

  /** `v` is the first such text under the names, if there is one. */
  ghost predicate FirstText(source: seq<Field>, names: seq<string>, v: Option<string>) {
    match v
    case Some(s) => exists i :: 0 <= i < |names| && FirstTextAt(source, names, i) && Get(source, names[i]).s == s
    case None => forall i :: 0 <= i < |names| ==> !HasText(source, names[i])
  }

  ghost predicate FirstTextAt(source: seq<Field>, names: seq<string>, i: nat) {
    i < |names| && HasText(source, names[i]) && forall j :: 0 <= j < i ==> !HasText(source, names[j])
  }

  /** The field is a finite number, or a text of digits alone, however many they are. */
  ghost predicate IsNumber(source: seq<Field>, name: string, number: ImportJson.Reader, n: ImportJson.Number) {
    var v := Get(source, name);
    || (v.Num? && n.Finite? && number(v.lexeme) == n)
    || (v.Str? && v.s != "" && (forall i :: 0 <= i < |v.s| ==> '0' <= v.s[i] <= '9') && number(v.s) == n)
  }

  ghost predicate FirstNumberAt(source: seq<Field>, names: seq<string>, number: ImportJson.Reader,
                                n: ImportJson.Number, i: nat)
  {
    && i < |names| && IsNumber(source, names[i], number, n)
    && forall j, m :: 0 <= j < i ==> !IsNumber(source, names[j], number, m)
  }

  ghost predicate FirstNumber(source: seq<Field>, names: seq<string>, number: ImportJson.Reader,
                              v: Option<ImportJson.Number>)
  {
    match v
    case Some(n) => exists i :: 0 <= i < |names| && FirstNumberAt(source, names, number, n, i)
    case None => forall i, n :: 0 <= i < |names| ==> !IsNumber(source, names[i], number, n)
  }

  lemma {:induction false} PickedIsFirst(source: seq<Field>, names: seq<string>)
    ensures FirstText(source, names, ImportJson.PickString(source, names))
  {
    if names != [] {
      if HasText(source, names[0]) {
        assert FirstTextAt(source, names, 0);
      } else {
        var rest := names[1..];
        PickedIsFirst(source, rest);
        assert forall i :: 0 < i < |names| ==> names[i] == rest[i - 1];
        if ImportJson.PickString(source, names).Some? {
          var s := ImportJson.PickString(source, names).value;
          var i :| 0 <= i < |rest| && FirstTextAt(source, rest, i) && Get(source, rest[i]).s == s;
          assert FirstTextAt(source, names, i + 1);
        }
      }
    }
  }

  lemma {:induction false} PickedNumberIsFirst(source: seq<Field>, names: seq<string>, number: ImportJson.Reader)
    ensures FirstNumber(source, names, number, ImportJson.PickNumber(source, names, number))
  {
    if names != [] {
      var picked := ImportJson.PickNumber(source, names, number);
      HeadNumber(source, names, number);
      if picked.Some? && IsNumber(source, names[0], number, picked.value) {
        assert FirstNumberAt(source, names, number, picked.value, 0);
      } else {
        var rest := names[1..];
        PickedNumberIsFirst(source, rest, number);
        assert forall i :: 0 < i < |names| ==> names[i] == rest[i - 1];
        if picked.Some? {
          var i :| 0 <= i < |rest| && FirstNumberAt(source, rest, number, picked.value, i);
          assert FirstNumberAt(source, names, number, picked.value, i + 1);
        }
      }
    }
  }

  /** The first name decides if there is a number under it. */
  lemma HeadNumber(source: seq<Field>, names: seq<string>, number: ImportJson.Reader)
    requires names != []
    ensures var picked := ImportJson.PickNumber(source, names, number);
            if exists n :: IsNumber(source, names[0], number, n)
            then picked.Some? && IsNumber(source, names[0], number, picked.value)
            else picked == ImportJson.PickNumber(source, names[1..], number)
  {
    var v := Get(source, names[0]);
    if v.Num? && number(v.lexeme).Finite? {
      assert IsNumber(source, names[0], number, number(v.lexeme));
    } else if v.Str? && ImportJson.AllDigits(v.s) {
      assert IsNumber(source, names[0], number, number(v.s));
    }
  }

  // ---- the JSON importer ----

  ghost predicate TagsAre(source: seq<Field>, tags: Option<seq<string>>) {
    match tags
    case Some(ts) => Get(source, "tags") == Arr(StringItems(ts))
    case None => forall ts: seq<string> :: Get(source, "tags") != Arr(StringItems(ts))
  }

  /** The data of a block: each part from the block itself, or else from its `data` object. */
  ghost predicate DataIs(source: seq<Field>, d: ImportJson.BlockData) {
    var inner := if Get(source, "data").Obj? then Get(source, "data").fields else [];
    && (if HasText(source, "content") then d.content == Some(Get(source, "content").s)
        else FirstText(inner, ["content", "text"], d.content))
    && (if exists ts :: TagsAre(source, Some(ts)) then TagsAre(source, d.tags) else TagsAre(inner, d.tags))
    && (if HasText(source, "type") || HasText(source, "block_type")
        then FirstText(source, ["type", "block_type"], d.kind)
        else FirstText(inner, ["type", "block_type"], d.kind))
  }

  /** Field by field what a candidate at position `at` is read as. */
  ghost predicate ReadsAs(source: seq<Field>, at: nat, number: ImportJson.Reader, b: ImportJson.Block) {
    && FirstText(source, ["hash", "block_hash"], Some(b.hash))
    && (|| FirstNumber(source, ["index", "idx", "height"], number, Some(b.index))
        || (FirstNumber(source, ["index", "idx", "height"], number, None) && b.index == ImportJson.Finite(at as real)))
    && (var names := ["prev_hash", "prevHash", "previous_hash", "previousHash"];
        || FirstText(source, names, Some(b.prevHash))
        || (FirstText(source, names, None) && b.prevHash == seq(64, _ => '0')))
    && FirstText(source, ["timestamp", "ts", "created_at"], b.timestamp)
    && FirstText(source, ["chain", "chain_name"], b.chain)
    && (match b.data
        case Some(d) => DataIs(source, d) && (d.content.Some? || d.tags.Some? || d.kind.Some?)
        case None => DataIs(source, ImportJson.BlockData(None, None, None)))
  }

  lemma TagsArePicked(source: seq<Field>)
    ensures TagsAre(source, ImportJson.PickTags(source))
  {
    var value, picked := Get(source, "tags"), ImportJson.PickTags(source);
    if picked.Some? {
      assert value.items == StringItems(picked.value);
    }
  }

  lemma DataIsPicked(source: seq<Field>)
    ensures var d := ImportJson.NormalizeData(source);
            if d.Some?
            then DataIs(source, d.value) && (d.value.content.Some? || d.value.tags.Some? || d.value.kind.Some?)
            else DataIs(source, ImportJson.BlockData(None, None, None))
  {
    hide ImportJson.PickString, ImportJson.PickTags;
    var inner := if Get(source, "data").Obj? then Get(source, "data").fields else [];
    OneName(source, "content");
    TwoNames(source, "type", "block_type");
    PickedIsFirst(inner, ["content", "text"]);
    PickedIsFirst(source, ["type", "block_type"]);
    PickedIsFirst(inner, ["type", "block_type"]);
    TagsArePicked(source);
    TagsArePicked(inner);
    hide FirstText;
  }

  lemma OneName(source: seq<Field>, name: string)
    ensures ImportJson.PickString(source, [name]) ==
            if HasText(source, name) then Some(Get(source, name).s) else None
  {
  }

  lemma TwoNames(source: seq<Field>, a: string, b: string)
    ensures ImportJson.PickString(source, [a, b]).Some? <==> HasText(source, a) || HasText(source, b)
  {
    PickedIsFirst(source, [a, b]);
    var names := [a, b];
    assert names[0] == a && names[1] == b;
  }

  /** What the importer makes of any object: refused exactly if it has no hash under either name, and otherwise read
      field by field under the names of every format that ever was, the first in each list before the others. */
  lemma CandidateIsReadAs(source: seq<Field>, at: nat, number: ImportJson.Reader)
    ensures var r := ImportJson.NormalizeCandidate(Obj(source), at, number);
            && (r.Ok? <==> HasText(source, "hash") || HasText(source, "block_hash"))
            && (r.Ok? ==> ReadsAs(source, at, number, r.value))
            && (r.Err? ==> r.error == ImportJson.MissingHash)
  {
    hide ImportJson.PickString, ImportJson.PickNumber, ImportJson.NormalizeData, FirstText, FirstNumber, DataIs;
    TwoNames(source, "hash", "block_hash");
    PickedIsFirst(source, ["hash", "block_hash"]);
    PickedNumberIsFirst(source, ["index", "idx", "height"], number);
    PickedIsFirst(source, ["prev_hash", "prevHash", "previous_hash", "previousHash"]);
    PickedIsFirst(source, ["timestamp", "ts", "created_at"]);
    PickedIsFirst(source, ["chain", "chain_name"]);
    DataIsPicked(source);
    assert ZERO_HASH == seq(64, _ => '0');
  }

  /** Where the list of candidates is: the payload itself, its `blocks`, or else its `chain`. */
  lemma PayloadIsReadAs(payload: Json)
    ensures var r := ImportJson.ResolvePayloadShape(payload);
            && (payload.Arr? ==> r == Some((ImportJson.ArrayShape, payload.items)))
            && (payload.Obj? ==>
                  var blocks, chain := Get(payload.fields, "blocks"), Get(payload.fields, "chain");
                  && (blocks.Arr? ==> r == Some((ImportJson.ObjectBlocks, blocks.items)))
                  && (!blocks.Arr? && chain.Arr? ==> r == Some((ImportJson.LegacyChain, chain.items)))
                  && (!blocks.Arr? && !chain.Arr? ==> r == None))
            && (!payload.Arr? && !payload.Obj? ==> r == None)
  {
  }

  // ---- the replay importer ----

  predicate IsText(v: Json) { v.Str? }

  lemma {:induction false} StringsAreTheTexts(items: seq<Json>)
    ensures StringItems(ReplayNormalizer.Strings(items)) == Filter(items, IsText)
  {
    if items != [] { StringsAreTheTexts(items[..|items| - 1]); }
  }

  /** Field by field what a loaded object is read as, and the default for each field. */
  ghost predicate LoadsAs(source: seq<Field>, chain: string, h: ReplayNormalizer.Host,
                          b: ReplayNormalizer.ReplayBlock)
  {
    var index := Get(source, "index");
    var data := if Get(source, "data").Obj? then Get(source, "data").fields else [];
    && (if index.Num? && h.number(index.lexeme).Some? && h.number(index.lexeme).value >= 1.0
        then b.index as real <= h.number(index.lexeme).value < (b.index + 1) as real else b.index == 0)
    && b.timestamp == (if HasText(source, "timestamp") then Get(source, "timestamp").s else "1970-01-01T00:00:00.000Z")
    && b.chain == (if HasText(source, "chain") then Get(source, "chain").s else chain)
    && b.prevHash == (if HasText(source, "prev_hash") then Get(source, "prev_hash").s else seq(64, _ => '0'))
    && b.hash == (if HasText(source, "hash") then Get(source, "hash").s else h.digest(Obj(source)))
    && b.data.blockType == (if Get(data, "block_type").Str? then Get(data, "block_type").s
                            else if Get(data, "type").Str? then Get(data, "type").s else "journal")
    && b.data.content == (if Get(data, "content").Str? then Get(data, "content").s else h.stringify(Obj(data)))
    && StringItems(b.data.tags) == (if Get(data, "tags").Arr? then Filter(Get(data, "tags").items, IsText) else [])
  }

  lemma BlockLoadsAs(source: seq<Field>, chain: string, h: ReplayNormalizer.Host)
    ensures var r := ReplayNormalizer.NormalizeBlock(Obj(source), chain, h);
            r.Some? && LoadsAs(source, chain, h, r.value)
  {
    var data := if Get(source, "data").Obj? then Get(source, "data").fields else [];
    if Get(data, "tags").Arr? { StringsAreTheTexts(Get(data, "tags").items); }
    assert ZERO_HASH == seq(64, _ => '0');
  }
}

/** Reading the fields of a parsed JSON object. */
module JsonFields {
  import opened Common
  import opened JsonText

  /** No array is longer than this. */
  const MAX_ARRAY_LENGTH := 0xFFFF_FFFF

  /** `source[key]`. */
  function Get(fields: seq<Field>, key: string): Json {
    if fields == [] then Undefined
    else if fields[|fields| - 1].key == key then fields[|fields| - 1].value
    else Get(fields[..|fields| - 1], key)
  }

  lemma {:induction false} GetAt(fields: seq<Field>, i: nat)
    requires DistinctKeys(fields) && i < |fields|
    ensures Get(fields, fields[i].key) == fields[i].value
  {
    if i < |fields| - 1 { GetAt(fields[..|fields| - 1], i); }
  }

  lemma {:induction false} GetMissing(fields: seq<Field>, key: string)
    requires forall i :: 0 <= i < |fields| ==> fields[i].key != key
    ensures Get(fields, key) == Undefined
  {
    if fields != [] { GetMissing(fields[..|fields| - 1], key); }
  }

  predicate Present(f: Field) { f.value != Undefined }

  /** An undefined value is not written to a file. */
  function Written(fields: seq<Field>): seq<Field> { Filter(fields, Present) }

  /** Reading a file back gives every field the value it had, the undefined ones included. */
  lemma {:induction false} WrittenReadsBack(fields: seq<Field>, key: string)
    requires DistinctKeys(fields)
    ensures Get(Written(fields), key) == Get(fields, key)
  {
    if fields != [] {
      var front, last := fields[..|fields| - 1], fields[|fields| - 1];
      WrittenReadsBack(front, key);
      if Present(last) {
        assert Written(fields)[..|Written(front)|] == Written(front);
      } else if last.key == key {
        GetMissing(front, key);
      }
    }
  }

  /** A list of texts as an array's items. */
  function StringItems(texts: seq<string>): seq<Json> { seq(|texts|, i requires 0 <= i < |texts| => Str(texts[i])) }
}

/** The key-sorting printer whose text equality stands for equality of JSON values. */
module CanonicalPrinter {
  import opened Common
  import opened Sorting
  import opened JsonText

  /** `le(a, b)`: `a.localeCompare(b)` is not positive. */
  type KeyOrder = (string, string) -> bool

  function ByKey(le: KeyOrder): (Field, Field) -> bool { (a: Field, b: Field) => le(a.key, b.key) }

  /** Fields sorted by key, at every depth. */
  function Canonical(v: Json, le: KeyOrder): Json
    decreases v
  {
    match v
    case Arr(items) => Arr(seq(|items|, i requires 0 <= i < |items| => Canonical(items[i], le)))
    case Obj(fields) => Obj(Sort(seq(|fields|, i requires 0 <= i < |fields| =>
                                       Field(fields[i].key, Canonical(fields[i].value, le))), ByKey(le)))
    case _ => v
  }

  function CanonicalFields(fields: seq<Field>, le: KeyOrder): (r: seq<Field>)
    ensures |r| == |fields|
    ensures forall i :: 0 <= i < |fields| ==> r[i] == Field(fields[i].key, Canonical(fields[i].value, le))
  {
    seq(|fields|, i requires 0 <= i < |fields| => Field(fields[i].key, Canonical(fields[i].value, le)))
  }

  lemma CanonicalObj(fields: seq<Field>, le: KeyOrder)
    ensures Canonical(Obj(fields), le) == Obj(Sort(CanonicalFields(fields, le), ByKey(le)))
  {
    assert CanonicalFields(fields, le) ==
           seq(|fields|, i requires 0 <= i < |fields| => Field(fields[i].key, Canonical(fields[i].value, le)));
  }

  function StableStringify(v: Json, le: KeyOrder): string { Print(Canonical(v, le)) }

  /** Equality of JSON values: the order of an object's fields does not matter. */
  ghost predicate SameValue(a: Json, b: Json)
    decreases a, 0
  {
    match (a, b)
    case (Arr(x), Arr(y)) => |x| == |y| && forall i :: 0 <= i < |x| ==> SameValue(x[i], y[i])
    case (Obj(x), Obj(y)) => |x| == |y| && forall i :: 0 <= i < |x| ==> HasField(y, x[i].key, x[i].value)
    case _ => a == b
  }

  /** The object with these fields has `value` under `key`. */
  ghost predicate HasField(fields: seq<Field>, key: string, value: Json)
    decreases value, 1
  {
    exists j :: 0 <= j < |fields| && fields[j].key == key && SameValue(value, fields[j].value)
  }

  /** Distinct keys keep canonical fields apart, also after sorting. */
  lemma SortedFieldsDistinct(fields: seq<Field>, le: KeyOrder)
    requires DistinctKeys(fields)
    ensures NoDup(CanonicalFields(fields, le))
    ensures NoDup(Sort(CanonicalFields(fields, le), ByKey(le)))
    ensures DistinctKeys(Sort(CanonicalFields(fields, le), ByKey(le)))
    ensures forall f, g :: f in CanonicalFields(fields, le) && g in CanonicalFields(fields, le) && f.key == g.key ==>
        f == g
  {
    var c := CanonicalFields(fields, le);
    SortNoDup(c, ByKey(le));
    var s := Sort(c, ByKey(le));
    forall i, j | 0 <= i < j < |s| ensures s[i].key != s[j].key {
      assert s[i] in c && s[j] in c && s[i] != s[j];
    }
  }

  lemma {:induction false} CanonicalWf(v: Json, le: KeyOrder)
    requires Wf(v)
    ensures Wf(Canonical(v, le)) && (Canonical(v, le) == Undefined <==> v == Undefined)
    decreases v
  {
    match v {
      case Arr(items) =>
        forall i | 0 <= i < |items| ensures Wf(Canonical(items[i], le)) && Canonical(items[i], le) != Undefined {
          CanonicalWf(items[i], le);
        }
      case Obj(fields) =>
        CanonicalObj(fields, le);
        SortedFieldsDistinct(fields, le);
        var c := CanonicalFields(fields, le);
        forall i | 0 <= i < |fields| ensures Wf(c[i].value) { CanonicalWf(fields[i].value, le); }
        var s := Sort(c, ByKey(le));
        forall i | 0 <= i < |s| ensures Wf(s[i].value) { assert s[i] in c; }
      case _ =>
    }
  }

  /** Whatever the comparator does, equal canonical forms come from equal values. */
  lemma {:induction false} SameCanonicalSameValue(a: Json, b: Json, le: KeyOrder)
    requires Canonical(a, le) == Canonical(b, le)
    ensures SameValue(a, b)
    decreases a, 1
  {
    SameKind(a, b, le);
    if a.Arr? {
      SameCanonicalSameItems(a.items, b.items, le);
    } else if a.Obj? {
      CanonicalObj(a.fields, le);
      CanonicalObj(b.fields, le);
      SameCanonicalSameFields(a.fields, b.fields, le);
    }
  }

  lemma SameKind(a: Json, b: Json, le: KeyOrder)
    requires Canonical(a, le) == Canonical(b, le)
    ensures (a.Arr? <==> b.Arr?) && (a.Obj? <==> b.Obj?) && (!a.Arr? && !a.Obj? ==> a == b)
  {
  }

  lemma {:induction false} SameCanonicalSameItems(x: seq<Json>, y: seq<Json>, le: KeyOrder)
    requires Canonical(Arr(x), le) == Canonical(Arr(y), le)
    ensures |x| == |y| && forall i :: 0 <= i < |x| ==> SameValue(x[i], y[i])
    decreases x, 0
  {
    var c, d := Canonical(Arr(x), le).items, Canonical(Arr(y), le).items;
    assert |c| == |x| && |d| == |y|;
    forall i | 0 <= i < |x| ensures SameValue(x[i], y[i]) {
      assert c[i] == Canonical(x[i], le) && d[i] == Canonical(y[i], le);
      SameCanonicalSameValue(x[i], y[i], le);
    }
  }

  lemma {:induction false} SameCanonicalSameFields(x: seq<Field>, y: seq<Field>, le: KeyOrder)
    requires Sort(CanonicalFields(x, le), ByKey(le)) == Sort(CanonicalFields(y, le), ByKey(le))
    ensures |x| == |y|
    ensures forall i :: 0 <= i < |x| ==> HasField(y, x[i].key, x[i].value)
    decreases x, 0
  {
    hide Canonical, SameValue;
    var cx, cy := CanonicalFields(x, le), CanonicalFields(y, le);
    forall i | 0 <= i < |x| ensures HasField(y, x[i].key, x[i].value) {
      assert cx[i] in Sort(cx, ByKey(le));
      var j :| 0 <= j < |cy| && cy[j] == cx[i];
      SameCanonicalSameValue(x[i].value, y[j].value, le);
    }
  }

  /** What any comparator of strings that sorting relies on satisfies. */
  ghost predicate Ordering(le: KeyOrder) { Total(le) && Transitive(le) }

  /** Different keys never compare as equal. Some collations violate this. */
  ghost predicate Separating(le: KeyOrder) { forall j, k :: le(j, k) && le(k, j) ==> j == k }

  predicate Tied(le: KeyOrder, j: string, k: string) { le(j, k) && le(k, j) }

  predicate NoTies(fields: seq<Field>, le: KeyOrder) {
    forall i, j :: 0 <= i < j < |fields| ==> !Tied(le, fields[i].key, fields[j].key)
  }

  /** No object inside `v` has two keys that compare as equal. */
  predicate Separated(v: Json, le: KeyOrder)
    decreases v
  {
    match v
    case Arr(items) => forall i :: 0 <= i < |items| ==> Separated(items[i], le)
    case Obj(fields) => NoTies(fields, le) && forall i :: 0 <= i < |fields| ==> Separated(fields[i].value, le)
    case _ => true
  }

  lemma {:induction false} SeparatingSeparates(v: Json, le: KeyOrder)
    requires Separating(le) && Wf(v)
    ensures Separated(v, le)
    decreases v
  {
    match v {
      case Arr(items) =>
        forall i | 0 <= i < |items| ensures Separated(items[i], le) { SeparatingSeparates(items[i], le); }
      case Obj(fields) =>
        forall i | 0 <= i < |fields| ensures Separated(fields[i].value, le) {
          SeparatingSeparates(fields[i].value, le);
        }
      case _ =>
    }
  }

  /** As long as no object of theirs has tied keys, equal values have equal canonical forms. */
  lemma {:induction false} SameValueSameCanonical(a: Json, b: Json, le: KeyOrder)
    requires Ordering(le) && Separated(a, le) && Wf(a) && Wf(b) && SameValue(a, b)
    ensures Canonical(a, le) == Canonical(b, le)
    decreases a
  {
    match a {
      case Arr(x) =>
        var y := b.items;
        forall i | 0 <= i < |x| ensures Canonical(x[i], le) == Canonical(y[i], le) {
          SameValueSameCanonical(x[i], y[i], le);
        }
      case Obj(x) =>
        var y := b.fields;
        CanonicalObj(x, le);
        CanonicalObj(y, le);
        var cx, cy := CanonicalFields(x, le), CanonicalFields(y, le);
        forall i | 0 <= i < |x| ensures cx[i] in cy {
          assert HasField(y, x[i].key, x[i].value);
          var j :| 0 <= j < |y| && x[i].key == y[j].key && SameValue(x[i].value, y[j].value);
          SameValueSameCanonical(x[i].value, y[j].value, le);
          assert cx[i] == cy[j];
        }
        SortedFieldsDistinct(x, le);
        SortedFieldsDistinct(y, le);
        SameFieldsSameOrder(cx, cy, le);
      case _ =>
    }
  }

  lemma SameFieldsSameOrder(x: seq<Field>, y: seq<Field>, le: KeyOrder)
    requires Ordering(le) && NoTies(x, le) && |x| == |y| && NoDup(x) && NoDup(y)
    requires forall i :: 0 <= i < |x| ==> x[i] in y
    ensures Sort(x, ByKey(le)) == Sort(y, ByKey(le))
  {
    var s, t := Sort(x, ByKey(le)), Sort(y, ByKey(le));
    ByKeySorts(x, le);
    ByKeySorts(y, le);
    SameElems(x, y);
    forall f, g | f in s && g in s && ByKey(le)(f, g) && ByKey(le)(g, f) ensures f == g {
      UntiedFields(x, le, f, g);
    }
    SortedUnique(s, t, ByKey(le));
  }

  lemma UntiedFields(x: seq<Field>, le: KeyOrder, f: Field, g: Field)
    requires NoTies(x, le) && f in x && g in x && Tied(le, f.key, g.key)
    ensures f == g
  {
    var i :| 0 <= i < |x| && x[i] == f;
    var j :| 0 <= j < |x| && x[j] == g;
  }

  lemma ByKeySorts(x: seq<Field>, le: KeyOrder)
    requires Ordering(le) && NoDup(x)
    ensures var s := Sort(x, ByKey(le)); SortedBy(s, ByKey(le)) && NoDup(s) && Elems(s) == Elems(x)
  {
    forall f, g ensures ByKey(le)(f, g) || ByKey(le)(g, f) { assert le(f.key, g.key) || le(g.key, f.key); }
    forall f, g, h | ByKey(le)(f, g) && ByKey(le)(g, h) ensures ByKey(le)(f, h) {
      assert le(f.key, g.key) && le(g.key, h.key);
    }
    SortSorts(x, ByKey(le));
    SortNoDup(x, ByKey(le));
  }

  lemma SameElems(x: seq<Field>, y: seq<Field>)
    requires |x| == |y| && NoDup(x) && NoDup(y)
    requires forall i :: 0 <= i < |x| ==> x[i] in y
    ensures Elems(x) == Elems(y)
  {
    NoDupCard(x);
    NoDupCard(y);
    SubsetCard(Elems(x), Elems(y));
  }

  /** Objects whose fields line up are the same value exactly when their fields are. */
  lemma AlignedObjects(x: seq<Field>, y: seq<Field>)
    requires |x| == |y| && DistinctKeys(x) && forall i :: 0 <= i < |x| ==> x[i].key == y[i].key
    ensures SameValue(Obj(x), Obj(y)) <==> forall i :: 0 <= i < |x| ==> SameValue(x[i].value, y[i].value)
  {
    forall i | 0 <= i < |x| ensures HasField(y, x[i].key, x[i].value) <==> SameValue(x[i].value, y[i].value) {
      AlignedField(x, y, i);
    }
  }

  lemma AlignedField(x: seq<Field>, y: seq<Field>, i: nat)
    requires |x| == |y| && DistinctKeys(x) && (forall n :: 0 <= n < |x| ==> x[n].key == y[n].key) && i < |x|
    ensures HasField(y, x[i].key, x[i].value) <==> SameValue(x[i].value, y[i].value)
  {
    hide SameValue;
    assert forall j :: 0 <= j < |y| && y[j].key == x[i].key ==> x[j].key == x[i].key;
  }

  /** Objects with one list of keys and equal sorted forms have equal forms of each field. */
  lemma AlignedFieldsShow(x: seq<Field>, y: seq<Field>, le: KeyOrder, i: nat)
    requires |x| == |y| && DistinctKeys(y) && (forall n :: 0 <= n < |x| ==> x[n].key == y[n].key) && i < |x|
    requires Canonical(Obj(x), le) == Canonical(Obj(y), le)
    ensures Canonical(x[i].value, le) == Canonical(y[i].value, le)
  {
    CanonicalObj(x, le);
    CanonicalObj(y, le);
    hide Canonical, Sort;
    var cx, cy := CanonicalFields(x, le), CanonicalFields(y, le);
    assert cx[i] in Sort(cx, ByKey(le));
    var n :| 0 <= n < |cy| && cy[n] == cx[i];
    assert y[n].key == y[i].key;
  }

  lemma EqualTextsShow(x: seq<Field>, y: seq<Field>, le: KeyOrder, i: nat)
    requires Wf(Obj(x)) && Wf(Obj(y)) && StableStringify(Obj(x), le) == StableStringify(Obj(y), le)
    requires |x| == |y| && (forall n :: 0 <= n < |x| ==> x[n].key == y[n].key) && i < |x|
    ensures Canonical(x[i].value, le) == Canonical(y[i].value, le)
  {
    hide Canonical, PrintTo;
    CanonicalWf(Obj(x), le);
    CanonicalWf(Obj(y), le);
    PrintInjective(Canonical(Obj(x), le), Canonical(Obj(y), le), "", "");
    AlignedFieldsShow(x, y, le, i);
  }

  /** Objects with one list of keys and equal canonical values are written alike, whatever the comparator does. */
  lemma AlignedFieldsAgree(x: seq<Field>, y: seq<Field>, le: KeyOrder)
    requires |x| == |y| && (forall n :: 0 <= n < |x| ==> x[n].key == y[n].key)
    requires forall n :: 0 <= n < |x| ==> Canonical(x[n].value, le) == Canonical(y[n].value, le)
    ensures Canonical(Obj(x), le) == Canonical(Obj(y), le)
  {
    CanonicalObj(x, le);
    CanonicalObj(y, le);
    hide Canonical;
    assert CanonicalFields(x, le) == CanonicalFields(y, le);
  }

  /** Equal texts come from equal values under any comparator; equal values have equal texts unless one of their
      objects has tied keys. */
  lemma TextDecidesValue(a: Json, b: Json, le: KeyOrder)
    requires Wf(a) && Wf(b)
    ensures StableStringify(a, le) == StableStringify(b, le) ==> SameValue(a, b)
    ensures Ordering(le) && Separated(a, le) && SameValue(a, b) ==> StableStringify(a, le) == StableStringify(b, le)
  {
    if StableStringify(a, le) == StableStringify(b, le) {
      CanonicalWf(a, le);
      CanonicalWf(b, le);
      PrintInjective(Canonical(a, le), Canonical(b, le), "", "");
      SameCanonicalSameValue(a, b, le);
    }
    if Ordering(le) && Separated(a, le) && SameValue(a, b) {
      SameValueSameCanonical(a, b, le);
    }
  }

  /** An object with two keys, in the given order. */
  function Pair(j: string, k: string): Json { Obj([Field(j, Null), Field(k, Null)]) }

  /** Two keys that compare as equal stay in the order they were written in, and the text shows it. */
  lemma TiedKeysShow(j: string, k: string, le: KeyOrder)
    requires j != k && Tied(le, j, k)
    ensures Wf(Pair(j, k)) && Wf(Pair(k, j)) && SameValue(Pair(j, k), Pair(k, j))
    ensures StableStringify(Pair(j, k), le) != StableStringify(Pair(k, j), le)
  {
    PairIsCanonical(j, k, le);
    PairIsCanonical(k, j, le);
    PairsAreSame(j, k);
    PairTextsDiffer(j, k);
  }

  lemma PairTextsDiffer(j: string, k: string)
    requires j != k
    ensures Wf(Pair(j, k)) && Wf(Pair(k, j)) && Print(Pair(j, k)) != Print(Pair(k, j))
  {
    hide PrintTo;
    assert Pair(j, k).fields[0].key != Pair(k, j).fields[0].key;
    if Print(Pair(j, k)) == Print(Pair(k, j)) {
      PrintInjective(Pair(j, k), Pair(k, j), "", "");
    }
  }

  lemma PairIsCanonical(j: string, k: string, le: KeyOrder)
    requires le(j, k)
    ensures Canonical(Pair(j, k), le) == Pair(j, k)
  {
    var fields := Pair(j, k).fields;
    CanonicalObj(fields, le);
    assert CanonicalFields(fields, le) == fields;
    SortedIsFixed(fields, ByKey(le));
  }

  lemma PairsAreSame(j: string, k: string)
    ensures SameValue(Pair(j, k), Pair(k, j))
  {
    var x, y := Pair(j, k).fields, Pair(k, j).fields;
    assert y[1].key == j && SameValue(Null, y[1].value);
    assert y[0].key == k && SameValue(Null, y[0].value);
    assert HasField(y, j, Null) && HasField(y, k, Null);
  }

  /** The order in which keys are written never shows, in any value, exactly when the comparator tells all
      keys apart. */
  lemma KeyOrderNeverShowsIff(le: KeyOrder)
    requires Ordering(le)
    ensures Separating(le) <==>
            forall a, b :: Wf(a) && Wf(b) && SameValue(a, b) ==> StableStringify(a, le) == StableStringify(b, le)
  {
    hide Wf, SameValue, StableStringify, Separated;
    if Separating(le) {
      forall a, b | Wf(a) && Wf(b) && SameValue(a, b) ensures StableStringify(a, le) == StableStringify(b, le) {
        SeparatingSeparates(a, le);
        TextDecidesValue(a, b, le);
      }
    } else {
      var j, k :| le(j, k) && le(k, j) && j != k;
      TiedKeysShow(j, k, le);
    }
  }
}

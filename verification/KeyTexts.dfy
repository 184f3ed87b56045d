/** Reading a printed value from the left: why a time and a value with a colon between them can be told apart. */
module KeyTexts {
  import opened Common
  import opened JsonText

  /** Where a reader is: between tokens at some bracket depth, inside a string, behind a backslash, or lost. */
  datatype Reading = Outside(depth: nat) | Inside(depth: nat) | Escaped(depth: nat) | Lost

  function ReadChar(st: Reading, c: char): Reading {
    match st
    case Lost => Lost
    case Escaped(d) => Inside(d)
    case Inside(d) => if c == '\\' then Escaped(d) else if c == '"' then Outside(d) else st
    case Outside(d) =>
      if c == '"' then Inside(d)
      else if c == '{' || c == '[' then Outside(d + 1)
      else if c == '}' || c == ']' then (if d == 0 then Lost else Outside(d - 1))
      else if c == ':' then (if d == 0 then Lost else st)
      else if c == '\\' then Lost
      else st
  }

  function Read(st: Reading, t: string): Reading
    decreases |t|
  {
    if t == "" then st else Read(ReadChar(st, t[0]), t[1..])
  }

  lemma {:induction false} ReadConcat(st: Reading, a: string, b: string)
    ensures Read(st, a + b) == Read(Read(st, a), b)
    decreases |a|
  {
    if a == "" {
      assert a + b == b;
    } else {
      assert (a + b)[0] == a[0] && (a + b)[1..] == a[1..] + b;
      ReadConcat(ReadChar(st, a[0]), a[1..], b);
    }
  }

  lemma ReadHead(st: Reading, c: char, rest: string)
    ensures Read(st, [c] + rest) == Read(ReadChar(st, c), rest)
  {
    assert ([c] + rest)[1..] == rest;
  }

  // ---- a printed value leaves the reader where it was ----

  lemma EscapeIsRead(c: char, d: nat, rest: string)
    ensures Read(Inside(d), Escape(c) + rest) == Read(Inside(d), rest)
  {
    var t := Escape(c);
    ReadConcat(Inside(d), t, rest);
    if |t| == 2 {
      assert t == [t[0]] + [t[1]];
      ReadHead(Inside(d), t[0], [t[1]]);
      assert Read(Escaped(d), [t[1]]) == Read(Inside(d), "");
    } else if |t| == 6 {
      assert t == [t[0]] + ([t[1]] + t[2..]);
      ReadHead(Inside(d), t[0], [t[1]] + t[2..]);
      ReadHead(Escaped(d), t[1], t[2..]);
      PlainIsRead(t[2..], d);
    } else {
      assert t == [c];
      assert Read(Inside(d), [c]) == Read(ReadChar(Inside(d), c), "");
    }
  }

  lemma {:induction false} PlainIsRead(t: string, d: nat)
    requires forall i :: 0 <= i < |t| ==> t[i] != '"' && t[i] != '\\'
    ensures Read(Inside(d), t) == Inside(d)
    decreases |t|
  {
    if t != "" { PlainIsRead(t[1..], d); }
  }

  lemma {:induction false} CharsAreRead(s: string, d: nat, rest: string)
    ensures Read(Inside(d), CharsTo(s, rest)) == Read(Inside(d), rest)
    decreases |s|
  {
    if s != "" {
      EscapeIsRead(s[0], d, CharsTo(s[1..], rest));
      CharsAreRead(s[1..], d, rest);
    }
  }

  lemma QuoteIsRead(s: string, d: nat, rest: string)
    ensures Read(Outside(d), QuoteTo(s, rest)) == Read(Outside(d), rest)
  {
    ReadHead(Outside(d), '"', CharsTo(s, ['"'] + rest));
    CharsAreRead(s, d, ['"'] + rest);
    ReadHead(Inside(d), '"', rest);
  }

  predicate Neutral(t: string) {
    forall i :: 0 <= i < |t| ==> t[i] !in ['"', '{', '[', '}', ']', ':', '\\']
  }

  lemma {:induction false} NeutralIsRead(t: string, d: nat, rest: string)
    requires Neutral(t)
    ensures Read(Outside(d), t + rest) == Read(Outside(d), rest)
    decreases |t|
  {
    if t == "" {
      assert t + rest == rest;
    } else {
      assert t + rest == [t[0]] + (t[1..] + rest);
      ReadHead(Outside(d), t[0], t[1..] + rest);
      NeutralIsRead(t[1..], d, rest);
    }
  }

  lemma {:induction false} ValueIsRead(v: Json, d: nat, rest: string)
    requires Wf(v)
    ensures Read(Outside(d), PrintTo(v, rest)) == Read(Outside(d), rest)
    decreases v
  {
    match v
    case Null => NeutralIsRead("null", d, rest);
    case Bool(b) => NeutralIsRead("true", d, rest); NeutralIsRead("false", d, rest);
    case Num(t) => NeutralIsRead(t, d, rest);
    case Str(s) => QuoteIsRead(s, d, rest);
    case Arr(items) =>
      ReadHead(Outside(d), '[', ItemsTo(items, [']'] + rest));
      ItemsAreRead(items, d + 1, [']'] + rest);
      ReadHead(Outside(d + 1), ']', rest);
    case Obj(fields) =>
      ReadHead(Outside(d), '{', FieldsTo(fields, ['}'] + rest));
      FieldsAreRead(fields, d + 1, ['}'] + rest);
      ReadHead(Outside(d + 1), '}', rest);
    case Undefined => NeutralIsRead("undefined", d, rest);
  }

  lemma {:induction false} ItemsAreRead(items: seq<Json>, d: nat, rest: string)
    requires forall i :: 0 <= i < |items| ==> Wf(items[i])
    ensures Read(Outside(d), ItemsTo(items, rest)) == Read(Outside(d), rest)
    decreases items
  {
    if items != [] {
      ValueIsRead(items[0], d, AfterItem(items, rest));
      if |items| > 1 {
        ReadHead(Outside(d), ',', ItemsTo(items[1..], rest));
        ItemsAreRead(items[1..], d, rest);
      }
    }
  }

  lemma {:induction false} FieldsAreRead(fields: seq<Field>, d: nat, rest: string)
    requires d > 0 && forall i :: 0 <= i < |fields| ==> Wf(fields[i].value)
    ensures Read(Outside(d), FieldsTo(fields, rest)) == Read(Outside(d), rest)
    decreases fields
  {
    if fields != [] {
      var value := PrintTo(fields[0].value, AfterField(fields, rest));
      QuoteIsRead(fields[0].key, d, [':'] + value);
      ReadHead(Outside(d), ':', value);
      ValueIsRead(fields[0].value, d, AfterField(fields, rest));
      if |fields| > 1 {
        ReadHead(Outside(d), ',', FieldsTo(fields[1..], rest));
        FieldsAreRead(fields[1..], d, rest);
      }
    }
  }

  // ---- two readers of one text, one of which takes strings for structure and the other way round ----

  predicate Opposite(a: Reading, b: Reading) {
    a.Lost? || b.Lost? || (a.Outside? && b.Inside?) || (a.Inside? && b.Outside?)
  }

  lemma {:induction false} OppositeStays(a: Reading, b: Reading, t: string)
    requires Opposite(a, b)
    ensures Opposite(Read(a, t), Read(b, t))
    decreases |t|
  {
    if t != "" { OppositeStays(ReadChar(a, t[0]), ReadChar(b, t[0]), t[1..]); }
  }

  lemma {:induction false} LostForGood(t: string)
    ensures Read(Lost, t) == Lost
    decreases |t|
  {
    if t != "" { LostForGood(t[1..]); }
  }

  /** Behind a colon a reader that takes in a whole value is not back at depth 0. */
  lemma ColonLeavesTop(st: Reading, w: Json)
    requires Wf(w)
    ensures Read(ReadChar(st, ':'), Print(w)) != Outside(0)
  {
    hide PrintTo, Wf;
    var at := ReadChar(st, ':');
    match at
    case Lost => LostForGood(Print(w));
    case Outside(d) => ValueIsRead(w, d, "");
    case Inside(d) =>
      ValueIsRead(w, 0, "");
      OppositeStays(Outside(0), at, Print(w));
    case Escaped(_) =>
  }

  /** No printed value ends in a colon and another printed value. */
  lemma NoValueInTail(v: Json, before: string, w: Json)
    requires Wf(v) && Wf(w)
    ensures Print(v) != before + ([':'] + Print(w))
  {
    hide PrintTo, Wf, ReadChar;
    if Print(v) == before + ([':'] + Print(w)) {
      ValueIsRead(v, 0, "");
      ReadConcat(Outside(0), before, [':'] + Print(w));
      ReadHead(Read(Outside(0), before), ':', Print(w));
      ColonLeavesTop(Read(Outside(0), before), w);
    }
  }

  /** Whatever colons the two times contain: a time, a colon and a printed value can be taken apart in one way only. */
  lemma OneColonFits(time: string, v: Json, other: string, w: Json)
    requires Wf(v) && Wf(w)
    ensures time + ([':'] + Print(v)) == other + ([':'] + Print(w)) <==> time == other && Print(v) == Print(w)
  {
    if time + ([':'] + Print(v)) == other + ([':'] + Print(w)) {
      if |time| < |other| {
        LongerTime(time, v, other, w);
      } else if |other| < |time| {
        LongerTime(other, w, time, v);
      } else {
        var t := time + ([':'] + Print(v));
        assert time == t[..|time|] == other;
        assert Print(v) == t[|time| + 1..] == Print(w);
      }
    }
  }

  lemma LongerTime(time: string, v: Json, other: string, w: Json)
    requires Wf(v) && Wf(w) && |time| < |other|
    ensures time + ([':'] + Print(v)) != other + ([':'] + Print(w))
  {
    var t := time + ([':'] + Print(v));
    if t == other + ([':'] + Print(w)) {
      var between := other[|time| + 1..];
      assert Print(v) == t[|time| + 1..] == between + ([':'] + Print(w));
      NoValueInTail(v, between, w);
    }
  }
}

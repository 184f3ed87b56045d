/** JSON values and their printed text (RFC 8259, sections 4 to 7). */
module JsonText {
  import opened Common

  /** A number is kept as the text it prints to. `Undefined` is not JSON: it stands for an absent field value. */
  datatype Json =
    | Null
    | Bool(b: bool)
    | Num(lexeme: string)
    | Str(s: string)
    | Arr(items: seq<Json>)
    | Obj(fields: seq<Field>)
    | Undefined

  datatype Field = Field(key: string, value: Json)

  predicate NumChar(c: char) { '0' <= c <= '9' || c == '-' || c == '+' || c == '.' || c == 'e' || c == 'E' }

  predicate IsLexeme(t: string) { t != "" && t[0] != 'e' && forall i :: 0 <= i < |t| ==> NumChar(t[i]) }

  predicate DistinctKeys(fields: seq<Field>) {
    forall i, j :: 0 <= i < j < |fields| ==> fields[i].key != fields[j].key
  }

  /** Objects have distinct keys, and nothing is undefined inside an array. */
  predicate Wf(v: Json)
    decreases v
  {
    match v
    case Num(t) => IsLexeme(t)
    case Arr(items) => forall i :: 0 <= i < |items| ==> items[i] != Undefined && Wf(items[i])
    case Obj(fields) => DistinctKeys(fields) && forall i :: 0 <= i < |fields| ==> Wf(fields[i].value)
    case _ => true
  }

  /** An optional text as a field's value. */
  function Text(v: Option<string>): Json { match v case Some(s) => Str(s) case None => Undefined }

  // ---- strings ----

  function HexDigit(n: nat): char
    requires n < 16
  {
    "0123456789abcdef"[n]
  }

  /** Control characters, the quote and the backslash are escaped; everything else is printed as it is. */
  function Escape(c: char): string {
    if c == '"' then "\\\""
    else if c == '\\' then "\\\\"
    else if c as int == 8 then "\\b"
    else if c as int == 12 then "\\f"
    else if c == '\n' then "\\n"
    else if c == '\r' then "\\r"
    else if c == '\t' then "\\t"
    else if c as int < 32 then "\\u00" + [HexDigit(c as int / 16), HexDigit(c as int % 16)]
    else [c]
  }

  /** The escaped characters of `s` in front of `rest`. */
  function CharsTo(s: string, rest: string): string {
    if s == "" then rest else Escape(s[0]) + CharsTo(s[1..], rest)
  }

  function QuoteTo(s: string, rest: string): string { ['"'] + CharsTo(s, ['"'] + rest) }

  // ---- compact text ----

  /** The text of `v` in front of `rest`. */
  function PrintTo(v: Json, rest: string): string
    decreases v
  {
    match v
    case Null => "null" + rest
    case Bool(b) => (if b then "true" else "false") + rest
    case Num(t) => t + rest
    case Str(s) => QuoteTo(s, rest)
    case Arr(items) => ['['] + ItemsTo(items, [']'] + rest)
    case Obj(fields) => ['{'] + FieldsTo(fields, ['}'] + rest)
    case Undefined => "undefined" + rest
  }

  function ItemsTo(items: seq<Json>, rest: string): string
    decreases items
  {
    if items == [] then rest
    else PrintTo(items[0], AfterItem(items, rest))
  }

  function AfterItem(items: seq<Json>, rest: string): string
    requires items != []
    decreases items, 0
  {
    if |items| == 1 then rest else [','] + ItemsTo(items[1..], rest)
  }

  function FieldsTo(fields: seq<Field>, rest: string): string
    decreases fields
  {
    if fields == [] then rest
    else
      QuoteTo(fields[0].key, [':'] + PrintTo(fields[0].value, AfterField(fields, rest)))
  }

  function AfterField(fields: seq<Field>, rest: string): string
    requires fields != []
    decreases fields, 0
  {
    if |fields| == 1 then rest else [','] + FieldsTo(fields[1..], rest)
  }

  function Print(v: Json): string { PrintTo(v, "") }

  // ---- the text determines the value ----

  /** What may follow a printed value inside a larger text. */
  predicate Delimited(x: string) { x == "" || x[0] == ',' || x[0] == ']' || x[0] == '}' }

  lemma Cancel(p: string, x: string, y: string)
    requires p + x == p + y
    ensures x == y
  {
    assert (p + x)[|p|..] == x;
    assert (p + y)[|p|..] == y;
  }

  function HexValue(c: char): nat {
    if '0' <= c <= '9' then c as int - '0' as int
    else if 'a' <= c <= 'f' then c as int - 'a' as int + 10
    else 0
  }

  /** Reads one escaped character back: the character, and how much text it took. */
  function Unescape(t: string): (char, nat)
    requires t != ""
  {
    if t[0] != '\\' || |t| < 2 then (t[0], 1)
    else if t[1] == 'b' then (8 as char, 2)
    else if t[1] == 'f' then (12 as char, 2)
    else if t[1] == 'n' then ('\n', 2)
    else if t[1] == 'r' then ('\r', 2)
    else if t[1] == 't' then ('\t', 2)
    else if t[1] == 'u' && |t| >= 6 then ((16 * HexValue(t[4]) + HexValue(t[5])) as char, 6)
    else (t[1], 2)
  }

  lemma HexRoundTrip(n: nat)
    requires n < 16
    ensures HexValue(HexDigit(n)) == n
  {
  }

  lemma EscapeRoundTrip(c: char, x: string)
    ensures Escape(c) != "" && Unescape(Escape(c) + x) == (c, |Escape(c)|)
    ensures Escape(c)[0] != '"'
  {
    var e := Escape(c);
    var t := e + x;
    assert t[0] == e[0];
    if |e| >= 2 { assert t[1] == e[1]; }
    if |e| == 6 {
      assert t[4] == e[4] && t[5] == e[5];
      HexRoundTrip(c as int / 16);
      HexRoundTrip(c as int % 16);
    }
  }

  lemma EscapeInjective(a: char, b: char, x: string, y: string)
    requires Escape(a) + x == Escape(b) + y
    ensures a == b && x == y
  {
    EscapeRoundTrip(a, x);
    EscapeRoundTrip(b, y);
    Cancel(Escape(a), x, y);
  }

  /** A quoted string can be read back: its closing quote is the first unescaped one. */
  lemma {:induction false} CharsInjective(s: string, t: string, x: string, y: string)
    requires x != "" && y != "" && x[0] == '"' && y[0] == '"'
    requires CharsTo(s, x) == CharsTo(t, y)
    ensures s == t && x == y
    decreases |s|
  {
    if s != "" { EscapeRoundTrip(s[0], CharsTo(s[1..], x)); }
    if t != "" { EscapeRoundTrip(t[0], CharsTo(t[1..], y)); }
    if s != "" && t != "" {
      EscapeInjective(s[0], t[0], CharsTo(s[1..], x), CharsTo(t[1..], y));
      CharsInjective(s[1..], t[1..], x, y);
      assert s == [s[0]] + s[1..] && t == [t[0]] + t[1..];
    }
  }

  lemma QuoteInjective(s: string, t: string, x: string, y: string)
    requires QuoteTo(s, x) == QuoteTo(t, y)
    ensures s == t && x == y
  {
    Cancel(['"'], CharsTo(s, ['"'] + x), CharsTo(t, ['"'] + y));
    CharsInjective(s, t, ['"'] + x, ['"'] + y);
    Cancel(['"'], x, y);
  }

  lemma LexemeInjective(s: string, t: string, x: string, y: string)
    requires IsLexeme(s) && IsLexeme(t) && Delimited(x) && Delimited(y)
    requires s + x == t + y
    ensures s == t && x == y
  {
    LexemeNotLonger(s, t, x, y);
    LexemeNotLonger(t, s, y, x);
    assert (s + x)[..|s|] == s && (t + y)[..|t|] == t;
    Cancel(s, x, y);
  }

  lemma LexemeNotLonger(s: string, t: string, x: string, y: string)
    requires IsLexeme(t) && Delimited(x) && s + x == t + y
    ensures |s| >= |t|
  {
    assert forall i :: 0 <= i < |t| ==> NumChar((t + y)[i]);
    assert |s| + |x| == |t| + |y|;
    if x != "" { assert (s + x)[|s|] == x[0]; }
  }

  /** The first character tells what kind of value follows. */
  function Head(v: Json): char
    requires v.Num? ==> v.lexeme != ""
  {
    match v
    case Null => 'n'
    case Bool(b) => if b then 't' else 'f'
    case Num(t) => t[0]
    case Str(_) => '"'
    case Arr(_) => '['
    case Obj(_) => '{'
    case Undefined => 'u'
  }

  lemma PrintStarts(v: Json, rest: string)
    requires Wf(v)
    ensures PrintTo(v, rest) != "" && PrintTo(v, rest)[0] == Head(v)
    ensures Head(v) != ']' && Head(v) != '}' && Head(v) != ','
  {
  }

  lemma SameHeadSameKind(a: Json, b: Json)
    requires Wf(a) && Wf(b) && Head(a) == Head(b)
    ensures (Flat(a) && a == b) || (a.Num? && b.Num?) || (a.Str? && b.Str?) || (a.Arr? && b.Arr?) || (a.Obj? && b.Obj?)
  {
  }

  predicate Flat(v: Json) { v.Null? || v.Bool? || v.Undefined? }

  lemma FlatInjective(v: Json, x: string, y: string)
    requires Flat(v) && PrintTo(v, x) == PrintTo(v, y)
    ensures x == y
  {
    Cancel(if v.Null? then "null" else if v.Undefined? then "undefined" else if v.b then "true" else "false", x, y);
  }

  /** Printing is injective, also for a value in the middle of a text. */
  lemma {:induction false} PrintInjective(a: Json, b: Json, x: string, y: string)
    requires Wf(a) && Wf(b) && Delimited(x) && Delimited(y)
    requires PrintTo(a, x) == PrintTo(b, y)
    ensures a == b && x == y
    decreases a, 1
  {
    PrintStarts(a, x);
    PrintStarts(b, y);
    SameHeadSameKind(a, b);
    if Flat(a) {
      FlatInjective(a, x, y);
    } else if a.Num? {
      LexemeInjective(a.lexeme, b.lexeme, x, y);
    } else if a.Str? {
      QuoteInjective(a.s, b.s, x, y);
    } else if a.Arr? {
      Cancel(['['], ItemsTo(a.items, [']'] + x), ItemsTo(b.items, [']'] + y));
      ItemsInjective(a.items, b.items, [']'] + x, [']'] + y);
      Cancel([']'], x, y);
    } else {
      Cancel(['{'], FieldsTo(a.fields, ['}'] + x), FieldsTo(b.fields, ['}'] + y));
      FieldsInjective(a.fields, b.fields, ['}'] + x, ['}'] + y);
      Cancel(['}'], x, y);
    }
  }

  lemma {:induction false} ItemsInjective(a: seq<Json>, b: seq<Json>, x: string, y: string)
    requires forall i :: 0 <= i < |a| ==> Wf(a[i])
    requires forall i :: 0 <= i < |b| ==> Wf(b[i])
    requires x != "" && y != "" && x[0] == ']' && y[0] == ']'
    requires ItemsTo(a, x) == ItemsTo(b, y)
    ensures a == b && x == y
    decreases a, 0
  {
    if a != [] && b != [] {
      PrintInjective(a[0], b[0], AfterItem(a, x), AfterItem(b, y));
      AfterItemSplits(a, b, x, y);
      if |a| > 1 { ItemsInjective(a[1..], b[1..], x, y); }
      assert a == [a[0]] + a[1..] && b == [b[0]] + b[1..];
    } else {
      if a != [] { PrintStarts(a[0], AfterItem(a, x)); }
      if b != [] { PrintStarts(b[0], AfterItem(b, y)); }
    }
  }

  lemma AfterItemSplits(a: seq<Json>, b: seq<Json>, x: string, y: string)
    requires a != [] && b != [] && AfterItem(a, x) == AfterItem(b, y)
    requires x != "" && y != "" && x[0] == ']' && y[0] == ']'
    ensures |a| == 1 <==> |b| == 1
    ensures if |a| == 1 then x == y else ItemsTo(a[1..], x) == ItemsTo(b[1..], y)
  {
    if |a| > 1 && |b| > 1 { Cancel([','], ItemsTo(a[1..], x), ItemsTo(b[1..], y)); }
  }

  lemma KeyInjective(s: string, t: string, x: string, y: string)
    requires QuoteTo(s, [':'] + x) == QuoteTo(t, [':'] + y)
    ensures s == t && x == y
  {
    QuoteInjective(s, t, [':'] + x, [':'] + y);
    Cancel([':'], x, y);
  }

  lemma {:induction false} FieldsInjective(a: seq<Field>, b: seq<Field>, x: string, y: string)
    requires forall i :: 0 <= i < |a| ==> Wf(a[i].value)
    requires forall i :: 0 <= i < |b| ==> Wf(b[i].value)
    requires x != "" && y != "" && x[0] == '}' && y[0] == '}'
    requires FieldsTo(a, x) == FieldsTo(b, y)
    ensures a == b && x == y
    decreases a, 0
  {
    if a != [] && b != [] {
      KeyInjective(a[0].key, b[0].key, PrintTo(a[0].value, AfterField(a, x)), PrintTo(b[0].value, AfterField(b, y)));
      PrintInjective(a[0].value, b[0].value, AfterField(a, x), AfterField(b, y));
      AfterFieldSplits(a, b, x, y);
      if |a| > 1 { FieldsInjective(a[1..], b[1..], x, y); }
      assert a == [a[0]] + a[1..] && b == [b[0]] + b[1..];
    }
  }

  lemma AfterFieldSplits(a: seq<Field>, b: seq<Field>, x: string, y: string)
    requires a != [] && b != [] && AfterField(a, x) == AfterField(b, y)
    requires x != "" && y != "" && x[0] == '}' && y[0] == '}'
    ensures |a| == 1 <==> |b| == 1
    ensures if |a| == 1 then x == y else FieldsTo(a[1..], x) == FieldsTo(b[1..], y)
  {
    if |a| > 1 && |b| > 1 { Cancel([','], FieldsTo(a[1..], x), FieldsTo(b[1..], y)); }
  }
}

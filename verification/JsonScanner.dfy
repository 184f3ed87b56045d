/** The recovery scanner: cuts top-level JSON objects out of a text that does not parse as a whole. */
module JsonScanner {
  import opened Common
  import opened JsonText

  /** `start` is where the open object began; spans are half-open. */
  datatype Scan = Scan(depth: nat, start: int, inString: bool, escaped: bool, chunks: seq<(nat, nat)>)

  const FRESH: Scan := Scan(0, -1, false, false, [])

  /** One round of the loop, on character `c` at position `i`. */
  function ScanChar(st: Scan, c: char, i: nat): Scan {
    if st.inString then
      if st.escaped then st.(escaped := false)
      else if c == '\\' then st.(escaped := true)
      else if c == '"' then st.(inString := false)
      else st
    else if c == '"' then st.(inString := true)
    else if c == '{' then st.(start := if st.depth == 0 then i else st.start, depth := st.depth + 1)
    else if c == '}' && st.depth > 0 then
      if st.depth == 1 && st.start >= 0
      then st.(depth := 0, start := -1, chunks := st.chunks + [(st.start, i + 1)])
      else st.(depth := st.depth - 1)
    else st
  }

  function ScanText(st: Scan, t: string, i: nat): Scan
    decreases |t|
  {
    if t == "" then st else ScanText(ScanChar(st, t[0], i), t[1..], i + 1)
  }

  lemma {:induction false} ScanConcat(st: Scan, a: string, b: string, i: nat)
    ensures ScanText(st, a + b, i) == ScanText(ScanText(st, a, i), b, i + |a|)
    decreases |a|
  {
    if a == "" {
      assert a + b == b;
    } else {
      assert (a + b)[0] == a[0] && (a + b)[1..] == a[1..] + b;
      ScanConcat(ScanChar(st, a[0], i), a[1..], b, i + 1);
    }
  }

  lemma ScanOne(st: Scan, a: string, c: char, i: nat)
    ensures ScanText(st, a + [c], i) == ScanChar(ScanText(st, a, i), c, i + |a|)
  {
    ScanConcat(st, a, [c], i);
    var mid := ScanText(st, a, i);
    assert [c][1..] == "";
    assert ScanText(mid, [c], i + |a|) == ScanText(ScanChar(mid, c, i + |a|), "", i + |a| + 1);
  }

  // ---- every chunk is a balanced object, and chunks are ordered and disjoint ----

  /** Brace depth outside strings, counted on its own. */
  datatype Level = Level(depth: int, inString: bool, escaped: bool)

  function LevelAfter(t: string): Level
    decreases |t|
  {
    if t == "" then Level(0, false, false)
    else
      var before, c := LevelAfter(t[..|t| - 1]), t[|t| - 1];
      if before.inString then
        Level(before.depth, before.escaped || c != '"', !before.escaped && c == '\\')
      else
        Level(before.depth + (if c == '{' then 1 else if c == '}' then -1 else 0), c == '"', false)
  }

  /** Opens with a brace, and the brace that closes it is the last character. */
  ghost predicate BalancedObject(t: string) {
    && |t| >= 2 && t[0] == '{' && t[|t| - 1] == '}'
    && (forall n :: 0 < n < |t| ==> LevelAfter(t[..n]).depth > 0)
    && LevelAfter(t) == Level(0, false, false)
  }

  ghost predicate ChunksOk(raw: string, upTo: nat, chunks: seq<(nat, nat)>) {
    && (forall k :: 0 <= k < |chunks| ==>
          chunks[k].0 <= chunks[k].1 <= upTo <= |raw| && BalancedObject(raw[chunks[k].0..chunks[k].1]))
    && (forall j, k :: 0 <= j < k < |chunks| ==> chunks[j].1 <= chunks[k].0)
  }

  /** What the scanner knows after the first `n` characters. */
  ghost predicate ScanInvariant(raw: string, n: nat, st: Scan)
    requires n <= |raw|
  {
    && (st.escaped ==> st.inString)
    && (st.depth == 0 <==> st.start == -1)
    && (st.depth > 0 ==>
          && 0 <= st.start < n && raw[st.start] == '{'
          && LevelAfter(raw[st.start..n]) == Level(st.depth, st.inString, st.escaped)
          && (forall m :: st.start < m <= n ==> LevelAfter(raw[st.start..m]).depth > 0))
    && ChunksOk(raw, if st.depth > 0 then st.start else n, st.chunks)
  }

  lemma LevelGrows(raw: string, from: nat, n: nat)
    requires from <= n < |raw|
    ensures raw[from..n + 1] != ""
    ensures raw[from..n + 1][..|raw[from..n + 1]| - 1] == raw[from..n]
    ensures raw[from..n + 1][|raw[from..n + 1]| - 1] == raw[n]
  {
  }

  lemma ScanStep(raw: string, n: nat, st: Scan)
    requires n < |raw| && ScanInvariant(raw, n, st)
    ensures ScanInvariant(raw, n + 1, ScanChar(st, raw[n], n))
  {
    var st' := ScanChar(st, raw[n], n);
    if st.depth > 0 {
      LevelGrows(raw, st.start, n);
      if st'.depth == 0 {
        ChunkCloses(raw, n, st);
      }
    } else if st'.depth > 0 {
      OpeningLevel(raw, n);
    }
  }

  lemma OpeningLevel(raw: string, n: nat)
    requires n < |raw| && raw[n] == '{'
    ensures LevelAfter(raw[n..n + 1]) == Level(1, false, false)
  {
    LevelGrows(raw, n, n);
    assert raw[n..n] == "";
  }

  lemma ChunkCloses(raw: string, n: nat, st: Scan)
    requires n < |raw| && ScanInvariant(raw, n, st)
    requires st.depth == 1 && !st.inString && raw[n] == '}'
    ensures ChunksOk(raw, n + 1, st.chunks + [(st.start, n + 1)])
  {
    ClosingIsBalanced(raw, st.start, n);
    hide BalancedObject, LevelAfter;
    assert ChunksOk(raw, st.start, st.chunks);
  }

  lemma ClosingIsBalanced(raw: string, from: nat, n: nat)
    requires from < n < |raw| && raw[from] == '{' && raw[n] == '}'
    requires LevelAfter(raw[from..n]) == Level(1, false, false)
    requires forall m :: from < m <= n ==> LevelAfter(raw[from..m]).depth > 0
    ensures BalancedObject(raw[from..n + 1])
  {
    LevelGrows(raw, from, n);
    var t := raw[from..n + 1];
    assert LevelAfter(t) == Level(0, false, false);
    hide LevelAfter;
    forall m | 0 < m < |t| ensures LevelAfter(t[..m]).depth > 0 { assert t[..m] == raw[from..from + m]; }
  }

  // ---- the loop ----

  function Texts(raw: string, chunks: seq<(nat, nat)>): seq<string>
    requires forall k :: 0 <= k < |chunks| ==> chunks[k].0 <= chunks[k].1 <= |raw|
  {
    seq(|chunks|, k requires 0 <= k < |chunks| => raw[chunks[k].0..chunks[k].1])
  }

  /** The values of the chunks that parse; a malformed chunk is skipped. */
  function ParseAll(texts: seq<string>, parse: string -> Option<Json>): seq<Json> {
    if texts == [] then []
    else
      var front := ParseAll(texts[..|texts| - 1], parse);
      match parse(texts[|texts| - 1])
      case Some(v) => front + [v]
      case None => front
  }

  /** The scanner has read `n` characters and is in state `st`. */
  ghost predicate ScannedTo(raw: string, n: nat, st: Scan)
    requires n <= |raw|
  {
    st == ScanText(FRESH, raw[..n], 0) && ScanInvariant(raw, n, st)
  }

  lemma ScanAdvances(raw: string, n: nat, st: Scan)
    requires n < |raw| && ScannedTo(raw, n, st)
    ensures ScannedTo(raw, n + 1, ScanChar(st, raw[n], n))
  {
    ScanOne(FRESH, raw[..n], raw[n], 0);
    assert raw[..n + 1] == raw[..n] + [raw[n]];
    ScanStep(raw, n, st);
  }

  lemma ParseAllStep(raw: string, chunks: seq<(nat, nat)>, span: (nat, nat), parse: string -> Option<Json>)
    requires forall k :: 0 <= k < |chunks| ==> chunks[k].0 <= chunks[k].1 <= |raw|
    requires span.0 <= span.1 <= |raw|
    ensures ParseAll(Texts(raw, chunks + [span]), parse) ==
            ParseAll(Texts(raw, chunks), parse) + (match parse(raw[span.0..span.1]) case Some(v) => [v] case None => [])
  {
    var texts := Texts(raw, chunks + [span]);
    assert texts[..|texts| - 1] == Texts(raw, chunks);
  }

  /** On any input at all, what the scanner cuts out is brace-balanced, in order and without overlap. */
  lemma {:induction false} ChunksAreBalanced(raw: string, n: nat)
    requires n <= |raw|
    ensures ScannedTo(raw, n, ScanText(FRESH, raw[..n], 0))
    ensures n == |raw| ==> ChunksOk(raw, |raw|, ScanText(FRESH, raw, 0).chunks)
  {
    if n > 0 {
      ChunksAreBalanced(raw, n - 1);
      ScanAdvances(raw, n - 1, ScanText(FRESH, raw[..n - 1], 0));
    }
    assert raw[..|raw|] == raw;
  }

  /** The objects recovered from the first `n` characters. */
  ghost function ExtractedFrom(raw: string, n: nat, parse: string -> Option<Json>): seq<Json>
    requires n <= |raw|
  {
    ChunksAreBalanced(raw, n);
    ParseAll(Texts(raw, ScanText(FRESH, raw[..n], 0).chunks), parse)
  }

  ghost function Extracted(raw: string, parse: string -> Option<Json>): seq<Json> {
    ExtractedFrom(raw, |raw|, parse)
  }

  predicate Closes(st: Scan, c: char) { !st.inString && c == '}' && st.depth == 1 && st.start >= 0 }

  lemma ExtractedStep(raw: string, n: nat, parse: string -> Option<Json>)
    requires n < |raw|
    ensures var st := ScanText(FRESH, raw[..n], 0);
            && ScanText(FRESH, raw[..n + 1], 0) == ScanChar(st, raw[n], n)
            && (Closes(st, raw[n]) ==> st.start <= n)
            && ExtractedFrom(raw, n + 1, parse) == ExtractedFrom(raw, n, parse) +
                 (if Closes(st, raw[n]) && parse(raw[st.start..n + 1]).Some? then [parse(raw[st.start..n + 1]).value]
                     else [])
  {
    var st := ScanText(FRESH, raw[..n], 0);
    ScanOne(FRESH, raw[..n], raw[n], 0);
    assert raw[..n + 1] == raw[..n] + [raw[n]];
    ChunksAreBalanced(raw, n);
    if Closes(st, raw[n]) { ParseAllStep(raw, st.chunks, (st.start, n + 1), parse); }
  }

  method ExtractJsonObjects(raw: string, parse: string -> Option<Json>) returns (out: seq<Json>)
    ensures out == Extracted(raw, parse)
  {
    out := [];
    var depth: nat, start, inString, escaped := 0, -1, false, false;
    ghost var chunks: seq<(nat, nat)> := [];
    for i := 0 to |raw|
      invariant Scan(depth, start, inString, escaped, chunks) == ScanText(FRESH, raw[..i], 0)
      invariant out == ExtractedFrom(raw, i, parse)
    {
      var ch := raw[i];
      ExtractedStep(raw, i, parse);
      if inString {
        if escaped {
          escaped := false;
        } else if ch == '\\' {
          escaped := true;
        } else if ch == '"' {
          inString := false;
        }
      } else if ch == '"' {
        inString := true;
      } else if ch == '{' {
        if depth == 0 {
          start := i;
        }
        depth := depth + 1;
      } else if ch == '}' && depth > 0 {
        depth := depth - 1;
        if depth == 0 && start >= 0 {
          var parsed := parse(raw[start..i + 1]);
          if parsed.Some? {
            out := out + [parsed.value];
          }
          chunks := chunks + [(start, i + 1)];
          start := -1;
        }
      }
    }
    assert raw[..|raw|] == raw;
  }

  datatype FileError = EmptyText | NotJson

  /** What a block file holds: its text if that parses, otherwise the last object that can be cut out of it. */
  ghost function FileValue(raw: string, trim: string -> string, parse: string -> Option<Json>)
      : Result<Json, FileError> {
    var found := Extracted(raw, parse);
    if trim(raw) == "" then Err(EmptyText)
    else match parse(trim(raw))
      case Some(v) => Ok(v)
      case None => if found == [] then Err(NotJson) else Ok(found[|found| - 1])
  }

  method ParseJsonObject(raw: string, trim: string -> string, parse: string -> Option<Json>)
    returns (r: Result<Json, FileError>)
    ensures r == FileValue(raw, trim, parse)
    ensures trim(raw) == "" ==> r == Err(EmptyText)
    ensures trim(raw) != "" && parse(trim(raw)).Some? ==> r == Ok(parse(trim(raw)).value)
    // a text that is neither empty nor JSON yields its last chunk that parses, and is refused only if none does
    ensures trim(raw) != "" && parse(trim(raw)).None? ==>
              var chunks := ScanText(FRESH, raw, 0).chunks;
              && ChunksOk(raw, |raw|, chunks)
              && (if r.Ok? then exists k :: LastParsing(raw, chunks, k, r.value, parse)
                  else NoneParses(raw, chunks, parse))
  {
    LastFound(raw, parse);
    var source := trim(raw);
    if |source| == 0 {
      return Err(EmptyText);
    }
    var whole := parse(source);
    if whole.Some? {
      return Ok(whole.value);
    }
    var extracted := ExtractJsonObjects(raw, parse);
    if |extracted| > 0 {
      return Ok(extracted[|extracted| - 1]);
    }
    return Err(NotJson);
  }

  /** The chunk at `k` parses to `v`, and no later one parses. */
  ghost predicate LastParsing(raw: string, chunks: seq<(nat, nat)>, k: nat, v: Json, parse: string -> Option<Json>)
    requires ChunksOk(raw, |raw|, chunks)
  {
    && k < |chunks| && parse(raw[chunks[k].0..chunks[k].1]) == Some(v)
    && forall j :: k < j < |chunks| ==> parse(raw[chunks[j].0..chunks[j].1]) == None
  }

  ghost predicate NoneParses(raw: string, chunks: seq<(nat, nat)>, parse: string -> Option<Json>)
    requires ChunksOk(raw, |raw|, chunks)
  {
    forall j :: 0 <= j < |chunks| ==> parse(raw[chunks[j].0..chunks[j].1]) == None
  }

  lemma {:induction false} LastParsed(texts: seq<string>, parse: string -> Option<Json>) returns (k: nat)
    ensures ParseAll(texts, parse) == [] <==> forall j :: 0 <= j < |texts| ==> parse(texts[j]) == None
    ensures var found := ParseAll(texts, parse);
            found != [] ==>
              && k < |texts| && parse(texts[k]) == Some(found[|found| - 1])
              && forall j :: k < j < |texts| ==> parse(texts[j]) == None
  {
    k := 0;
    if texts != [] {
      k := LastParsed(texts[..|texts| - 1], parse);
      assert forall j :: 0 <= j < |texts| - 1 ==> texts[..|texts| - 1][j] == texts[j];
      if parse(texts[|texts| - 1]).Some? { k := |texts| - 1; }
    }
  }

  /** What was extracted last is the last chunk that parses. */
  lemma LastFound(raw: string, parse: string -> Option<Json>)
    ensures var chunks, found := ScanText(FRESH, raw, 0).chunks, Extracted(raw, parse);
            && ChunksOk(raw, |raw|, chunks)
            && (found == [] <==> NoneParses(raw, chunks, parse))
            && (found != [] ==>
                  var v := found[|found| - 1]; exists k :: LastParsing(raw, chunks, k, v, parse))
  {
    hide ScanText, LevelAfter;
    ChunksAreBalanced(raw, |raw|);
    assert raw[..|raw|] == raw;
    LastChunk(raw, ScanText(FRESH, raw, 0).chunks, parse);
    assert Extracted(raw, parse) == ParseAll(Texts(raw, ScanText(FRESH, raw, 0).chunks), parse);
  }

  lemma LastChunk(raw: string, chunks: seq<(nat, nat)>, parse: string -> Option<Json>)
    requires ChunksOk(raw, |raw|, chunks)
    ensures var found := ParseAll(Texts(raw, chunks), parse);
            && (found == [] <==> NoneParses(raw, chunks, parse))
            && (found != [] ==> var v := found[|found| - 1]; exists k :: LastParsing(raw, chunks, k, v, parse))
  {
    hide LevelAfter, ParseAll;
    var texts := Texts(raw, chunks);
    var found := ParseAll(texts, parse);
    var k := LastParsed(texts, parse);
    assert forall j :: 0 <= j < |chunks| ==> texts[j] == raw[chunks[j].0..chunks[j].1];
    if found != [] { assert LastParsing(raw, chunks, k, found[|found| - 1], parse); }
  }

  // ---- printed objects are cut out exactly ----

  /** No character the scanner reacts to outside a string. */
  predicate Plain(t: string) { forall i :: 0 <= i < |t| ==> t[i] != '"' && t[i] != '{' && t[i] != '}' }

  /** A proper JSON value, without absent fields. */
  predicate IsJson(v: Json)
    decreases v
  {
    match v
    case Num(t) => IsLexeme(t)
    case Arr(items) => forall i :: 0 <= i < |items| ==> IsJson(items[i])
    case Obj(fields) => DistinctKeys(fields) && forall i :: 0 <= i < |fields| ==> IsJson(fields[i].value)
    case Undefined => false
    case _ => true
  }

  function Break(step: string, indent: string): string { if step == "" then "" else "\n" + indent }

  /** `JSON.stringify(v, null, step)` inside a text already indented by `indent`. */
  function Render(v: Json, step: string, indent: string): string
    decreases v
  {
    match v
    case Arr(items) =>
      if items == [] then "[]"
      else
        var inner := indent + step;
        (['['] + Break(step, inner)) + (RenderItems(items, step, inner) + (Break(step, indent) + [']']))
    case Obj(fields) => ['{'] + (RenderBody(fields, step, indent) + ['}'])
    case _ => Print(v)
  }

  function RenderBody(fields: seq<Field>, step: string, indent: string): string
    decreases fields, 1
  {
    if fields == [] then ""
    else Break(step, indent + step) + (RenderFields(fields, step, indent + step) + Break(step, indent))
  }

  function RenderItems(items: seq<Json>, step: string, indent: string): string
    decreases items, 0
  {
    if items == [] then ""
    else Render(items[0], step, indent)
         + (if |items| == 1 then "" else ("," + Break(step, indent)) + RenderItems(items[1..], step, indent))
  }

  function RenderFields(fields: seq<Field>, step: string, indent: string): string
    decreases fields, 0
  {
    if fields == [] then ""
    else RenderField(fields[0], step, indent)
         + (if |fields| == 1 then "" else ("," + Break(step, indent)) + RenderFields(fields[1..], step, indent))
  }

  function RenderField(field: Field, step: string, indent: string): string
    decreases field, 2
  {
    QuoteTo(field.key, "") + (Colon(step) + Render(field.value, step, indent))
  }

  function Colon(step: string): (c: string)
    ensures Plain(c)
  {
    if step == "" then ":" else ": "
  }

  predicate Outside(st: Scan) { !st.inString && !st.escaped }

  lemma {:induction false} PlainIsSkipped(st: Scan, t: string, i: nat)
    requires Outside(st) && Plain(t)
    ensures ScanText(st, t, i) == st
    decreases |t|
  {
    if t != "" { PlainIsSkipped(st, t[1..], i + 1); }
  }

  lemma EscapeIsSkipped(st: Scan, c: char, i: nat)
    requires st.inString && !st.escaped
    ensures ScanText(st, Escape(c), i) == st
  {
    var e := Escape(c);
    if |e| == 1 {
      assert e[1..] == "";
    } else if |e| == 2 {
      assert e == [e[0]] + [e[1]];
      ScanOne(st, [e[0]], e[1], i);
      ScanOne(st, "", e[0], i);
      assert "" + [e[0]] == [e[0]];
    } else {
      UnicodeIsSkipped(st, e, i);
    }
  }

  lemma UnicodeIsSkipped(st: Scan, e: string, i: nat)
    requires st.inString && !st.escaped
    requires |e| == 6 && e[0] == '\\' && e[1] == 'u' && Tame(e[2..])
    ensures ScanText(st, e, i) == st
  {
    assert ScanText(st, e, i) == ScanText(st.(escaped := true), e[1..], i + 1);
    assert e[1..][1..] == e[2..];
    assert ScanText(st.(escaped := true), e[1..], i + 1) == ScanText(st, e[2..], i + 2);
    TameIsSkipped(st, e[2..], i + 2);
  }

  predicate Tame(t: string) { forall i :: 0 <= i < |t| ==> t[i] != '"' && t[i] != '\\' }

  lemma {:induction false} TameIsSkipped(st: Scan, t: string, i: nat)
    requires st.inString && !st.escaped && Tame(t)
    ensures ScanText(st, t, i) == st
    decreases |t|
  {
    if t != "" { TameIsSkipped(st, t[1..], i + 1); }
  }

  lemma {:induction false} CharsAreSkipped(st: Scan, s: string, rest: string, i: nat)
    requires st.inString && !st.escaped
    ensures |CharsTo(s, rest)| >= |rest|
    ensures ScanText(st, CharsTo(s, rest), i) == ScanText(st, rest, i + |CharsTo(s, rest)| - |rest|)
    decreases |s|
  {
    if s != "" {
      var e := Escape(s[0]);
      ScanConcat(st, e, CharsTo(s[1..], rest), i);
      EscapeIsSkipped(st, s[0], i);
      CharsAreSkipped(st, s[1..], rest, i + |e|);
    }
  }

  /** Braces, quotes and backslashes inside a printed string do not disturb the scanner. */
  lemma QuoteIsSkipped(st: Scan, s: string, i: nat)
    requires Outside(st)
    ensures ScanText(st, QuoteTo(s, ""), i) == st
  {
    var open := st.(inString := true);
    var body := CharsTo(s, ['"']);
    assert ['"'] + "" == ['"'];
    ScanConcat(st, ['"'], body, i);
    ScanOne(st, "", '"', i);
    assert "" + ['"'] == ['"'];
    CharsAreSkipped(open, s, ['"'], i + 1);
    ScanOne(open, "", '"', i + 1 + |body| - 1);
  }

  lemma {:induction false} ValueIsSkipped(st: Scan, v: Json, step: string, indent: string, i: nat)
    requires Outside(st) && st.depth > 0
    requires IsJson(v) && Plain(step) && Plain(indent)
    ensures ScanText(st, Render(v, step, indent), i) == st
    decreases v, 1
  {
    hide ScanText;
    match v {
      case Arr(items) =>
        if items == [] {
          PlainIsSkipped(st, "[]", i);
        } else {
          var a, b := ['['] + Break(step, indent + step), RenderItems(items, step, indent + step);
          var c := Break(step, indent) + [']'];
          ItemsAreSkipped(st, items, step, indent + step, i + |a|);
          PlainIsSkipped(st, a, i);
          ThreeSkipped(st, a, b, c, i);
          PlainIsSkipped(st, c, i + |a| + |b|);
        }
      case Obj(fields) =>
        var deeper := st.(depth := st.depth + 1);
        BodyIsSkipped(deeper, fields, step, indent, i + 1);
        ScanBraces(st, deeper, RenderBody(fields, step, indent), i);
      case Str(s) => QuoteIsSkipped(st, s, i);
      case _ => PlainIsSkipped(st, Print(v), i);
    }
  }

  lemma ThreeSkipped(st: Scan, a: string, b: string, c: string, i: nat)
    requires ScanText(st, a, i) == st && ScanText(st, b, i + |a|) == st
    ensures ScanText(st, a + (b + c), i) == ScanText(st, c, i + |a| + |b|)
  {
    ScanConcat(st, a, b + c, i);
    ScanConcat(st, b, c, i + |a|);
  }

  /** Scanning a bracketed body: in, through, and out again. */
  lemma ScanBraces(st: Scan, deeper: Scan, body: string, i: nat)
    requires Outside(st) && deeper == ScanChar(st, '{', i)
    requires ScanText(deeper, body, i + 1) == deeper
    ensures ScanText(st, ['{'] + (body + ['}']), i) == ScanChar(deeper, '}', i + 1 + |body|)
  {
    ScanOne(st, "", '{', i);
    assert "" + ['{'] == ['{'];
    ScanConcat(st, ['{'], body + ['}'], i);
    ScanOne(deeper, body, '}', i + 1);
  }

  lemma {:induction false} BodyIsSkipped(st: Scan, fields: seq<Field>, step: string, indent: string, i: nat)
    requires Outside(st) && st.depth > 0
    requires (forall k :: 0 <= k < |fields| ==> IsJson(fields[k].value)) && Plain(step) && Plain(indent)
    ensures ScanText(st, RenderBody(fields, step, indent), i) == st
    decreases fields, 1
  {
    if fields != [] {
      var a, b, c := Break(step, indent + step), RenderFields(fields, step, indent + step), Break(step, indent);
      FieldsAreSkipped(st, fields, step, indent + step, i + |a|);
      PlainIsSkipped(st, a, i);
      ThreeSkipped(st, a, b, c, i);
      PlainIsSkipped(st, c, i + |a| + |b|);
    }
  }

  lemma {:induction false} ItemsAreSkipped(st: Scan, items: seq<Json>, step: string, indent: string, i: nat)
    requires Outside(st) && st.depth > 0
    requires (forall k :: 0 <= k < |items| ==> IsJson(items[k])) && Plain(step) && Plain(indent)
    ensures ScanText(st, RenderItems(items, step, indent), i) == st
    decreases items, 0
  {
    if items != [] {
      var a := Render(items[0], step, indent);
      ValueIsSkipped(st, items[0], step, indent, i);
      if |items| == 1 {
        assert RenderItems(items, step, indent) == a;
      } else {
        var b, c := "," + Break(step, indent), RenderItems(items[1..], step, indent);
        ItemsAreSkipped(st, items[1..], step, indent, i + |a| + |b|);
        SeparatedSkipped(st, a, b, c, i);
      }
    }
  }

  lemma FieldIsSkipped(st: Scan, field: Field, step: string, indent: string, i: nat)
    requires Outside(st) && st.depth > 0
    requires IsJson(field.value) && Plain(step) && Plain(indent)
    ensures ScanText(st, RenderField(field, step, indent), i) == st
    decreases field, 2
  {
    var q, colon, value := QuoteTo(field.key, ""), Colon(step), Render(field.value, step, indent);
    assert Plain(colon);
    assert ScanText(st, q, i) == st by { QuoteIsSkipped(st, field.key, i); }
    assert ScanText(st, value, i + |q| + |colon|) == st by {
      ValueIsSkipped(st, field.value, step, indent, i + |q| + |colon|);
    }
    SeparatedSkipped(st, q, colon, value, i);
  }

  lemma SeparatedSkipped(st: Scan, a: string, b: string, c: string, i: nat)
    requires Outside(st) && Plain(b)
    requires ScanText(st, a, i) == st && ScanText(st, c, i + |a| + |b|) == st
    ensures ScanText(st, a + (b + c), i) == st
  {
    PlainIsSkipped(st, b, i + |a|);
    ThreeSkipped(st, a, b, c, i);
  }

  lemma {:induction false} FieldsAreSkipped(st: Scan, fields: seq<Field>, step: string, indent: string, i: nat)
    requires Outside(st) && st.depth > 0
    requires (forall k :: 0 <= k < |fields| ==> IsJson(fields[k].value)) && Plain(step) && Plain(indent)
    ensures ScanText(st, RenderFields(fields, step, indent), i) == st
    decreases fields, 0
  {
    if fields != [] {
      var a := RenderField(fields[0], step, indent);
      FieldIsSkipped(st, fields[0], step, indent, i);
      if |fields| == 1 {
        assert RenderFields(fields, step, indent) == a;
      } else {
        var b, c := "," + Break(step, indent), RenderFields(fields[1..], step, indent);
        FieldsAreSkipped(st, fields[1..], step, indent, i + |a| + |b|);
        SeparatedSkipped(st, a, b, c, i);
      }
    }
  }

  /** One printed object, after some space. */
  datatype Doc = Doc(space: string, fields: seq<Field>)

  ghost predicate DocOk(d: Doc) { Plain(d.space) && IsJson(Obj(d.fields)) }

  function DocText(d: Doc, step: string): string { Render(Obj(d.fields), step, "") }

  function Concatenation(docs: seq<Doc>, step: string): string {
    if docs == [] then ""
    else Concatenation(docs[..|docs| - 1], step) + (docs[|docs| - 1].space + DocText(docs[|docs| - 1], step))
  }

  /** Where the objects of a concatenation sit. */
  function Spans(docs: seq<Doc>, step: string): (r: seq<(nat, nat)>)
    ensures |r| == |docs|
    ensures forall k :: 0 <= k < |r| ==> r[k].0 <= r[k].1 <= |Concatenation(docs, step)|
  {
    if docs == [] then []
    else
      var from := |Concatenation(docs[..|docs| - 1], step)| + |docs[|docs| - 1].space|;
      Spans(docs[..|docs| - 1], step) + [(from, from + |DocText(docs[|docs| - 1], step)|)]
  }

  lemma FieldsAreJson(fields: seq<Field>)
    requires IsJson(Obj(fields))
    ensures forall k :: 0 <= k < |fields| ==> IsJson(fields[k].value)
  {
  }

  lemma ObjectIsCut(st: Scan, fields: seq<Field>, step: string, i: nat)
    requires st == FRESH.(chunks := st.chunks)
    requires IsJson(Obj(fields)) && Plain(step)
    ensures var t := Render(Obj(fields), step, "");
            ScanText(st, t, i) == st.(chunks := st.chunks + [(i, i + |t|)])
  {
    hide ScanText, RenderBody, IsJson;
    var deeper := Scan(1, i, false, false, st.chunks);
    FieldsAreJson(fields);
    BodyIsSkipped(deeper, fields, step, "", i + 1);
    ScanBraces(st, deeper, RenderBody(fields, step, ""), i);
  }

  /** Scanning printed objects set apart by white space, at any indentation, finds exactly those objects. */
  lemma {:induction false} ConcatenationIsCut(docs: seq<Doc>, step: string)
    requires Plain(step) && forall k :: 0 <= k < |docs| ==> DocOk(docs[k])
    ensures ScanText(FRESH, Concatenation(docs, step), 0) == FRESH.(chunks := Spans(docs, step))
  {
    hide ScanText, DocText;
    if docs == [] {
      NothingScanned(FRESH);
    } else {
      var front, d := docs[..|docs| - 1], docs[|docs| - 1];
      assert DocOk(docs[|docs| - 1]);
      var t, u := Concatenation(front, step), DocText(d, step);
      ConcatenationIsCut(front, step);
      var st := FRESH.(chunks := Spans(front, step));
      ScanConcat(FRESH, t, d.space + u, 0);
      ScanConcat(st, d.space, u, |t|);
      PlainIsSkipped(st, d.space, |t|);
      ObjectIsCut(st, d.fields, step, |t| + |d.space|);
      TextOf(d, step);
    }
  }

  lemma NothingScanned(st: Scan)
    ensures ScanText(st, "", 0) == st
  {
  }

  lemma TextOf(d: Doc, step: string)
    ensures DocText(d, step) == Render(Obj(d.fields), step, "")
  {
  }

  /** ... and the texts it cuts out are, in order, the texts that were printed. */
  lemma {:induction false} CutTextsAreTheObjects(docs: seq<Doc>, step: string, after: string)
    ensures var raw := Concatenation(docs, step) + after;
            && (forall k :: 0 <= k < |docs| ==> Spans(docs, step)[k].0 <= Spans(docs, step)[k].1 <= |raw|)
            && Texts(raw, Spans(docs, step)) == seq(|docs|, k requires 0 <= k < |docs| => DocText(docs[k], step))
  {
    hide DocText;
    if docs != [] {
      var front, d := docs[..|docs| - 1], docs[|docs| - 1];
      CutTextsAreTheObjects(front, step, d.space + DocText(d, step) + after);
      SameText(Concatenation(front, step), d.space, DocText(d, step), after);
      LastSpan(docs, step, after);
      var raw := Concatenation(docs, step) + after;
      var before := Texts(raw, Spans(front, step));
      assert forall k :: 0 <= k < |front| ==> before[k] == DocText(front[k], step);
    }
  }

  lemma SameText(front: string, space: string, text: string, after: string)
    ensures front + (space + text) + after == front + (space + text + after)
  {
  }

  lemma LastSpan(docs: seq<Doc>, step: string, after: string)
    requires docs != []
    ensures var raw, spans, n := Concatenation(docs, step) + after, Spans(docs, step), |docs| - 1;
            && spans[..n] == Spans(docs[..n], step)
            && raw[spans[n].0..spans[n].1] == DocText(docs[n], step)
  {
  }

  lemma {:induction false} ParseAllInverts(docs: seq<Doc>, step: string, parse: string -> Option<Json>)
    requires forall k :: 0 <= k < |docs| ==> parse(DocText(docs[k], step)) == Some(Obj(docs[k].fields))
    ensures ParseAll(seq(|docs|, k requires 0 <= k < |docs| => DocText(docs[k], step)), parse)
         == seq(|docs|, k requires 0 <= k < |docs| => Obj(docs[k].fields))
  {
    if docs != [] {
      var front := docs[..|docs| - 1];
      ParseAllInverts(front, step, parse);
      var texts := seq(|docs|, k requires 0 <= k < |docs| => DocText(docs[k], step));
      assert texts[..|texts| - 1] == seq(|front|, k requires 0 <= k < |front| => DocText(front[k], step));
    }
  }

  /** Recovery loses nothing: a file of printed objects, however often it was appended to, reads back as all of them. */
  lemma ConcatenationIsRecovered(docs: seq<Doc>, step: string, after: string, parse: string -> Option<Json>)
    requires Plain(step) && Plain(after) && forall k :: 0 <= k < |docs| ==> DocOk(docs[k])
    requires forall k :: 0 <= k < |docs| ==> parse(DocText(docs[k], step)) == Some(Obj(docs[k].fields))
    ensures Extracted(Concatenation(docs, step) + after, parse)
         == seq(|docs|, k requires 0 <= k < |docs| => Obj(docs[k].fields))
  {
    var raw := Concatenation(docs, step) + after;
    ConcatenationThenSpace(docs, step, after);
    assert raw[..|raw|] == raw;
    CutTextsAreTheObjects(docs, step, after);
    ParseAllInverts(docs, step, parse);
  }

  lemma ConcatenationThenSpace(docs: seq<Doc>, step: string, after: string)
    requires Plain(step) && Plain(after) && forall k :: 0 <= k < |docs| ==> DocOk(docs[k])
    ensures ScanText(FRESH, Concatenation(docs, step) + after, 0).chunks == Spans(docs, step)
  {
    ConcatenationIsCut(docs, step);
    ScanConcat(FRESH, Concatenation(docs, step), after, 0);
    PlainIsSkipped(FRESH.(chunks := Spans(docs, step)), after, |Concatenation(docs, step)|);
  }

  /** Trimming takes no braces away. */
  ghost predicate KeepsBraces(trim: string -> string) { forall t :: '{' in t ==> trim(t) != "" }

  /** A file that was written to more than once, or appended to, reads as the object written last. */
  lemma AppendedFileReadsLast(docs: seq<Doc>, step: string, after: string, trim: string -> string,
                              parse: string -> Option<Json>)
    requires docs != [] && Plain(step) && Plain(after) && forall k :: 0 <= k < |docs| ==> DocOk(docs[k])
    requires forall k :: 0 <= k < |docs| ==> parse(DocText(docs[k], step)) == Some(Obj(docs[k].fields))
    requires KeepsBraces(trim)
    requires var whole := parse(trim(Concatenation(docs, step) + after));
             whole == None || whole == Some(Obj(docs[|docs| - 1].fields))
    ensures FileValue(Concatenation(docs, step) + after, trim, parse) == Ok(Obj(docs[|docs| - 1].fields))
  {
    ConcatenationIsRecovered(docs, step, after, parse);
    HasBrace(docs, step, after);
  }

  lemma HasBrace(docs: seq<Doc>, step: string, after: string)
    requires docs != []
    ensures '{' in Concatenation(docs, step) + after
  {
    hide Concatenation, DocText;
    var d := docs[|docs| - 1];
    StartsWithBrace(d, step);
    LastOfConcatenation(docs, step);
    BraceInside(Concatenation(docs[..|docs| - 1], step), d.space, DocText(d, step), after);
  }

  lemma StartsWithBrace(d: Doc, step: string)
    ensures DocText(d, step) != "" && DocText(d, step)[0] == '{'
  {
    hide RenderBody;
  }

  lemma LastOfConcatenation(docs: seq<Doc>, step: string)
    requires docs != []
    ensures var d := docs[|docs| - 1];
            Concatenation(docs, step) == Concatenation(docs[..|docs| - 1], step) + (d.space + DocText(d, step))
  {
    hide DocText;
  }

  lemma BraceInside(front: string, space: string, text: string, after: string)
    requires text != "" && text[0] == '{'
    ensures '{' in front + (space + text) + after
  {
    assert (front + (space + text) + after)[|front| + |space|] == '{';
  }
}

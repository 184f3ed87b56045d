/** Which objects the recovery scanner cuts out of a text, whatever lies around them. */
module ScanLaws {
  import opened Common
  import opened JsonScanner

  /** Position `i` is outside all strings, counting quotes from the start of the text. */
  predicate OutsideStrings(raw: string, i: nat)
    requires i <= |raw|
  {
    !LevelAfter(raw[..i]).inString
  }

  predicate OpensAt(raw: string, i: nat) { i < |raw| && raw[i] == '{' && OutsideStrings(raw, i) }

  ghost predicate InChunk(chunks: seq<(nat, nat)>, i: nat) {
    exists k :: 0 <= k < |chunks| && chunks[k].0 <= i < chunks[k].1
  }

  /** The object that begins at `s` is never closed. */
  ghost predicate LeftOpen(raw: string, s: nat) {
    OpensAt(raw, s) && forall m :: s < m <= |raw| ==> LevelAfter(raw[s..m]).depth > 0
  }

  /** The chunks are balanced, in order and apart, and begin outside strings; and every brace that opens outside strings
      lies in one of them, unless an object that is never closed begins at it or before it, and then behind the last. */
  ghost predicate CutsAll(raw: string, chunks: seq<(nat, nat)>) {
    && ChunksOk(raw, |raw|, chunks)
    && (forall k :: 0 <= k < |chunks| ==> OpensAt(raw, chunks[k].0))
    && (forall i :: OpensAt(raw, i) ==> InChunk(chunks, i) || exists s: nat :: s <= i && EndsOpen(raw, chunks, s))
  }

  ghost predicate EndsOpen(raw: string, chunks: seq<(nat, nat)>, s: nat) {
    LeftOpen(raw, s) && forall k :: 0 <= k < |chunks| ==> chunks[k].1 <= s
  }

  /** What has been found of the first `n` characters. */
  ghost predicate FoundTo(raw: string, n: nat, st: Scan)
    requires n <= |raw|
  {
    && st.inString == LevelAfter(raw[..n]).inString && st.escaped == LevelAfter(raw[..n]).escaped
    && (forall k :: 0 <= k < |st.chunks| ==> OpensAt(raw, st.chunks[k].0))
    && (st.depth > 0 ==> 0 <= st.start < n && OpensAt(raw, st.start))
    && (forall i :: 0 <= i < n && OpensAt(raw, i) ==>
          InChunk(st.chunks, i) || (st.depth > 0 && 0 <= st.start <= i))
  }

  lemma FoundStep(raw: string, n: nat, st: Scan)
    requires n < |raw| && ScanInvariant(raw, n, st) && FoundTo(raw, n, st)
    ensures FoundTo(raw, n + 1, ScanChar(st, raw[n], n))
  {
    SameStrings(raw, n, st);
    StartsOutside(raw, n, st);
    hide LevelAfter, ScanInvariant, InChunk, OpensAt;
    var st' := ScanChar(st, raw[n], n);
    forall i | 0 <= i < n + 1 && OpensAt(raw, i)
      ensures InChunk(st'.chunks, i) || (st'.depth > 0 && 0 <= st'.start <= i) {
      StillFound(raw, n, st, i);
    }
  }

  lemma StartsOutside(raw: string, n: nat, st: Scan)
    requires n < |raw| && ScanInvariant(raw, n, st) && FoundTo(raw, n, st)
    ensures var st' := ScanChar(st, raw[n], n);
            && (forall k :: 0 <= k < |st'.chunks| ==> OpensAt(raw, st'.chunks[k].0))
            && (st'.depth > 0 ==> 0 <= st'.start < n + 1 && OpensAt(raw, st'.start))
  {
    hide LevelAfter, ChunksOk, InChunk;
  }

  lemma SameStrings(raw: string, n: nat, st: Scan)
    requires n < |raw| && FoundTo(raw, n, st)
    ensures var st', level := ScanChar(st, raw[n], n), LevelAfter(raw[..n + 1]);
            st'.inString == level.inString && st'.escaped == level.escaped
  {
    LevelGrows(raw, 0, n);
    assert raw[0..n] == raw[..n] && raw[0..n + 1] == raw[..n + 1];
  }

  lemma StillFound(raw: string, n: nat, st: Scan, i: nat)
    requires n < |raw| && i <= n && ScanInvariant(raw, n, st) && FoundTo(raw, n, st) && OpensAt(raw, i)
    ensures var st' := ScanChar(st, raw[n], n);
            InChunk(st'.chunks, i) || (st'.depth > 0 && 0 <= st'.start <= i)
  {
    hide LevelAfter, ChunksOk;
    var st' := ScanChar(st, raw[n], n);
    ChunksGrow(st, raw[n], n);
    hide ScanInvariant;
    if i < n {
      if InChunk(st.chunks, i) {
        InChunkStays(st.chunks, st'.chunks, i);
      } else if st'.depth == 0 {
        InLastChunk(st'.chunks, i);
      }
    }
  }

  lemma ChunksGrow(st: Scan, c: char, n: nat)
    requires st.depth > 0 ==> 0 <= st.start < n
    ensures var st' := ScanChar(st, c, n);
            && st.chunks <= st'.chunks
            && (st.depth > 0 && st'.depth == 0 ==> st'.chunks == st.chunks + [(st.start, n + 1)])
            && (st.depth > 0 && st'.depth > 0 ==> st'.start == st.start)
  {
  }

  lemma InChunkStays(chunks: seq<(nat, nat)>, more: seq<(nat, nat)>, i: nat)
    requires chunks <= more && InChunk(chunks, i)
    ensures InChunk(more, i)
  {
    var k :| 0 <= k < |chunks| && chunks[k].0 <= i < chunks[k].1;
    assert more[k] == chunks[k];
  }

  lemma InLastChunk(chunks: seq<(nat, nat)>, i: nat)
    requires chunks != [] && chunks[|chunks| - 1].0 <= i < chunks[|chunks| - 1].1
    ensures InChunk(chunks, i)
  {
  }

  lemma {:induction false} FoundAll(raw: string, n: nat)
    requires n <= |raw|
    ensures FoundTo(raw, n, ScanText(FRESH, raw[..n], 0))
  {
    if n > 0 {
      FoundAll(raw, n - 1);
      ChunksAreBalanced(raw, n - 1);
      hide FoundTo, ScanInvariant, ScanChar;
      FoundStep(raw, n - 1, ScanText(FRESH, raw[..n - 1], 0));
      ScanOne(FRESH, raw[..n - 1], raw[n - 1], 0);
      assert raw[..n] == raw[..n - 1] + [raw[n - 1]];
    }
  }

  /** On any text at all, damaged in any way, the scanner cuts out exactly the outermost objects. */
  lemma OutermostObjectsAreCut(raw: string)
    ensures CutsAll(raw, ScanText(FRESH, raw, 0).chunks)
  {
    FoundAll(raw, |raw|);
    ChunksAreBalanced(raw, |raw|);
    assert raw[..|raw|] == raw;
    var st := ScanText(FRESH, raw, 0);
    hide ScanText, LevelAfter, BalancedObject;
    if st.depth > 0 {
      assert EndsOpen(raw, st.chunks, st.start);
    }
  }

  // ---- there is only one way to do that ----

  lemma NoSecondCloser(raw: string, start: nat, x: nat, y: nat)
    requires start <= x < y <= |raw| && BalancedObject(raw[start..x])
    ensures !BalancedObject(raw[start..y])
  {
    hide LevelAfter;
    assert raw[start..y][..x - start] == raw[start..x];
  }

  lemma NotEmptyChunk(raw: string, a: seq<(nat, nat)>, k: nat)
    requires ChunksOk(raw, |raw|, a) && k < |a|
    ensures a[k].0 + 2 <= a[k].1 <= |raw| && LevelAfter(raw[a[k].0..a[k].1]).depth == 0
  {
    assert BalancedObject(raw[a[k].0..a[k].1]);
  }

  /** A brace that opens no later than a chunk lies in it or in an earlier one. */
  lemma InEarlierChunk(raw: string, a: seq<(nat, nat)>, k: nat, s: nat) returns (j: nat)
    requires CutsAll(raw, a) && k < |a| && s <= a[k].0 && OpensAt(raw, s)
    ensures j <= k && a[j].0 <= s < a[j].1
  {
    hide LevelAfter, BalancedObject, LeftOpen, OpensAt;
    NotEmptyChunk(raw, a, k);
    assert forall t: nat :: t <= s ==> !EndsOpen(raw, a, t);
    j :| 0 <= j < |a| && a[j].0 <= s < a[j].1;
  }

  /** An object left open cannot begin before a chunk of the other list does. */
  lemma NothingIsOpen(raw: string, a: seq<(nat, nat)>, b: seq<(nat, nat)>, k: nat, s: nat)
    requires CutsAll(raw, a) && k < |a| && k <= |b| && (forall j :: 0 <= j < k ==> a[j] == b[j])
    requires s <= a[k].0
    ensures !EndsOpen(raw, b, s)
  {
    hide LevelAfter, BalancedObject, CutsAll;
    if OpensAt(raw, s) {
      var j := InEarlierChunk(raw, a, k, s);
      if j == k { OnlyAtItsStart(raw, a, k, s); }
    }
  }

  /** A chunk is closed, so nothing is left open from its start on. */
  lemma OnlyAtItsStart(raw: string, a: seq<(nat, nat)>, k: nat, s: nat)
    requires CutsAll(raw, a) && k < |a| && s == a[k].0
    ensures !LeftOpen(raw, s)
  {
    NotEmptyChunk(raw, a, k);
  }

  /** Where one list has its next chunk, the other has one beginning no later. */
  lemma StartsNoLater(raw: string, a: seq<(nat, nat)>, b: seq<(nat, nat)>, k: nat)
    requires CutsAll(raw, a) && CutsAll(raw, b) && k < |a| && k <= |b| && a[..k] == b[..k]
    ensures k < |b| && b[k].0 <= a[k].0
  {
    hide LevelAfter, BalancedObject, EndsOpen, OpensAt;
    var p := a[k].0;
    forall j | 0 <= j < k ensures a[j] == b[j] { assert a[..k][j] == b[..k][j]; }
    forall s: nat | s <= p ensures !EndsOpen(raw, b, s) { NothingIsOpen(raw, a, b, k, s); }
    assert OpensAt(raw, p);
    assert InChunk(b, p);
    var j :| 0 <= j < |b| && b[j].0 <= p < b[j].1;
    ApartChunks(raw, a, b, k, j);
  }

  lemma ApartChunks(raw: string, a: seq<(nat, nat)>, b: seq<(nat, nat)>, k: nat, j: nat)
    requires ChunksOk(raw, |raw|, a) && ChunksOk(raw, |raw|, b) && k < |a| && j < |b|
    requires b[j].0 <= a[k].0 < b[j].1 && forall i :: 0 <= i < k && i < |b| ==> a[i] == b[i]
    ensures j >= k && b[k].0 <= a[k].0
  {
    hide BalancedObject;
  }

  lemma {:induction false} CutsAgree(raw: string, a: seq<(nat, nat)>, b: seq<(nat, nat)>, k: nat)
    requires CutsAll(raw, a) && CutsAll(raw, b) && k <= |a| && k <= |b| && a[..k] == b[..k]
    ensures a == b
    decreases |a| - k
  {
    hide CutsAll;
    if k < |a| {
      StartsNoLater(raw, a, b, k);
      StartsNoLater(raw, b, a, k);
      SameChunk(raw, a, b, k);
      assert a[..k + 1] == a[..k] + [a[k]] && b[..k + 1] == b[..k] + [b[k]];
      CutsAgree(raw, a, b, k + 1);
    } else if k < |b| {
      StartsNoLater(raw, b, a, k);
    } else {
      assert a == a[..k] && b == b[..k];
    }
  }

  lemma SameChunk(raw: string, a: seq<(nat, nat)>, b: seq<(nat, nat)>, k: nat)
    requires CutsAll(raw, a) && CutsAll(raw, b) && k < |a| && k < |b| && a[k].0 == b[k].0
    ensures a[k] == b[k]
  {
    hide BalancedObject, LevelAfter;
    var start := a[k].0;
    assert BalancedObject(raw[start..a[k].1]) && BalancedObject(raw[start..b[k].1]);
    if a[k].1 < b[k].1 { NoSecondCloser(raw, start, a[k].1, b[k].1); }
    if b[k].1 < a[k].1 { NoSecondCloser(raw, start, b[k].1, a[k].1); }
  }

  /** Those conditions leave no choice: what the scanner cuts out of any text is the one list that meets them. */
  lemma CutsAreUnique(raw: string, chunks: seq<(nat, nat)>)
    ensures CutsAll(raw, chunks) <==> chunks == ScanText(FRESH, raw, 0).chunks
  {
    OutermostObjectsAreCut(raw);
    if CutsAll(raw, chunks) { CutsAgree(raw, chunks, ScanText(FRESH, raw, 0).chunks, 0); }
  }
}

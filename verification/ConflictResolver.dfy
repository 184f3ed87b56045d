/** Merging two replicas of a chain, and what repeated pulls converge to. */
module ConflictResolver {
  import opened Common
  import opened OrderedMaps
  import opened Sorting
  import opened CanonicalPrinter
  import opened ChainDiff

  datatype Strategy = LastWriteWins | PreferLocal | PreferRemote

  const MAX_SAFE_INTEGER: int := 9007199254740991

  /** How blocks are told apart, and `Date.parse`. Nothing below depends on which key is used. */
  datatype Host = Host(id: Identity, parseDate: string -> Option<int>)

  function Key(h: Host, b: Block): string { h.id.key(b) }

  /** An absent, empty or unreadable timestamp counts as 0. */
  function BlockTimestamp(h: Host, b: Block): int {
    if b.timestamp.Some? && b.timestamp.value != "" then
      match h.parseDate(b.timestamp.value)
      case Some(t) => t
      case None => 0
    else 0
  }

  /** Which of two blocks with one key stays. */
  function Winner(h: Host, strategy: Strategy, local: Block, remote: Block): Block {
    match strategy
    case PreferLocal => local
    case PreferRemote => remote
    case LastWriteWins => if BlockTimestamp(h, remote) >= BlockTimestamp(h, local) then remote else local
  }

  function WithBlock(h: Host, strategy: Strategy, held: map<string, Block>, b: Block): map<string, Block> {
    held[Key(h, b) := if Key(h, b) in held then Winner(h, strategy, held[Key(h, b)], b) else b]
  }

  /** What is held after merging in a list of remote blocks, one by one. */
  function MergeVals(h: Host, strategy: Strategy, start: map<string, Block>, remote: seq<Block>): map<string, Block> {
    if remote == [] then start
    else WithBlock(h, strategy, MergeVals(h, strategy, start, remote[..|remote| - 1]), remote[|remote| - 1])
  }

  function MergeInto(h: Host, strategy: Strategy, start: Held, remote: seq<Block>): (m: Held)
    requires start.Valid()
    ensures m.Valid() && m.vals == MergeVals(h, strategy, start.vals, remote)
  {
    if remote == [] then start
    else
      var before, b := MergeInto(h, strategy, start, remote[..|remote| - 1]), remote[|remote| - 1];
      before.Set(Key(h, b), if Key(h, b) in before.vals then Winner(h, strategy, before.vals[Key(h, b)], b) else b)
  }

  // ---- who stays, said of positions in the two lists ----

  ghost predicate FirstAt(h: Host, blocks: seq<Block>, i: nat) {
    i < |blocks| && forall j :: 0 <= j < i ==> Key(h, blocks[j]) != Key(h, blocks[i])
  }

  /** Nothing under the key of the block at `i` is newer, and nothing later under it is as new. */
  ghost predicate LastNewestAt(h: Host, blocks: seq<Block>, i: nat) {
    && i < |blocks|
    && forall j :: 0 <= j < |blocks| && Key(h, blocks[j]) == Key(h, blocks[i]) ==>
         if j <= i then BlockTimestamp(h, blocks[j]) <= BlockTimestamp(h, blocks[i])
         else BlockTimestamp(h, blocks[j]) < BlockTimestamp(h, blocks[i])
  }

  ghost predicate FirstOf(h: Host, blocks: seq<Block>, b: Block) {
    exists i :: 0 <= i < |blocks| && FirstAt(h, blocks, i) && blocks[i] == b
  }

  ghost predicate LastNewestOf(h: Host, blocks: seq<Block>, b: Block) {
    exists i :: 0 <= i < |blocks| && LastNewestAt(h, blocks, i) && blocks[i] == b
  }

  /** The sync keeps the local blocks and adds what is missing; or takes the remote ones and keeps what is missing
      there; or decides key by key for the newer side, the remote one on a tie. */
  ghost predicate Stays(h: Host, strategy: Strategy, local: seq<Block>, remote: seq<Block>, b: Block) {
    match strategy
    case PreferLocal => LastOf(h.id, local, b) || (FirstOf(h, remote, b) && !Lists(h.id, local, Key(h, b)))
    case PreferRemote => LastOf(h.id, remote, b) || (LastOf(h.id, local, b) && !Lists(h.id, remote, Key(h, b)))
    case LastWriteWins =>
      || (LastNewestOf(h, remote, b)
          && forall l :: LastOf(h.id, local, l) && Key(h, l) == Key(h, b) ==>
               BlockTimestamp(h, l) <= BlockTimestamp(h, b))
      || (LastOf(h.id, local, b)
          && forall x :: x in remote && Key(h, x) == Key(h, b) ==> BlockTimestamp(h, x) < BlockTimestamp(h, b))
  }

  /** By number, where a missing one comes as 2^53 - 1, and by time where the numbers agree. */
  ghost predicate InSequence(h: Host, x: Block, y: Block) {
    var m := if x.index.Some? then x.index.value else 9007199254740991;
    var n := if y.index.Some? then y.index.value else 9007199254740991;
    m < n || (m == n && BlockTimestamp(h, x) <= BlockTimestamp(h, y))
  }

  function SortIndex(b: Block): int { match b.index case Some(i) => i case None => MAX_SAFE_INTEGER }

  function InOrder(h: Host): (Block, Block) -> bool {
    (a: Block, b: Block) =>
      SortIndex(a) < SortIndex(b)
      || (SortIndex(a) == SortIndex(b) && BlockTimestamp(h, a) <= BlockTimestamp(h, b))
  }

  function Merged(h: Host, strategy: Strategy, local: seq<Block>, remote: seq<Block>): (m: Held)
    ensures m.Valid()
  {
    MergeInto(h, strategy, IndexBy(local, h.id), remote)
  }

  function Resolved(h: Host, strategy: Strategy, local: seq<Block>, remote: seq<Block>): seq<Block> {
    var m := Merged(h, strategy, local, remote);
    KeysHeld(m);
    Sort(Pick(m.keys, m.vals), InOrder(h))
  }

  method ResolveChainConflicts(h: Host, strategy: Strategy, local: seq<Block>, remote: seq<Block>)
    returns (r: seq<Block>)
    ensures r == Resolved(h, strategy, local, remote)
    ensures KeyDistinct(h, r) && forall b :: b in r <==> Stays(h, strategy, local, remote, b)
    ensures forall i, j :: 0 <= i < j < |r| ==> InSequence(h, r[i], r[j])
  {
    hide MergeInto, IndexBy, Pick, BlockTimestamp, Stays;
    ResolvedIsWhatStays(h, strategy, local, remote);
    ResolvedIsInSequence(h, strategy, local, remote);
    var merged := IndexBlocks(local, h.id);
    NothingMerged(h, strategy, merged, remote);
    for i := 0 to |remote|
      invariant merged == MergeInto(h, strategy, IndexBy(local, h.id), remote[..i])
    {
      OneMoreMerged(h, strategy, IndexBy(local, h.id), remote, i);
      var remoteBlock := remote[i];
      var key := Key(h, remoteBlock);
      if key !in merged.vals {
        merged := merged.Set(key, remoteBlock);
      } else {
        var localBlock := merged.vals[key];
        match strategy {
          case PreferLocal => merged := merged.Set(key, localBlock);
          case PreferRemote => merged := merged.Set(key, remoteBlock);
          case LastWriteWins =>
            var localTs := BlockTimestamp(h, localBlock);
            var remoteTs := BlockTimestamp(h, remoteBlock);
            if remoteTs >= localTs {
              merged := merged.Set(key, remoteBlock);
            } else {
              merged := merged.Set(key, localBlock);
            }
        }
      }
    }
    assert remote[..|remote|] == remote;
    KeysHeld(merged);
    r := Sort(Pick(merged.keys, merged.vals), InOrder(h));
  }

  lemma NothingMerged(h: Host, strategy: Strategy, start: Held, remote: seq<Block>)
    requires start.Valid()
    ensures MergeInto(h, strategy, start, remote[..0]) == start
  {
  }

  lemma OneMoreMerged(h: Host, strategy: Strategy, start: Held, remote: seq<Block>, i: nat)
    requires start.Valid() && i < |remote|
    ensures var before, b := MergeInto(h, strategy, start, remote[..i]), remote[i];
            MergeInto(h, strategy, start, remote[..i + 1])
            == before.Set(Key(h, b), if Key(h, b) in before.vals then Winner(h, strategy, before.vals[Key(h, b)], b)
                else b)
  {
    assert remote[..i + 1][..i] == remote[..i];
  }

  lemma OrderIsTotal(h: Host)
    ensures Total(InOrder(h)) && Transitive(InOrder(h))
  {
  }

  // ---- what a replica holds ----

  /** The block a replica holds for each key. */
  function Holds(h: Host, blocks: seq<Block>): map<string, Block> { HeldBy(blocks, h.id) }

  ghost predicate KeyDistinct(h: Host, blocks: seq<Block>) {
    forall i, j :: 0 <= i < j < |blocks| ==> Key(h, blocks[i]) != Key(h, blocks[j])
  }

  lemma DistinctFront(h: Host, blocks: seq<Block>)
    requires KeyDistinct(h, blocks) && blocks != []
    ensures KeyDistinct(h, blocks[..|blocks| - 1])
    ensures Key(h, blocks[|blocks| - 1]) !in Holds(h, blocks[..|blocks| - 1])
  {
    var front, k := blocks[..|blocks| - 1], Key(h, blocks[|blocks| - 1]);
    forall b | b in front ensures Key(h, b) != k {
      var i :| 0 <= i < |front| && front[i] == b;
      assert blocks[i] == b;
    }
    if k in Holds(h, front) { HeldIsListed(front, h.id, k); }
  }

  /** In a key-distinct list every block is the one held for its key. */
  lemma {:induction false} DistinctHolds(h: Host, blocks: seq<Block>, b: Block)
    requires KeyDistinct(h, blocks) && b in blocks
    ensures Key(h, b) in Holds(h, blocks) && Holds(h, blocks)[Key(h, b)] == b
  {
    var front, last := blocks[..|blocks| - 1], blocks[|blocks| - 1];
    DistinctFront(h, blocks);
    assert blocks == front + [last];
    if b != last { DistinctHolds(h, front, b); }
  }

  lemma {:induction false} MergedKeys(h: Host, strategy: Strategy, start: map<string, Block>, remote: seq<Block>)
    ensures MergeVals(h, strategy, start, remote).Keys == start.Keys + Holds(h, remote).Keys
  {
    if remote != [] { MergedKeys(h, strategy, start, remote[..|remote| - 1]); }
  }

  /** Every held block sits under its own key. */
  lemma {:induction false} MergedKeyed(h: Host, strategy: Strategy, local: seq<Block>, remote: seq<Block>, k: string)
    requires k in MergeVals(h, strategy, Holds(h, local), remote)
    ensures Key(h, MergeVals(h, strategy, Holds(h, local), remote)[k]) == k
  {
    if remote == [] {
      HeldIsListed(local, h.id, k);
    } else {
      var before := MergeVals(h, strategy, Holds(h, local), remote[..|remote| - 1]);
      if k in before { MergedKeyed(h, strategy, local, remote[..|remote| - 1], k); }
    }
  }

  ghost predicate Keyed(h: Host, m: Held) { forall k :: k in m.vals ==> Key(h, m.vals[k]) == k }

  /** The values of a dictionary under its own keys, in any order, make a list that holds them all. */
  lemma PickDistinct(h: Host, m: Held)
    requires m.Valid() && Keyed(h, m)
    ensures forall k :: k in m.keys <==> k in m.vals
    ensures NoDup(Pick(m.keys, m.vals))
    ensures forall a, b :: a in Pick(m.keys, m.vals) && b in Pick(m.keys, m.vals) && Key(h, a) == Key(h, b) ==> a == b
    ensures forall b :: b in Pick(m.keys, m.vals) <==> Key(h, b) in m.vals && m.vals[Key(h, b)] == b
  {
    KeysHeld(m);
    var p := Pick(m.keys, m.vals);
    assert forall i :: 0 <= i < |p| ==> p[i] == m.vals[m.keys[i]] && Key(h, p[i]) == m.keys[i];
    forall b ensures b in p <==> Key(h, b) in m.vals && m.vals[Key(h, b)] == b {
      if Key(h, b) in m.vals && m.vals[Key(h, b)] == b {
        var i :| 0 <= i < |m.keys| && m.keys[i] == Key(h, b);
        assert p[i] == b;
      }
    }
  }

  lemma SortedDistinct(h: Host, p: seq<Block>, le: (Block, Block) -> bool)
    requires NoDup(p)
    requires forall a, b :: a in p && b in p && Key(h, a) == Key(h, b) ==> a == b
    ensures KeyDistinct(h, Sort(p, le))
  {
    var r := Sort(p, le);
    SortNoDup(p, le);
    forall i, j | 0 <= i < j < |r| ensures Key(h, r[i]) != Key(h, r[j]) {
      assert r[i] in p && r[j] in p && r[i] != r[j];
    }
  }

  lemma ListHoldsMap(h: Host, r: seq<Block>, m: map<string, Block>)
    requires KeyDistinct(h, r)
    requires forall b :: b in r <==> Key(h, b) in m && m[Key(h, b)] == b
    requires forall k :: k in m ==> Key(h, m[k]) == k
    ensures Holds(h, r) == m
  {
    forall k ensures k in Holds(h, r) <==> k in m {
      if k in m { DistinctHolds(h, r, m[k]); }
      if k in Holds(h, r) { HeldIsListed(r, h.id, k); }
    }
    forall k | k in m ensures Holds(h, r)[k] == m[k] { DistinctHolds(h, r, m[k]); }
  }

  /** Writing the merged list out and reading it back holds exactly the merged blocks, one per key. */
  lemma ResolvedHoldsMerged(h: Host, strategy: Strategy, local: seq<Block>, remote: seq<Block>)
    ensures KeyDistinct(h, Resolved(h, strategy, local, remote))
    ensures Holds(h, Resolved(h, strategy, local, remote)) == MergeVals(h, strategy, Holds(h, local), remote)
    ensures |Resolved(h, strategy, local, remote)| == |MergeVals(h, strategy, Holds(h, local), remote)|
  {
    var m := Merged(h, strategy, local, remote);
    forall k | k in m.vals ensures Key(h, m.vals[k]) == k { MergedKeyed(h, strategy, local, remote, k); }
    PickDistinct(h, m);
    KeyCount(m);
    SortedDistinct(h, Pick(m.keys, m.vals), InOrder(h));
    ListHoldsMap(h, Sort(Pick(m.keys, m.vals), InOrder(h)), m.vals);
  }

  /** The written list has one block for each key, in sequence. */
  lemma ResolvedIsInSequence(h: Host, strategy: Strategy, local: seq<Block>, remote: seq<Block>)
    ensures var r := Resolved(h, strategy, local, remote);
            KeyDistinct(h, r) && forall i, j :: 0 <= i < j < |r| ==> InSequence(h, r[i], r[j])
  {
    ResolvedHoldsMerged(h, strategy, local, remote);
    var m := Merged(h, strategy, local, remote);
    KeysHeld(m);
    OrderIsTotal(h);
    SortSorts(Pick(m.keys, m.vals), InOrder(h));
    var r := Resolved(h, strategy, local, remote);
    hide Resolved;
    forall i, j | 0 <= i < j < |r| ensures InSequence(h, r[i], r[j]) { assert InOrder(h)(r[i], r[j]); }
  }

  lemma FirstStep(h: Host, blocks: seq<Block>, b: Block)
    requires blocks != []
    ensures var front, last := blocks[..|blocks| - 1], blocks[|blocks| - 1];
            FirstOf(h, blocks, b) <==> FirstOf(h, front, b) || (b == last && !Lists(h.id, front, Key(h, last)))
  {
    var front, last := blocks[..|blocks| - 1], blocks[|blocks| - 1];
    assert forall i :: 0 <= i < |front| ==> front[i] == blocks[i];
    forall i | 0 <= i < |front| ensures FirstAt(h, front, i) <==> FirstAt(h, blocks, i) {}
    assert FirstAt(h, blocks, |front|) <==> !Lists(h.id, front, Key(h, last)) by {
      assert FirstAt(h, blocks, |front|) <==> forall j :: 0 <= j < |front| ==> Key(h, front[j]) != Key(h, last);
    }
    hide FirstAt, Lists;
    if FirstOf(h, front, b) {
      var i :| 0 <= i < |front| && FirstAt(h, front, i) && front[i] == b;
      assert FirstAt(h, blocks, i) && blocks[i] == b;
    }
    if FirstOf(h, blocks, b) {
      var i :| 0 <= i < |blocks| && FirstAt(h, blocks, i) && blocks[i] == b;
      assert i < |front| ==> FirstAt(h, front, i) && front[i] == b;
    }
  }

  lemma {:induction false} LocalIsKept(h: Host, start: map<string, Block>, remote: seq<Block>, b: Block)
    ensures var m := MergeVals(h, PreferLocal, start, remote);
            && (At(h.id, m, b) <==> At(h.id, start, b) || (FirstOf(h, remote, b) && Key(h, b) !in start))
            && (Key(h, b) in m <==> Key(h, b) in start || Lists(h.id, remote, Key(h, b)))
  {
    if remote != [] {
      LocalIsKept(h, start, remote[..|remote| - 1], b);
      FirstStep(h, remote, b);
      ListsStep(h.id, remote, Key(h, b));
    }
  }

  lemma {:induction false} RemoteIsTaken(h: Host, start: map<string, Block>, remote: seq<Block>, b: Block)
    ensures var m := MergeVals(h, PreferRemote, start, remote);
            At(h.id, m, b) <==> LastOf(h.id, remote, b) || (At(h.id, start, b) && !Lists(h.id, remote, Key(h, b)))
  {
    if remote != [] {
      RemoteIsTaken(h, start, remote[..|remote| - 1], b);
      LastStep(h.id, remote, b);
      ListsStep(h.id, remote, Key(h, b));
    }
  }

  lemma NewestIsTheLastNewest(h: Host, blocks: seq<Block>, b: Block)
    ensures At(h.id, Newest(h, blocks), b) <==> LastNewestOf(h, blocks, b)
  {
    var i := NewestIsLastNewest(h, blocks, Key(h, b));
    forall j | 0 <= j < |blocks| && LastNewestAt(h, blocks, j) && blocks[j] == b
      ensures At(h.id, Newest(h, blocks), b) {
      ListedIsHeld(blocks, h.id, b);
      assert i == j;
    }
  }

  /** What the newer side says under a key, seen from its newest block. */
  lemma NewerSide(h: Host, remote: seq<Block>, b: Block)
    ensures Key(h, b) !in Newest(h, remote) <==> !Lists(h.id, remote, Key(h, b))
    ensures Key(h, b) in Newest(h, remote) ==>
              (BlockTimestamp(h, Newest(h, remote)[Key(h, b)]) < BlockTimestamp(h, b) <==>
               forall x :: x in remote && Key(h, x) == Key(h, b) ==> BlockTimestamp(h, x) < BlockTimestamp(h, b))
  {
    HeldIsTheLast(h.id, remote, b);
    var i := NewestIsLastNewest(h, remote, Key(h, b));
    if Key(h, b) in Newest(h, remote) {
      assert remote[i] in remote;
      forall x | x in remote && Key(h, x) == Key(h, b) ensures BlockTimestamp(h, x) <= BlockTimestamp(h, remote[i]) {
        var j :| 0 <= j < |remote| && remote[j] == x;
      }
    }
  }

  lemma NewerIsKept(h: Host, local: seq<Block>, remote: seq<Block>, b: Block)
    ensures At(h.id, MergeVals(h, LastWriteWins, Holds(h, local), remote), b) <==>
            Stays(h, LastWriteWins, local, remote, b)
  {
    hide Newest, LastNewestOf, LastOf, BlockTimestamp;
    MergeIsJoin(h, Holds(h, local), remote);
    HeldIsTheLast(h.id, local, b);
    NewestIsTheLastNewest(h, remote, b);
    NewerSide(h, remote, b);
    var k := Key(h, b);
    forall l | Key(h, l) == k ensures At(h.id, Holds(h, local), l) <==> LastOf(h.id, local, l) {
      HeldIsTheLast(h.id, local, l);
    }
    if k in Holds(h, local) { HeldIsListed(local, h.id, k); }
    if !Lists(h.id, remote, k) { forall x | x in remote ensures Key(h, x) != k {} }
  }

  /** The written list consists of exactly the blocks that stay, for each of the three strategies and whatever keys
      the two lists repeat. */
  lemma ResolvedIsWhatStays(h: Host, strategy: Strategy, local: seq<Block>, remote: seq<Block>)
    ensures forall b :: b in Resolved(h, strategy, local, remote) <==> Stays(h, strategy, local, remote, b)
  {
    hide LastOf, FirstOf, LastNewestOf, Lists;
    var m := Merged(h, strategy, local, remote);
    forall k | k in m.vals ensures Key(h, m.vals[k]) == k { MergedKeyed(h, strategy, local, remote, k); }
    PickDistinct(h, m);
    forall b ensures At(h.id, m.vals, b) <==> Stays(h, strategy, local, remote, b) {
      HeldIsTheLast(h.id, local, b);
      match strategy {
        case PreferLocal => LocalIsKept(h, Holds(h, local), remote, b);
        case PreferRemote => RemoteIsTaken(h, Holds(h, local), remote, b);
        case LastWriteWins => NewerIsKept(h, local, remote, b);
      }
    }
  }

  /** Of two single blocks with one key the one whose time is later stays, whichever side it is on. A time that is
      missing, empty or unreadable counts as the epoch. */
  lemma LaterTimeStays(h: Host, x: Block, y: Block)
    requires Key(h, x) == Key(h, y)
    ensures x.timestamp.Some? && x.timestamp.value != "" && y.timestamp.Some? && y.timestamp.value != "" ==>
              match (h.parseDate(x.timestamp.value), h.parseDate(y.timestamp.value))
              case (Some(p), Some(q)) => Resolved(h, LastWriteWins, [x], [y]) == (if p <= q then [y] else [x])
              case (Some(p), None) => Resolved(h, LastWriteWins, [x], [y]) == (if p <= 0 then [y] else [x])
              case (None, Some(q)) => Resolved(h, LastWriteWins, [x], [y]) == (if 0 <= q then [y] else [x])
              case (None, None) => Resolved(h, LastWriteWins, [x], [y]) == [y]
    ensures y.timestamp == None || y.timestamp == Some("") ==>
              Resolved(h, LastWriteWins, [x], [y]) == (if BlockTimestamp(h, x) <= 0 then [y] else [x])
  {
    var winner := if BlockTimestamp(h, x) <= BlockTimestamp(h, y) then y else x;
    OneHeldEach(h, x, y);
    ResolvedHoldsMerged(h, LastWriteWins, [x], [y]);
    OnlyOne(h, Resolved(h, LastWriteWins, [x], [y]), winner);
  }

  lemma OneHeldEach(h: Host, x: Block, y: Block)
    requires Key(h, x) == Key(h, y)
    ensures MergeVals(h, LastWriteWins, Holds(h, [x]), [y])
         == map[Key(h, x) := if BlockTimestamp(h, x) <= BlockTimestamp(h, y) then y else x]
  {
    OneHeld(h, x);
    assert [y][..|[y]| - 1] == [];
  }

  lemma OnlyOne(h: Host, r: seq<Block>, b: Block)
    requires |r| == 1 && Holds(h, r) == map[Key(h, b) := b]
    ensures r == [b]
  {
    HeldIsListed(r, h.id, Key(h, b));
  }

  // ---- last write wins ----

  /** The merge of two replicas, key by key. */
  ghost function Join(h: Host, a: map<string, Block>, b: map<string, Block>): map<string, Block> {
    map k | k in a.Keys + b.Keys ::
      if k !in a then b[k] else if k !in b then a[k] else Winner(h, LastWriteWins, a[k], b[k])
  }

  /** For each key, the last of the newest blocks in a list. */
  function Newest(h: Host, blocks: seq<Block>): map<string, Block> { MergeVals(h, LastWriteWins, map[], blocks) }

  lemma {:induction false} NewestIsLastNewest(h: Host, blocks: seq<Block>, k: string) returns (i: nat)
    ensures k in Newest(h, blocks) <==> k in Holds(h, blocks)
    ensures k in Newest(h, blocks) ==>
              LastNewestAt(h, blocks, i) && Key(h, blocks[i]) == k && Newest(h, blocks)[k] == blocks[i]
  {
    i := 0;
    if blocks != [] {
      var front, last := blocks[..|blocks| - 1], blocks[|blocks| - 1];
      i := NewestIsLastNewest(h, front, k);
      forall j | 0 <= j < |front| && Key(h, front[j]) == k ensures k in Newest(h, front) {
        ListedIsHeld(front, h.id, front[j]);
      }
      if k in Newest(h, blocks) { i := NewestStep(h, blocks, k, i); }
    }
  }

  lemma NewestStep(h: Host, blocks: seq<Block>, k: string, before: nat) returns (i: nat)
    requires blocks != [] && k in Newest(h, blocks)
    requires var front := blocks[..|blocks| - 1];
             && (k in Newest(h, front) ==>
                   LastNewestAt(h, front, before) && Key(h, front[before]) == k && Newest(h, front)[k] == front[before])
             && (forall j :: 0 <= j < |front| && Key(h, front[j]) == k ==> k in Newest(h, front))
    ensures LastNewestAt(h, blocks, i) && Key(h, blocks[i]) == k && Newest(h, blocks)[k] == blocks[i]
  {
    var front, last := blocks[..|blocks| - 1], blocks[|blocks| - 1];
    i := if k in Newest(h, front) && (Key(h, last) != k || BlockTimestamp(h, last) < BlockTimestamp(h, front[before]))
         then before else |front|;
    assert forall j :: 0 <= j < |front| ==> front[j] == blocks[j];
  }

  lemma JoinOneMore(h: Host, a: map<string, Block>, b: map<string, Block>, x: Block)
    ensures Join(h, a, WithBlock(h, LastWriteWins, b, x)) == WithBlock(h, LastWriteWins, Join(h, a, b), x)
  {
  }

  /** Pulling a replica joins its newest blocks. */
  lemma {:induction false} MergeIsJoin(h: Host, start: map<string, Block>, remote: seq<Block>)
    ensures MergeVals(h, LastWriteWins, start, remote) == Join(h, start, Newest(h, remote))
  {
    if remote != [] {
      var front, last := remote[..|remote| - 1], remote[|remote| - 1];
      MergeIsJoin(h, start, front);
      JoinOneMore(h, start, Newest(h, front), last);
    }
  }

  /** With distinct keys the newest block of a key is the one held. */
  lemma {:induction false} DistinctIsNewest(h: Host, blocks: seq<Block>)
    requires KeyDistinct(h, blocks)
    ensures Newest(h, blocks) == Holds(h, blocks)
  {
    if blocks != [] {
      DistinctFront(h, blocks);
      DistinctIsNewest(h, blocks[..|blocks| - 1]);
    }
  }

  lemma ResolvedIsJoin(h: Host, local: seq<Block>, remote: seq<Block>)
    ensures Holds(h, Resolved(h, LastWriteWins, local, remote)) == Join(h, Holds(h, local), Newest(h, remote))
  {
    ResolvedHoldsMerged(h, LastWriteWins, local, remote);
    MergeIsJoin(h, Holds(h, local), remote);
  }

  /** The result of a pull has distinct keys, so its newest blocks are those it holds. */
  lemma ResolvedIsNewest(h: Host, local: seq<Block>, remote: seq<Block>)
    ensures Newest(h, Resolved(h, LastWriteWins, local, remote)) == Holds(h, Resolved(h, LastWriteWins, local, remote))
  {
    ResolvedHoldsMerged(h, LastWriteWins, local, remote);
    DistinctIsNewest(h, Resolved(h, LastWriteWins, local, remote));
  }

  /** What the remote side held is no newer than what is held after the merge; duplicate keys included. */
  lemma {:induction false} MergeDominates(h: Host, start: map<string, Block>, remote: seq<Block>, k: string)
    requires k in Holds(h, remote)
    ensures var m := MergeVals(h, LastWriteWins, start, remote);
            k in m && BlockTimestamp(h, Holds(h, remote)[k]) <= BlockTimestamp(h, m[k])
  {
    var front, last := remote[..|remote| - 1], remote[|remote| - 1];
    if k != Key(h, last) { MergeDominates(h, start, front, k); }
  }

  /** A pulls from B, then B pulls from A: both hold the same block for every key, ties and duplicate keys included. */
  lemma PullsConverge(h: Host, a: seq<Block>, b: seq<Block>)
    ensures var a' := Resolved(h, LastWriteWins, a, b);
            Holds(h, Resolved(h, LastWriteWins, b, a')) == Holds(h, a')
  {
    var a' := Resolved(h, LastWriteWins, a, b);
    ResolvedHoldsMerged(h, LastWriteWins, a, b);
    ResolvedIsJoin(h, b, a');
    ResolvedIsNewest(h, a, b);
    MergedKeys(h, LastWriteWins, Holds(h, a), b);
    forall k | k in Holds(h, b)
      ensures k in Holds(h, a') && Winner(h, LastWriteWins, Holds(h, b)[k], Holds(h, a')[k]) == Holds(h, a')[k]
    {
      MergeDominates(h, Holds(h, a), b, k);
    }
    JoinAbsorbed(h, Holds(h, b), Holds(h, a'));
  }

  lemma JoinAbsorbed(h: Host, small: map<string, Block>, big: map<string, Block>)
    requires forall k :: k in small ==> k in big && Winner(h, LastWriteWins, small[k], big[k]) == big[k]
    ensures Join(h, small, big) == big
  {
  }

  lemma JoinTwice(h: Host, a: map<string, Block>, b: map<string, Block>)
    ensures Join(h, Join(h, a, b), b) == Join(h, a, b)
    ensures Join(h, a, a) == a
  {
  }

  /** The newest blocks of a list are at least as new as those it holds. */
  lemma NewestAbsorbs(h: Host, blocks: seq<Block>)
    ensures Join(h, Holds(h, blocks), Newest(h, blocks)) == Newest(h, blocks)
  {
    forall k | k in Holds(h, blocks)
      ensures k in Newest(h, blocks)
      ensures Winner(h, LastWriteWins, Holds(h, blocks)[k], Newest(h, blocks)[k]) == Newest(h, blocks)[k]
    {
      MergeDominates(h, map[], blocks, k);
    }
    JoinAbsorbed(h, Holds(h, blocks), Newest(h, blocks));
  }

  /** A second pull changes nothing; a pull from one's own list changes nothing exactly when the block held for each key
      is already the last of its newest. */
  lemma PullIsIdempotent(h: Host, a: seq<Block>, b: seq<Block>)
    ensures var once := Resolved(h, LastWriteWins, a, b);
            Holds(h, Resolved(h, LastWriteWins, once, b)) == Holds(h, once)
    ensures Holds(h, Resolved(h, LastWriteWins, b, b)) == Holds(h, b) <==> Holds(h, b) == Newest(h, b)
  {
    var once := Resolved(h, LastWriteWins, a, b);
    ResolvedIsJoin(h, a, b);
    ResolvedIsJoin(h, once, b);
    ResolvedIsJoin(h, b, b);
    JoinTwice(h, Holds(h, a), Newest(h, b));
    NewestAbsorbs(h, b);
  }

  ghost predicate Associates(h: Host, a: seq<Block>, b: seq<Block>, c: seq<Block>) {
    Holds(h, Resolved(h, LastWriteWins, Resolved(h, LastWriteWins, a, b), c))
    == Holds(h, Resolved(h, LastWriteWins, a, Resolved(h, LastWriteWins, b, c)))
  }

  /** The grouping of pulls through a list does not matter, whoever pulls and whatever else is pulled, exactly when the
      block it holds for each key is the last of its newest. */
  lemma PullIsAssociativeIff(h: Host, b: seq<Block>)
    ensures Holds(h, b) == Newest(h, b) <==> forall a, c :: Associates(h, a, b, c)
  {
    hide Join, Newest, Resolved, Holds;
    if Holds(h, b) == Newest(h, b) {
      forall a, c ensures Associates(h, a, b, c) {
        BothGroupings(h, a, b, c);
        JoinIsAssociative(h, Holds(h, a), Holds(h, b), Newest(h, c));
      }
    } else {
      BothGroupings(h, [], b, []);
      NothingJoined(h, Holds(h, b), Newest(h, b));
      assert !Associates(h, [], b, []);
    }
  }

  lemma NothingJoined(h: Host, held: map<string, Block>, newest: map<string, Block>)
    ensures Join(h, Join(h, Holds(h, []), newest), Newest(h, [])) == newest
    ensures Join(h, Holds(h, []), Join(h, held, Newest(h, []))) == held
  {
  }

  lemma BothGroupings(h: Host, a: seq<Block>, b: seq<Block>, c: seq<Block>)
    ensures Holds(h, Resolved(h, LastWriteWins, Resolved(h, LastWriteWins, a, b), c))
         == Join(h, Join(h, Holds(h, a), Newest(h, b)), Newest(h, c))
    ensures Holds(h, Resolved(h, LastWriteWins, a, Resolved(h, LastWriteWins, b, c)))
         == Join(h, Holds(h, a), Join(h, Holds(h, b), Newest(h, c)))
  {
    ResolvedIsJoin(h, a, b);
    ResolvedIsJoin(h, b, c);
    ResolvedIsNewest(h, b, c);
    ResolvedIsJoin(h, Resolved(h, LastWriteWins, a, b), c);
    ResolvedIsJoin(h, a, Resolved(h, LastWriteWins, b, c));
  }

  lemma JoinIsAssociative(h: Host, a: map<string, Block>, b: map<string, Block>, c: map<string, Block>)
    ensures Join(h, Join(h, a, b), c) == Join(h, a, Join(h, b, c))
  {
    var left, right := Join(h, Join(h, a, b), c), Join(h, a, Join(h, b, c));
    assert left.Keys == right.Keys;
    forall k | k in left ensures left[k] == right[k] {
      assert k in a || k in b || k in c;
    }
  }

  /** Two different blocks under one key with one timestamp. */
  ghost predicate Tie(h: Host, x: Block, y: Block) {
    Key(h, x) == Key(h, y) && BlockTimestamp(h, x) == BlockTimestamp(h, y) && x != y
  }

  /** For one key: a side that is alone with it holds its last newest block; otherwise both sides have the same newest
      block, or one side's is strictly newer and is what that side holds. */
  ghost predicate OrderFreeAt(h: Host, a: seq<Block>, b: seq<Block>, k: string) {
    var p, q := Newest(h, a), Newest(h, b);
    if k !in p && k !in q then true
    else if k !in q then HoldsNewest(h, a, k)
    else if k !in p then HoldsNewest(h, b, k)
    else
      || p[k] == q[k]
      || (HoldsNewest(h, a, k) && BlockTimestamp(h, p[k]) > BlockTimestamp(h, q[k]))
      || (HoldsNewest(h, b, k) && BlockTimestamp(h, q[k]) > BlockTimestamp(h, p[k]))
  }

  ghost predicate HoldsNewest(h: Host, blocks: seq<Block>, k: string) {
    k in Holds(h, blocks) && k in Newest(h, blocks) && Holds(h, blocks)[k] == Newest(h, blocks)[k]
  }

  lemma SideFacts(h: Host, blocks: seq<Block>, k: string)
    ensures k in Holds(h, blocks) <==> k in Newest(h, blocks)
    ensures k in Holds(h, blocks) ==>
              BlockTimestamp(h, Holds(h, blocks)[k]) <= BlockTimestamp(h, Newest(h, blocks)[k])
  {
    MergedKeys(h, LastWriteWins, map[], blocks);
    if k in Holds(h, blocks) { MergeDominates(h, map[], blocks, k); }
  }

  lemma CommutesAt(h: Host, a: seq<Block>, b: seq<Block>, k: string)
    ensures var left, right := Join(h, Holds(h, a), Newest(h, b)), Join(h, Holds(h, b), Newest(h, a));
            && (k in left <==> k in right)
            && (k in left ==> (left[k] == right[k] <==> OrderFreeAt(h, a, b, k)))
            && (k !in left ==> OrderFreeAt(h, a, b, k))
  {
    SideFacts(h, a, k);
    SideFacts(h, b, k);
  }

  /** The direction of a pull does not matter exactly when no key's outcome depends on it. */
  lemma PullCommutesIff(h: Host, a: seq<Block>, b: seq<Block>)
    ensures Holds(h, Resolved(h, LastWriteWins, a, b)) == Holds(h, Resolved(h, LastWriteWins, b, a))
       <==> forall k :: OrderFreeAt(h, a, b, k)
  {
    hide OrderFreeAt;
    ResolvedIsJoin(h, a, b);
    ResolvedIsJoin(h, b, a);
    var left, right := Join(h, Holds(h, a), Newest(h, b)), Join(h, Holds(h, b), Newest(h, a));
    hide Join, Newest;
    forall k ensures (k in left <==> k in right) && (k in left ==> (left[k] == right[k] <==> OrderFreeAt(h, a, b, k)))
             ensures k !in left ==> OrderFreeAt(h, a, b, k)
    {
      CommutesAt(h, a, b, k);
    }
    if forall k :: OrderFreeAt(h, a, b, k) {
      assert left.Keys == right.Keys;
      assert left == right;
    }
  }

  /** With distinct keys only ties are left: two different blocks under one key with one timestamp. */
  lemma DistinctPullCommutesIff(h: Host, a: seq<Block>, b: seq<Block>)
    requires KeyDistinct(h, a) && KeyDistinct(h, b)
    ensures Holds(h, Resolved(h, LastWriteWins, a, b)) == Holds(h, Resolved(h, LastWriteWins, b, a))
       <==> forall x, y :: x in a && y in b ==> !Tie(h, x, y)
  {
    PullCommutesIff(h, a, b);
    forall x, y | x in a && y in b && Tie(h, x, y) ensures !OrderFreeAt(h, a, b, Key(h, x)) {
      DistinctIsNewest(h, a);
      DistinctIsNewest(h, b);
      DistinctHolds(h, a, x);
      DistinctHolds(h, b, y);
    }
    forall k | !OrderFreeAt(h, a, b, k) ensures exists x, y :: x in a && y in b && Tie(h, x, y) {
      TiedAt(h, a, b, k);
    }
  }

  lemma TiedAt(h: Host, a: seq<Block>, b: seq<Block>, k: string)
    requires KeyDistinct(h, a) && KeyDistinct(h, b) && !OrderFreeAt(h, a, b, k)
    ensures exists x, y :: x in a && y in b && Tie(h, x, y)
  {
    DistinctIsNewest(h, a);
    DistinctIsNewest(h, b);
    HeldIsListed(a, h.id, k);
    HeldIsListed(b, h.id, k);
    assert Tie(h, Holds(h, a)[k], Holds(h, b)[k]);
  }

  // ---- pulls whose direction shows ----

  function WithHash(index: int, timestamp: Option<string>): Block {
    Block(Some(index), timestamp, Some("h"), None, None)
  }

  function TextHost(le: KeyOrder, parseDate: string -> Option<int>): Host { Host(ByText(le), parseDate) }

  /** Two blocks with one hash and no timestamps: each side ends up with the other's. */
  lemma TieShows(le: KeyOrder, parseDate: string -> Option<int>)
    ensures var h, a, b := TextHost(le, parseDate), [WithHash(1, None)], [WithHash(2, None)];
            Holds(h, Resolved(h, LastWriteWins, a, b)) != Holds(h, Resolved(h, LastWriteWins, b, a))
  {
    var h, x, y := TextHost(le, parseDate), WithHash(1, None), WithHash(2, None);
    assert Tie(h, x, y);
    DistinctPullCommutesIff(h, [x], [y]);
    assert x in [x] && y in [y];
  }

  /** A list that repeats a key with an older block last: no ties, and yet the direction of a pull from an empty list
      shows, and so does a pull from itself. */
  lemma RepeatedKeyShows(le: KeyOrder, parseDate: string -> Option<int>, time: string)
    requires time != "" && parseDate(time).Some? && parseDate(time).value > 0
    ensures var h, a := TextHost(le, parseDate), [WithHash(1, Some(time)), WithHash(2, None)];
            && Holds(h, Resolved(h, LastWriteWins, a, [])) != Holds(h, Resolved(h, LastWriteWins, [], a))
            && Holds(h, Resolved(h, LastWriteWins, a, a)) != Holds(h, a)
  {
    var h, x, y := TextHost(le, parseDate), WithHash(1, Some(time)), WithHash(2, None);
    var a := [x, y];
    var k := Key(h, x);
    assert Key(h, y) == k;
    OneHeld(h, x);
    assert a[..|a| - 1] == [x];
    assert Newest(h, a) == map[k := x] && Holds(h, a) == map[k := y];
    PullIsIdempotent(h, a, a);
    PullCommutesIff(h, a, []);
    assert !OrderFreeAt(h, a, [], k);
  }

  lemma OneHeld(h: Host, x: Block)
    ensures Newest(h, [x]) == map[Key(h, x) := x] && Holds(h, [x]) == map[Key(h, x) := x]
  {
    var s, k := [x], Key(h, x);
    var nothing: map<string, Block> := map[];
    assert s[..|s| - 1] == [] && nothing[k := x] == map[k := x];
    assert Holds(h, s) == Holds(h, [])[k := x];
    assert Newest(h, s) == WithBlock(h, LastWriteWins, Newest(h, []), x);
  }

  // ---- sizes ----

  /** What `pull` reports: the merged size is the number of local keys plus `remoteOnly`, so it is `before + remoteOnly`
      exactly when the local list has no duplicate keys. */
  lemma MergedSize(h: Host, strategy: Strategy, local: seq<Block>, remote: seq<Block>)
    ensures |Resolved(h, strategy, local, remote)|
         == |Holds(h, local)| + |DiffOf(local, remote, h.id).remoteOnly|
    ensures |Resolved(h, strategy, local, remote)| == |local| + |DiffOf(local, remote, h.id).remoteOnly|
       <==> KeyDistinct(h, local)
  {
    ResolvedHoldsMerged(h, strategy, local, remote);
    MergedKeys(h, strategy, Holds(h, local), remote);
    RemoteOnlyCount(h, local, remote);
    UnionSize(Holds(h, local), Holds(h, remote), MergeVals(h, strategy, Holds(h, local), remote));
    HeldCount(h, local);
  }

  lemma RemoteOnlyCount(h: Host, local: seq<Block>, remote: seq<Block>)
    ensures |DiffOf(local, remote, h.id).remoteOnly| == |Holds(h, remote).Keys - Holds(h, local).Keys|
  {
    hide HeldBy, IndexBy;
    var l, r := IndexBy(local, h.id), IndexBy(remote, h.id);
    KeysHeld(r);
    FilterNoDup(r.keys, Missing(l.vals));
    NoDupCard(Filter(r.keys, Missing(l.vals)));
    assert Elems(Filter(r.keys, Missing(l.vals))) == r.vals.Keys - l.vals.Keys;
  }

  lemma UnionSize(l: map<string, Block>, r: map<string, Block>, m: map<string, Block>)
    requires m.Keys == l.Keys + r.Keys
    ensures |m| == |l| + |r.Keys - l.Keys|
  {
    assert m.Keys == l.Keys + (r.Keys - l.Keys);
    assert |m| == |m.Keys| && |l| == |l.Keys|;
  }

  lemma {:induction false} HeldCount(h: Host, blocks: seq<Block>)
    ensures |Holds(h, blocks)| <= |blocks|
    ensures |Holds(h, blocks)| == |blocks| <==> KeyDistinct(h, blocks)
  {
    if blocks != [] {
      var front, last := blocks[..|blocks| - 1], blocks[|blocks| - 1];
      HeldCount(h, front);
      if KeyDistinct(h, blocks) {
        DistinctFront(h, blocks);
      } else {
        NotDistinct(h, blocks);
      }
      assert Holds(h, blocks).Keys == Holds(h, front).Keys + {Key(h, last)};
    }
  }

  lemma NotDistinct(h: Host, blocks: seq<Block>)
    requires !KeyDistinct(h, blocks) && blocks != []
    ensures var front := blocks[..|blocks| - 1];
            !KeyDistinct(h, front) || Key(h, blocks[|blocks| - 1]) in Holds(h, front)
  {
    var front := blocks[..|blocks| - 1];
    var i, j :| 0 <= i < j < |blocks| && Key(h, blocks[i]) == Key(h, blocks[j]);
    assert blocks[i] == front[i];
    if j == |front| {
      ListedIsHeld(front, h.id, front[i]);
    } else {
      assert blocks[j] == front[j];
    }
  }
}

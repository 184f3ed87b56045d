/** One chain directory: numbered block files, pruning, validation, and an append by whoever holds the lock. */
module ChainFiles {
  import opened Common
  import opened Sorting

  datatype Block = Block(index: int, timestamp: string, chain: string, data: string, prevHash: string, hash: string) {
    function Hashed(): Body { Body(index, timestamp, chain, data, prevHash) }
  }

  datatype Body = Body(index: int, timestamp: string, chain: string, data: string, prevHash: string)

  /** The digest over the canonical body, and the old digest over the data alone that is still accepted. */
  datatype Hashing = Hashing(body: Body -> string, legacy: string -> string)

  /** What a block file parses to; an interrupted writer may have left one without content. */
  datatype FileEntry = Empty | Full(block: Block)

  type Files = map<int, FileEntry>

  datatype ReadError = EmptyFile(file: int) | BrokenBlock(at: nat)

  datatype AppendError = Unreadable(error: ReadError)

  predicate HashOk(h: Hashing, b: Block) { b.hash == h.body(b.Hashed()) || b.hash == h.legacy(b.data) }

  predicate GenesisLink(b: Block) { b.prevHash == "" || b.prevHash == ZERO_HASH }

  /** The hash is that of the five fields, or the old one of the data alone. */
  ghost predicate Hashes(h: Hashing, b: Block) {
    b.hash == h.body(Body(b.index, b.timestamp, b.chain, b.data, b.prevHash)) || b.hash == h.legacy(b.data)
  }

  /** Numbered 1..n, hashed, and linked. */
  ghost predicate ValidChain(h: Hashing, blocks: seq<Block>) {
    forall i :: 0 <= i < |blocks| ==>
      && blocks[i].index == i + 1 && Hashes(h, blocks[i])
      && (i == 0 ==> blocks[i].prevHash == "" || blocks[i].prevHash == ZERO_HASH)
      && (i > 0 ==> blocks[i].prevHash == blocks[i - 1].hash)
  }

  function NextPrevHash(blocks: seq<Block>): string {
    if blocks == [] then ZERO_HASH else blocks[|blocks| - 1].hash
  }

  /** The block an append builds on top of `blocks`. */
  function NewBlock(h: Hashing, blocks: seq<Block>, timestamp: string, chain: string, data: string): Block {
    var next := if blocks == [] then 1 else blocks[|blocks| - 1].index + 1;
    var body := Body(next, timestamp, chain, data, NextPrevHash(blocks));
    Block(next, timestamp, chain, data, NextPrevHash(blocks), h.body(body))
  }

  /** The block carries what the caller gave, in the next place behind `blocks`, under the hash of just that. */
  predicate Carries(b: Block, h: Hashing, blocks: seq<Block>, timestamp: string, chain: string, data: string) {
    && b.timestamp == timestamp && b.chain == chain && b.data == data
    && b.index == |blocks| + 1
    && (if blocks == [] then b.prevHash == seq(64, _ => '0') else b.prevHash == blocks[|blocks| - 1].hash)
    && b.hash == h.body(Body(|blocks| + 1, timestamp, chain, data, b.prevHash))
  }

  lemma NewBlockExtends(h: Hashing, blocks: seq<Block>, timestamp: string, chain: string, data: string)
    requires ValidChain(h, blocks)
    ensures var b := NewBlock(h, blocks, timestamp, chain, data);
            ValidChain(h, blocks + [b]) && Carries(b, h, blocks, timestamp, chain, data)
  {
    ValidChainExtends(h, blocks, NewBlock(h, blocks, timestamp, chain, data));
  }

  /** The full files are exactly the blocks of `chain`, each in the file of its own number. */
  ghost predicate HoldsChain(h: Hashing, files: Files, chain: seq<Block>) {
    && ValidChain(h, chain)
    && (forall i :: i in files && files[i].Full? ==> 1 <= i <= |chain| && files[i].block == chain[i - 1])
    && (forall i :: 1 <= i <= |chain| ==> i in files && files[i].Full?)
  }

  lemma HeldBlock(h: Hashing, files: Files, chain: seq<Block>, i: int)
    requires HoldsChain(h, files, chain) && 1 <= i <= |chain|
    ensures i in files && files[i] == Full(chain[i - 1])
  {
  }

  predicate Ascending(names: seq<int>) { forall i, j :: 0 <= i < j < |names| ==> names[i] < names[j] }

  /** `b` may come right after `blocks`. */
  predicate Follows(h: Hashing, blocks: seq<Block>, b: Block) {
    && HashOk(h, b) && b.index == |blocks| + 1
    && (if blocks == [] then GenesisLink(b) else b.prevHash == blocks[|blocks| - 1].hash)
  }

  lemma ValidChainExtends(h: Hashing, blocks: seq<Block>, b: Block)
    ensures ValidChain(h, blocks + [b]) <==> ValidChain(h, blocks) && Follows(h, blocks, b)
  {
    var all := blocks + [b];
    assert all[|blocks|] == b;
    assert forall i :: 0 <= i < |blocks| ==> all[i] == blocks[i];
    if ValidChain(h, all) {
      forall i | 0 <= i < |blocks| ensures HashOk(h, blocks[i]) && blocks[i].index == i + 1 {
        assert all[i] == blocks[i];
      }
    }
  }

  /** Loops over the loaded blocks and stops at the first one that breaks the chain. */
  method ValidateLoaded(h: Hashing, loaded: seq<Block>) returns (r: Result<seq<Block>, ReadError>)
    ensures r.Ok? <==> ValidChain(h, loaded)
    ensures r.Ok? ==> r.value == loaded
    ensures r.Err? ==> r.error.BrokenBlock? && r.error.at < |loaded|
                       && ValidChain(h, loaded[..r.error.at]) && !ValidChain(h, loaded[..r.error.at + 1])
  {
    var blocks: seq<Block> := [];
    for i := 0 to |loaded|
      invariant blocks == loaded[..i] && ValidChain(h, blocks)
    {
      var current := loaded[i];
      var intact := CheckNext(h, blocks, current);
      ValidChainExtends(h, blocks, current);
      assert loaded[..i + 1] == blocks + [current];
      if !intact {
        BrokenPrefix(h, loaded, i + 1);
        return Err(BrokenBlock(i));
      }
      blocks := blocks + [current];
    }
    assert loaded[..|loaded|] == loaded;
    r := Ok(blocks);
  }

  lemma BrokenPrefix(h: Hashing, blocks: seq<Block>, n: nat)
    requires n <= |blocks| && !ValidChain(h, blocks[..n])
    ensures !ValidChain(h, blocks)
  {
    if ValidChain(h, blocks) { ValidChainPrefix(h, blocks, n); }
  }

  /** The checks of one round of the loop; each failing branch refuses the chain. */
  method CheckNext(h: Hashing, blocks: seq<Block>, current: Block) returns (intact: bool)
    requires forall i :: 0 <= i < |blocks| ==> blocks[i].index == i + 1
    ensures intact <==> Follows(h, blocks, current)
  {
    if !HashOk(h, current) {
      return false;
    }
    if current.index == 1 && !GenesisLink(current) {
      return false;
    }
    if |blocks| == 0 {
      return current.index == 1 && GenesisLink(current);
    }
    var previous := blocks[|blocks| - 1];
    if current.index != previous.index + 1 {
      return false;
    }
    return current.prevHash == previous.hash;
  }

  lemma ValidChainPrefix(h: Hashing, blocks: seq<Block>, n: nat)
    requires ValidChain(h, blocks) && n <= |blocks|
    ensures ValidChain(h, blocks[..n])
  {
    assert forall i :: 0 <= i < n ==> blocks[..n][i] == blocks[i];
  }

  predicate AllFull(names: seq<int>, files: Files) {
    forall i :: 0 <= i < |names| ==> names[i] in files && files[names[i]].Full?
  }

  function BlocksAt(names: seq<int>, files: Files): (r: seq<Block>)
    requires AllFull(names, files)
    ensures |r| == |names|
  {
    seq(|names|, i requires 0 <= i < |names| => files[names[i]].block)
  }

  /** A listing without empty files of a directory that holds a chain is 1..n. */
  lemma NamesAreRange(h: Hashing, names: seq<int>, files: Files, chain: seq<Block>)
    requires HoldsChain(h, files, chain)
    requires Ascending(names) && AllFull(names, files)
    requires forall i :: 1 <= i <= |chain| ==> i in names
    ensures Elems(names) == Range(|chain|)
    ensures forall i :: 0 <= i < |names| ==> 1 <= names[i] <= |chain|
  {
    hide ValidChain;
    forall i | 0 <= i < |names| ensures names[i] in Range(|chain|) {}
  }

  lemma FullListingIsChain(h: Hashing, names: seq<int>, files: Files, chain: seq<Block>)
    requires HoldsChain(h, files, chain)
    requires Ascending(names) && AllFull(names, files)
    requires forall i :: 1 <= i <= |chain| ==> i in names
    ensures |names| == |chain| && (forall i :: 0 <= i < |names| ==> names[i] == i + 1)
    ensures BlocksAt(names, files) == chain
  {
    hide ValidChain, BlocksAt, Range;
    NamesAreRange(h, names, files, chain);
    RangeSize(|chain|);
    NoDupCard(names);
    AscendingFromOne(names, |chain|);
    BlocksInOrder(h, names, files, chain);
  }

  lemma RangeSize(n: nat)
    ensures |Range(n)| == n
  {
  }

  lemma BlocksInOrder(h: Hashing, names: seq<int>, files: Files, chain: seq<Block>)
    requires HoldsChain(h, files, chain) && AllFull(names, files)
    requires |names| == |chain| && forall i :: 0 <= i < |names| ==> names[i] == i + 1
    ensures BlocksAt(names, files) == chain
  {
    hide ValidChain;
    forall i | 0 <= i < |chain| ensures BlocksAt(names, files)[i] == chain[i] {
      HeldBlock(h, files, chain, i + 1);
    }
  }

  /** The numbers 1..n. */
  function Range(n: nat): (r: set<int>)
    ensures |r| == n && forall i :: i in r <==> 1 <= i <= n
  {
    if n == 0 then {} else Range(n - 1) + {n}
  }

  lemma AscendingFromOne(names: seq<int>, n: nat)
    requires Ascending(names) && |names| == n
    requires forall i :: 0 <= i < n ==> 1 <= names[i] <= n
    ensures forall i :: 0 <= i < n ==> names[i] == i + 1
  {
    forall i | 0 <= i < n ensures names[i] == i + 1 {
      AscendingFloor(names, i);
      AscendingCeiling(names, i, n);
    }
  }

  lemma {:induction false} AscendingFloor(names: seq<int>, i: nat)
    requires Ascending(names) && i < |names| && forall j :: 0 <= j < |names| ==> names[j] >= 1
    ensures names[i] >= i + 1
  {
    if i > 0 { AscendingFloor(names, i - 1); }
  }

  lemma {:induction false} AscendingCeiling(names: seq<int>, i: nat, n: nat)
    requires Ascending(names) && i < |names| && |names| == n && forall j :: 0 <= j < n ==> names[j] <= n
    ensures names[i] <= i + 1
    decreases n - i
  {
    if i + 1 < n { AscendingCeiling(names, i + 1, n); }
  }

  /** An empty file that no full file follows: what an append may clear away. */
  ghost predicate TrailingEmpty(files: Files, i: int) {
    i in files && forall j :: j in files && j >= i ==> files[j].Empty?
  }

  /** The directory as its lock holder sees it. `listing` stands for `readdir`, in any order. */
  class ChainDirectory {
    var files: Files

    constructor (files: Files)
      ensures this.files == files
    {
      this.files := files;
    }

    method PruneTrailingEmpty(listing: seq<int>)
      requires NoDup(listing) && Elems(listing) == files.Keys
      modifies this
      ensures files == map i | i in old(files) && !TrailingEmpty(old(files), i) :: old(files)[i]
    {
      var newest := (a: int, b: int) => a >= b;
      var names := Sort(listing, newest);
      SortSorts(listing, newest);
      SortNoDup(listing, newest);
      ghost var before := files;
      ghost var done: set<int> := {};
      assert Elems(names) == before.Keys by { assert Elems(names) == Elems(listing); }
      var n := 0;
      while n < |names|
        invariant n <= |names| && done == Elems(names[..n]) && files == before - done
        invariant forall i :: i in done ==> TrailingEmpty(before, i)
      {
        var file := names[n];
        PruneNotDone(names, n);
        if files[file].Full? {
          break;
        }
        PruneGoesOn(before, names, n);
        ElemsStep(names, n);
        files := files - {file};
        done := done + {file};
        n := n + 1;
      }
      PruneEnds(before, names, n);
    }

    lemma PruneNotDone(names: seq<int>, n: nat)
      requires NoDup(names) && n < |names|
      ensures names[n] !in Elems(names[..n]) && names[n] in Elems(names)
    {
    }

    lemma PruneEnds(before: Files, names: seq<int>, n: nat)
      requires SortedBy(names, (a: int, b: int) => a >= b) && NoDup(names) && Elems(names) == before.Keys
      requires n == |names| || (n < |names| && names[n] in before && before[names[n]].Full?)
      requires forall i :: i in Elems(names[..n]) ==> TrailingEmpty(before, i)
      ensures before - Elems(names[..n]) == map i | i in before && !TrailingEmpty(before, i) :: before[i]
    {
      if n == |names| { assert names[..n] == names; } else { PruneStops(before, names, n); }
    }

    lemma PruneStops(before: Files, names: seq<int>, n: nat)
      requires SortedBy(names, (a: int, b: int) => a >= b) && NoDup(names) && Elems(names) == before.Keys
      requires n < |names| && names[n] in before && before[names[n]].Full?
      ensures forall i :: TrailingEmpty(before, i) ==> i in Elems(names[..n])
    {
      forall i | TrailingEmpty(before, i) ensures i in Elems(names[..n]) {
        assert i in Elems(names);
        var m :| 0 <= m < |names| && names[m] == i;
        assert m < n;
        assert names[..n][m] == i;
      }
    }

    lemma PruneGoesOn(before: Files, names: seq<int>, n: nat)
      requires SortedBy(names, (a: int, b: int) => a >= b) && NoDup(names) && Elems(names) == before.Keys
      requires n < |names| && names[n] in before && before[names[n]].Empty?
      requires forall i :: i in Elems(names[..n]) ==> TrailingEmpty(before, i)
      ensures TrailingEmpty(before, names[n])
    {
      forall j | j in before && j >= names[n] ensures before[j].Empty? {
        assert j in Elems(names);
        var m :| 0 <= m < |names| && names[m] == j;
        if m < n {
          assert names[..n][m] == j;
          assert TrailingEmpty(before, j);
        }
      }
    }

    method ReadAndValidate(h: Hashing, listing: seq<int>) returns (r: Result<seq<Block>, ReadError>)
      requires NoDup(listing) && Elems(listing) == files.Keys
      ensures r.Ok? <==> AllFull(Sort(listing, Oldest()), files)
                         && ValidChain(h, BlocksAt(Sort(listing, Oldest()), files))
      ensures r.Ok? ==> r.value == BlocksAt(Sort(listing, Oldest()), files)
      // an error names the lowest empty file, or if there is none the first block that breaks the chain
      ensures r.Err? && r.error.EmptyFile? ==>
                && r.error.file in listing && files[r.error.file].Empty?
                && forall i :: i in listing && i < r.error.file ==> files[i].Full?
      ensures r.Err? && r.error.BrokenBlock? ==>
                && AllFull(Sort(listing, Oldest()), files)
                && var blocks := BlocksAt(Sort(listing, Oldest()), files);
                   && r.error.at < |blocks|
                   && ValidChain(h, blocks[..r.error.at]) && !ValidChain(h, blocks[..r.error.at + 1])
    {
      hide ValidChain, Sort;
      var names := Sort(listing, Oldest());
      assert forall i :: i in names ==> i in Elems(listing);
      var loaded: seq<Block> := [];
      for n := 0 to |names|
        invariant AllFull(names[..n], files) && loaded == BlocksAt(names[..n], files)
      {
        assert names[n] in names;
        match files[names[n]] {
          case Empty =>
            LowerWereFull(listing, names, n, files);
            return Err(EmptyFile(names[n]));
          case Full(block) => loaded := loaded + [block];
        }
      }
      assert names[..|names|] == names;
      r := ValidateLoaded(h, loaded);
    }

    /** What was read before is all that is numbered lower. */
    lemma LowerWereFull(listing: seq<int>, names: seq<int>, n: nat, files: Files)
      requires names == Sort(listing, Oldest()) && n < |names| && AllFull(names[..n], files)
      ensures forall i :: i in listing && i < names[n] ==> i in files && files[i].Full?
    {
      SortSorts(listing, Oldest());
      forall m | n < m < |names| ensures names[n] <= names[m] { assert Oldest()(names[n], names[m]); }
      forall i | i in listing && i < names[n] ensures i in files && files[i].Full? {
        var m :| 0 <= m < |names| && names[m] == i;
        assert m < n ==> names[..n][m] == i;
      }
    }

    /** The critical section of an append: prune, read, build, replace the next file. */
    method AppendLocked(h: Hashing, listing: seq<int>, relisting: seq<int>, chainName: string, data: string,
                        now: string, ghost chain: seq<Block>)
      returns (r: Result<Block, AppendError>)
      requires HoldsChain(h, files, chain)
      requires NoDup(listing) && Elems(listing) == files.Keys
      requires NoDup(relisting) && Elems(relisting) == set i | i in files && !TrailingEmpty(files, i)
      modifies this
      // an empty file below the first block is the one thing that blocks an append
      ensures r.Ok? <==> chain == [] || forall i :: i in old(files) && i < 1 ==> old(files)[i].Full?
      ensures r.Ok? ==> Carries(r.value, h, chain, now, chainName, data)
                        && HoldsChain(h, files, chain + [r.value])
                        && forall i :: i in files ==> files[i].Full?
      // the error names the lowest empty file, and the chain is as before
      ensures r.Err? ==> HoldsChain(h, files, chain) && r.error.error.EmptyFile?
                         && r.error.error.file in old(files) && old(files)[r.error.error.file].Empty?
                         && forall i :: i in old(files) && i < r.error.error.file ==> old(files)[i].Full?
    {
      hide HoldsChain, ValidChain, TrailingEmpty, AllFull, Ascending;
      PruneTrailingEmpty(listing);
      PruneKeepsChain(h, old(files), files, chain);
      assert Elems(relisting) == files.Keys;
      SortedListing(h, relisting, files, chain);
      ghost var names := Sort(relisting, Oldest());
      var read := ReadAndValidate(h, relisting);
      if AllFull(names, files) {
        FullListingIsChain(h, names, files, chain);
        ChainIsValid(h, files, chain);
      }
      if read.Err? {
        LowerStay(old(files), files, read.error.file);
        return Err(Unreadable(read.error));
      }
      var block := NewBlock(h, read.value, now, chainName, data);
      NewBlockExtends(h, read.value, now, chainName, data);
      ghost var before := files;
      files := files[block.index := Full(block)];
      AppendedFileExtends(h, before, chain, block);
      r := Ok(block);
    }

    lemma SortedListing(h: Hashing, listing: seq<int>, files: Files, chain: seq<Block>)
      requires HoldsChain(h, files, chain) && NoDup(listing) && Elems(listing) == files.Keys
      ensures var names := Sort(listing, Oldest());
              && Ascending(names)
              && (AllFull(names, files) <==> forall i :: i in files ==> files[i].Full?)
              && forall i :: 1 <= i <= |chain| ==> i in names
    {
      hide ValidChain, Sort;
      SortSorts(listing, Oldest());
      SortNoDup(listing, Oldest());
      var names := Sort(listing, Oldest());
      assert forall i :: i in names <==> i in Elems(listing);
      forall i | 1 <= i <= |chain| ensures i in names { HeldBlock(h, files, chain, i); }
      if AllFull(names, files) {
        forall i | i in files ensures files[i].Full? { assert i in Elems(listing); }
      }
    }

    /** Pruning leaves everything below a file that it leaves. */
    lemma LowerStay(before: Files, after: Files, file: int)
      requires after == map i | i in before && !TrailingEmpty(before, i) :: before[i]
      requires file in after
      ensures forall i :: i in before && i <= file ==> i in after && after[i] == before[i]
    {
      forall i | i in before && i <= file ensures !TrailingEmpty(before, i) {
        var j :| j in before && j >= file && !before[j].Empty?;
      }
    }

    lemma ChainIsValid(h: Hashing, files: Files, chain: seq<Block>)
      requires HoldsChain(h, files, chain)
      ensures ValidChain(h, chain)
    {
    }

    lemma PruneKeepsChain(h: Hashing, before: Files, after: Files, chain: seq<Block>)
      requires HoldsChain(h, before, chain)
      requires after == map i | i in before && !TrailingEmpty(before, i) :: before[i]
      ensures HoldsChain(h, after, chain)
      ensures (forall i :: i in after ==> after[i].Full?) <==>
              (chain == [] || forall i :: i in before && i < 1 ==> before[i].Full?)
    {
      hide ValidChain;
      forall i | 1 <= i <= |chain| ensures !TrailingEmpty(before, i) { assert before[i].Full?; }
      forall i | i in before ensures i in after <==> before[i].Full? || (chain != [] && i < 1) {
        PrunedIff(h, before, chain, i);
      }
    }

    /** A file goes exactly if it is empty and no block is numbered above it. */
    lemma PrunedIff(h: Hashing, before: Files, chain: seq<Block>, i: int)
      requires HoldsChain(h, before, chain) && i in before
      ensures TrailingEmpty(before, i) <==> before[i].Empty? && (chain == [] || i >= 1)
    {
      hide ValidChain;
      if chain != [] {
        assert before[|chain|].Full?;
      }
      assert 1 <= i <= |chain| ==> before[i].Full?;
    }
  }

  /** An empty file 000000.json below a first block: pruning leaves it, reading fails on it, and the append is
      refused. */
  method EmptyFileZeroBlocksAppend(h: Hashing, timestamp: string, chainName: string, data: string, now: string)
    returns (r: Result<Block, AppendError>)
    ensures r.Err?
  {
    hide HoldsChain, TrailingEmpty, NewBlock;
    var first := NewBlock(h, [], timestamp, chainName, data);
    var files: Files := map[0 := Empty, 1 := Full(first)];
    var dir := new ChainDirectory(files);
    BlockedHolds(h, first, files, timestamp, chainName, data);
    BlockedKeepsBoth(first, files);
    r := dir.AppendLocked(h, [0, 1], [0, 1], chainName, data, now, [first]);
  }

  lemma BlockedHolds(h: Hashing, first: Block, files: Files, timestamp: string, chainName: string, data: string)
    requires first == NewBlock(h, [], timestamp, chainName, data) && files == map[0 := Empty, 1 := Full(first)]
    ensures HoldsChain(h, files, [first])
  {
    hide HoldsChain, ValidChain, NewBlock;
    NewBlockExtends(h, [], timestamp, chainName, data);
    assert [] + [first] == [first];
    OneHeld(h, first, files);
  }

  lemma OneHeld(h: Hashing, first: Block, files: Files)
    requires ValidChain(h, [first]) && files == map[0 := Empty, 1 := Full(first)]
    ensures HoldsChain(h, files, [first])
  {
    hide ValidChain;
  }

  lemma BlockedKeepsBoth(first: Block, files: Files)
    requires files == map[0 := Empty, 1 := Full(first)]
    ensures Elems([0, 1]) == files.Keys && (set i | i in files && !TrailingEmpty(files, i)) == {0, 1} == Elems([0, 1])
    ensures files[0].Empty?
  {
    assert files[1].Full?;
  }

  function Oldest(): (int, int) -> bool { (a: int, b: int) => a <= b }

  lemma AppendedFileExtends(h: Hashing, files: Files, chain: seq<Block>, b: Block)
    requires HoldsChain(h, files, chain) && ValidChain(h, chain + [b]) && b.index == |chain| + 1
    ensures HoldsChain(h, files[b.index := Full(b)], chain + [b])
  {
    var all := chain + [b];
    assert forall i :: 0 <= i < |chain| ==> all[i] == chain[i];
  }
}

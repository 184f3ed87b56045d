/** The block cache: the recency list, a table of sizes, and counters. */
module ChainCache {
  import opened Common
  import opened OrderedMaps
  import opened LruCache
  import opened Numerals

  /** Two bytes per character of the key and of the printed value. */
  function EstimateBlockBytes<V>(printedLength: V -> nat, key: string, value: V): nat {
    |key| * 2 + printedLength(value) * 2
  }

  class ChainCache<V> {
    const maxBlocks: nat
    const printedLength: V -> nat
    var blocks: Recency<V>
    var blockSizes: map<string, nat>
    var hits: nat
    var misses: nat
    var writes: nat
    var invalidations: nat
    var estimatedBytes: int

    /** The books balance: as many blocks as allowed, a size for each of them, and the sizes add up. */
    ghost predicate Valid()
      reads this
    {
      Balanced() && maxBlocks >= 1 && |blocks.keys| <= maxBlocks
    }

    constructor (maxBlocks: int, printedLength: V -> nat)
      ensures Valid() && blocks == Empty() && this.maxBlocks == Max(1, maxBlocks) && this.printedLength == printedLength
      ensures hits == misses == writes == invalidations == 0 && estimatedBytes == 0
    {
      this.maxBlocks := Max(1, maxBlocks);
      this.printedLength := printedLength;
      blocks := Empty();
      blockSizes := map[];
      hits, misses, writes, invalidations, estimatedBytes := 0, 0, 0, 0, 0;
    }

    method Get(chain: string, index: int) returns (r: Option<V>)
      requires Valid()
      modifies this`blocks, this`hits, this`misses
      ensures Valid()
      ensures blocks == Touch(old(blocks), MakeKey(chain, index))
      // a hit makes the block the most recent one, and leaves the others in their order
      ensures TouchedAsNewest(old(blocks), blocks, chain + ":" + IntText(index))
      ensures r == if MakeKey(chain, index) in old(blocks).vals then Some(old(blocks).vals[MakeKey(chain, index)])
          else None
      ensures hits == old(hits) + (if r.Some? then 1 else 0) && misses == old(misses) + (if r.Some? then 0 else 1)
    {
      var key := MakeKey(chain, index);
      TouchShape(blocks, key);
      hide TouchedAsNewest, IntText, BytesAddUp, Touch;
      if key in blocks.vals {
        var value := blocks.vals[key];
        hits := hits + 1;
        MakeNewest(key, value);
        return Some(value);
      }
      misses := misses + 1;
      return None;
    }

    method MakeNewest(key: string, value: V)
      requires Valid() && key in blocks.vals && value == blocks.vals[key]
      modifies this`blocks
      ensures Valid() && blocks == Touch(old(blocks), key)
    {
      TouchBalances(blocks, blockSizes, estimatedBytes, key);
      blocks := blocks.Delete(key);
      blocks := blocks.Set(key, value);
    }

    method Set(chain: string, index: int, value: V)
      requires Valid()
      modifies this`blocks, this`blockSizes, this`writes, this`estimatedBytes
      ensures Valid()
      ensures blocks == Put(old(blocks), MakeKey(chain, index), value, maxBlocks)
      // the block becomes the most recent one, and only the least recent one can go
      ensures PutAsNewest(old(blocks), blocks, chain + ":" + IntText(index), value, maxBlocks)
      ensures writes == old(writes) + 1
    {
      var key := MakeKey(chain, index);
      PutShape(blocks, key, value, maxBlocks);
      hide PutAsNewest, IntText, BytesAddUp;
      Store(key, value);
      writes := writes + 1;
      if |blocks.keys| > maxBlocks {
        InElems(blocks);
        assert blocks.keys[0] in blocks.keys;
        RemoveKey(blocks.keys[0]);
      }
    }

    /** The books without the bound on the number of blocks, which is exceeded by one before an eviction. */
    ghost predicate Balanced()
      reads this
    {
      && blocks.Valid()
      && blockSizes.Keys == blocks.vals.Keys
      && SizesRight(blocks.vals, blockSizes, printedLength)
      && BytesAddUp(blocks, blockSizes, estimatedBytes)
    }

    /** The entry becomes the newest; the size of a value it replaces leaves the estimate. */
    method Store(key: string, value: V)
      requires Valid()
      modifies this`blocks, this`blockSizes, this`estimatedBytes
      ensures Balanced() && blocks == Append(old(blocks), key, value) && |blocks.keys| <= maxBlocks + 1
    {
      AppendShape(blocks, key, value);
      if key in blocks.vals {
        RemoveKey(key);
      } else {
        DeleteAbsent(blocks, key);
      }
      StoreFresh(key, value);
    }

    method StoreFresh(key: string, value: V)
      requires Balanced() && key !in blocks.vals
      modifies this`blocks, this`blockSizes, this`estimatedBytes
      ensures Balanced() && blocks == old(blocks).Set(key, value)
    {
      hide BytesAddUp;
      var estimate := EstimateBlockBytes(printedLength, key, value);
      FreshSetBalances(blocks, blockSizes, estimatedBytes, key, value, estimate);
      assert SizesRight(blocks.vals[key := value], blockSizes[key := estimate], printedLength);
      blocks := blocks.Set(key, value);
      blockSizes := blockSizes[key := estimate];
      estimatedBytes := estimatedBytes + estimate;
    }

    method InvalidateBlock(chain: string, index: int) returns (deleted: bool)
      requires Valid()
      modifies this`blocks, this`blockSizes, this`invalidations, this`estimatedBytes
      ensures Valid()
      ensures blocks == old(blocks).Delete(MakeKey(chain, index))
      ensures blocks.vals == old(blocks).vals - {chain + ":" + IntText(index)}
      ensures deleted <==> MakeKey(chain, index) in old(blocks).vals
      ensures invalidations == old(invalidations) + (if deleted then 1 else 0)
    {
      var key := MakeKey(chain, index);
      deleted := key in blocks.vals;
      InElems(blocks);
      if deleted {
        RemoveKey(key);
        invalidations := invalidations + 1;
      } else {
        DeleteAbsent(blocks, key);
      }
    }

    /** One key out of the list, its size out of the table and out of the estimate. */
    method RemoveKey(key: string)
      requires Balanced() && key in blocks.vals
      modifies this`blocks, this`blockSizes, this`estimatedBytes
      ensures Balanced() && blocks == old(blocks).Delete(key) && |blocks.keys| == |old(blocks).keys| - 1
    {
      DeleteSize(blocks, key);
      DeleteBalances(blocks, blockSizes, estimatedBytes, key);
      blocks := blocks.Delete(key);
      var oldSize := if key in blockSizes then blockSizes[key] else 0;
      blockSizes := blockSizes - {key};
      estimatedBytes := Max(0, estimatedBytes - oldSize);
    }

    method InvalidateChain(chain: string) returns (removed: nat)
      requires Valid()
      modifies this`blocks, this`blockSizes, this`invalidations, this`estimatedBytes
      ensures Valid()
      ensures blocks == Without(old(blocks), KeysUnder(old(blocks), ChainPrefix(chain)))
      // exactly the keys that begin with the name and a colon go, and the others keep their values and their order
      ensures LosesPrefix(old(blocks), blocks, chain + ":")
      ensures removed == |KeysUnder(old(blocks), ChainPrefix(chain))|
      ensures invalidations == old(invalidations) + (if removed > 0 then 1 else 0)
    {
      PrefixLost(blocks, chain + ":");
      hide LosesPrefix;
      var toRemove := KeysToRemove(ChainPrefix(chain));
      removed := RemoveAll(toRemove);
      if removed > 0 {
        invalidations := invalidations + 1;
      }
    }

    /** The second loop of an invalidation. */
    method RemoveAll(toRemove: seq<string>) returns (removed: nat)
      requires Balanced() && NoDup(toRemove) && Elems(toRemove) <= blocks.vals.Keys
      modifies this`blocks, this`blockSizes, this`estimatedBytes
      ensures Balanced() && blocks == Without(old(blocks), Elems(toRemove))
      ensures removed == |toRemove|
    {
      ghost var before := blocks;
      removed := 0;
      WithoutNothing(before);
      for i := 0 to |toRemove|
        invariant Balanced() && removed == i
        invariant blocks == Without(before, Elems(toRemove[..i]))
      {
        var key := toRemove[i];
        ElemsStep(toRemove, i);
        NotYet(toRemove, i);
        WithoutOneMore(before, Elems(toRemove[..i]), key);
        RemoveKey(key);
        removed := removed + 1;
      }
      assert toRemove[..|toRemove|] == toRemove;
    }

    /** The first loop of an invalidation. */
    method KeysToRemove(prefix: string) returns (toRemove: seq<string>)
      requires blocks.Valid()
      ensures NoDup(toRemove) && Elems(toRemove) == KeysUnder(blocks, prefix)
      ensures |toRemove| == |KeysUnder(blocks, prefix)|
    {
      toRemove := [];
      var keys := blocks.keys;
      for i := 0 to |keys|
        invariant toRemove == Filter(keys[..i], Under(prefix))
      {
        FilterStep(keys, i, Under(prefix));
        if StartsWith(keys[i], prefix) {
          toRemove := toRemove + [keys[i]];
        }
      }
      assert keys[..|keys|] == keys;
      FilterNoDup(keys, Under(prefix));
      InElems(blocks);
      assert Elems(toRemove) == KeysUnder(blocks, prefix);
      NoDupCard(toRemove);
    }

    method Clear()
      requires Valid()
      modifies this`blocks, this`blockSizes, this`invalidations, this`estimatedBytes
      ensures Valid() && blocks == Empty() && estimatedBytes == 0
      ensures invalidations == old(invalidations) + (if old(blocks).keys == [] then 0 else 1)
    {
      if |blocks.keys| > 0 {
        blocks := Empty();
        blockSizes := map[];
        estimatedBytes := 0;
        invalidations := invalidations + 1;
      } else {
        InElems(blocks);
        assert blocks.vals == map[];
      }
    }
  }

  function Under(prefix: string): string -> bool { (k: string) => StartsWith(k, prefix) }

  ghost predicate SizesRight<V>(vals: map<string, V>, sizes: map<string, nat>, printedLength: V -> nat)
    requires sizes.Keys == vals.Keys
  {
    forall k :: k in vals ==> sizes[k] == 2 * (|k| + printedLength(vals[k]))
  }

  lemma PutBack<V>(m: map<string, V>, k: string)
    requires k in m
    ensures (m - {k})[k := m[k]] == m
  {
  }

  ghost predicate BytesAddUp<V>(m: Recency<V>, sizes: map<string, nat>, bytes: int)
    requires m.Valid() && sizes.Keys == m.vals.Keys
  {
    InElems(m);
    bytes == SumOver(m.keys, sizes)
  }

  lemma DeleteBalances<V>(m: Recency<V>, sizes: map<string, nat>, bytes: int, k: string)
    requires m.Valid() && sizes.Keys == m.vals.Keys && k in m.vals && BytesAddUp(m, sizes, bytes)
    ensures bytes - sizes[k] >= 0
    ensures BytesAddUp(m.Delete(k), sizes - {k}, bytes - sizes[k])
  {
    InElems(m);
    InElems(m.Delete(k));
    SumWithout(m.keys, sizes, k);
    SumIgnores(Filter(m.keys, Except(k)), sizes, sizes - {k});
  }

  lemma FreshSetBalances<V>(m: Recency<V>, sizes: map<string, nat>, bytes: int, k: string, v: V, size: nat)
    requires m.Valid() && sizes.Keys == m.vals.Keys && k !in m.vals && BytesAddUp(m, sizes, bytes)
    ensures BytesAddUp(m.Set(k, v), sizes[k := size], bytes + size)
  {
    InElems(m);
    InElems(m.Set(k, v));
    assert m.Set(k, v).keys[..|m.keys|] == m.keys;
    SumIgnores(m.keys, sizes, sizes[k := size]);
  }

  lemma NotYet(s: seq<string>, i: nat)
    requires NoDup(s) && i < |s|
    ensures s[i] in Elems(s) && s[i] !in Elems(s[..i])
  {
  }

  /** Deleting a key that is not there changes nothing. */
  lemma DeleteAbsent<V>(m: Recency<V>, k: string)
    requires m.Valid() && k !in m.vals
    ensures m.Delete(k) == m
  {
    InElems(m);
    FilterAll(m.keys, Except(k));
    assert m.vals - {k} == m.vals;
  }

  lemma TouchBalances<V>(m: Recency<V>, sizes: map<string, nat>, bytes: int, k: string)
    requires m.Valid() && sizes.Keys == m.vals.Keys && k in m.vals && BytesAddUp(m, sizes, bytes)
    ensures Touch(m, k).vals == m.vals && |Touch(m, k).keys| == |m.keys|
    ensures BytesAddUp(Touch(m, k), sizes, bytes)
  {
    AppendShape(m, k, m.vals[k]);
    PutBack(m.vals, k);
    DeleteBalances(m, sizes, bytes, k);
    FreshSetBalances(m.Delete(k), sizes - {k}, bytes - sizes[k], k, m.vals[k], sizes[k]);
    PutBack(sizes, k);
  }

  lemma WithoutNothing<V>(m: Recency<V>)
    requires m.Valid()
    ensures Without(m, Elems([])) == m
  {
    FilterAll(m.keys, Outside(Elems([])));
    assert m.vals - Elems([]) == m.vals;
  }

  lemma WithoutOneMore<V>(m: Recency<V>, drop: set<string>, k: string)
    requires m.Valid() && k in m.vals && k !in drop
    ensures k in Without(m, drop).vals
    ensures Without(m, drop).Delete(k) == Without(m, drop + {k})
  {
    FilterTwice(m.keys, Outside(drop), Except(k));
    FilterAgree(m.keys, Both(Outside(drop), Except(k)), Outside(drop + {k}));
    assert (m.vals - drop) - {k} == m.vals - (drop + {k});
  }
}

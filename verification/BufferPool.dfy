/** The bucketed buffer pool: free lists by buffer length, byte counters, and who holds which buffer. */
module BufferPool {
  import opened Common
  import opened OrderedMaps
  import opened Sorting

  type Buffer = array<bv8>

  /** The free lists, by bucket size. */
  type FreeLists = OrderedMap<int, seq<Buffer>>

  function Bytes(list: seq<Buffer>): nat {
    if list == [] then 0 else Bytes(list[..|list| - 1]) + list[|list| - 1].Length
  }

  function Count(list: seq<Buffer>): nat { |list| }

  function Weights(vals: map<int, seq<Buffer>>, weight: seq<Buffer> -> nat): map<int, nat> {
    map k | k in vals :: weight(vals[k])
  }

  /** The sum of a weight over all free lists. */
  ghost function Pooled(m: FreeLists, weight: seq<Buffer> -> nat): nat
    requires m.Valid()
  {
    assert forall k :: k in m.keys <==> k in Elems(m.keys);
    SumOver(m.keys, Weights(m.vals, weight))
  }

  lemma ReplaceListMoves(m: FreeLists, k: int, list: seq<Buffer>, weight: seq<Buffer> -> nat)
    requires m.Valid() && k in m.vals
    ensures Pooled(m.Set(k, list), weight) + weight(m.vals[k]) == Pooled(m, weight) + weight(list)
  {
    assert k in Elems(m.keys);
    SumUpdate(m.keys, Weights(m.vals, weight), k, weight(list));
    assert Weights(m.vals[k := list], weight) == Weights(m.vals, weight)[k := weight(list)];
  }

  lemma NewListAdds(m: FreeLists, k: int, list: seq<Buffer>, weight: seq<Buffer> -> nat)
    requires m.Valid() && k !in m.vals
    ensures Pooled(m.Set(k, list), weight) == Pooled(m, weight) + weight(list)
  {
    assert k !in Elems(m.keys);
    var before, after := Weights(m.vals, weight), Weights(m.vals[k := list], weight);
    assert after == before[k := weight(list)];
    assert forall x :: x in m.keys ==> x in Elems(m.keys) && x != k;
    hide Weights;
    SumAppend(m.keys, before, k, weight(list));
  }

  lemma DeleteListRemoves(m: FreeLists, k: int, weight: seq<Buffer> -> nat)
    requires m.Valid() && k in m.vals
    ensures Pooled(m.Delete(k), weight) + weight(m.vals[k]) == Pooled(m, weight)
  {
    assert k in Elems(m.keys);
    SumWithout(m.keys, Weights(m.vals, weight), k);
    assert forall x :: x in Filter(m.keys, Except(k)) ==> x in Elems(m.keys);
    SumIgnores(Filter(m.keys, Except(k)), Weights(m.vals, weight), Weights(m.vals - {k}, weight));
  }

  /** `k`'s list, where a missing list reads as an empty one. */
  function ListAt(vals: map<int, seq<Buffer>>, k: int): seq<Buffer> { if k in vals then vals[k] else [] }

  lemma PushAdds(m: FreeLists, b: Buffer)
    requires m.Valid()
    ensures Pooled(m.Set(b.Length, ListAt(m.vals, b.Length) + [b]), Bytes) == Pooled(m, Bytes) + b.Length
    ensures Pooled(m.Set(b.Length, ListAt(m.vals, b.Length) + [b]), Count) == Pooled(m, Count) + 1
  {
    var k := b.Length;
    var list := ListAt(m.vals, k) + [b];
    assert list[..|list| - 1] == ListAt(m.vals, k);
    if k in m.vals {
      ReplaceListMoves(m, k, list, Bytes);
      ReplaceListMoves(m, k, list, Count);
    } else {
      NewListAdds(m, k, list, Bytes);
      NewListAdds(m, k, list, Count);
    }
  }

  lemma PopRemoves(m: FreeLists, k: int)
    requires m.Valid() && k in m.vals && m.vals[k] != []
    ensures var list := m.vals[k];
            && Pooled(m.Set(k, list[..|list| - 1]), Bytes) + list[|list| - 1].Length == Pooled(m, Bytes)
            && Pooled(m.Set(k, list[..|list| - 1]), Count) + 1 == Pooled(m, Count)
  {
    var list := m.vals[k];
    ReplaceListMoves(m, k, list[..|list| - 1], Bytes);
    ReplaceListMoves(m, k, list[..|list| - 1], Count);
  }

  /** Every pooled buffer sits in the list of its own length. */
  ghost predicate Filed(vals: map<int, seq<Buffer>>, perBucket: int) {
    forall k :: k in vals ==> |vals[k]| <= perBucket && forall i :: 0 <= i < |vals[k]| ==> vals[k][i].Length == k
  }

  /** The free lists are well formed and hold `count` buffers of `bytes` bytes altogether. */
  ghost predicate PoolOk(m: FreeLists, perBucket: int, bytes: int, count: int) {
    && m.Valid()
    && Filed(m.vals, perBucket)
    && bytes == Pooled(m, Bytes)
    && count == Pooled(m, Count)
  }

  lemma PopOk(m: FreeLists, perBucket: int, bytes: int, count: int, k: int)
    requires PoolOk(m, perBucket, bytes, count) && k in m.vals && m.vals[k] != []
    ensures 0 <= k <= bytes && m.vals[k][|m.vals[k]| - 1].Length == k
    ensures PoolOk(m.Set(k, m.vals[k][..|m.vals[k]| - 1]), perBucket, bytes - k, count - 1)
  {
    PopRemoves(m, k);
  }

  lemma PushOk(m: FreeLists, perBucket: int, bytes: int, count: int, b: Buffer)
    requires PoolOk(m, perBucket, bytes, count) && |ListAt(m.vals, b.Length)| < perBucket
    ensures PoolOk(m.Set(b.Length, ListAt(m.vals, b.Length) + [b]), perBucket, bytes + b.Length, count + 1)
  {
    PushAdds(m, b);
    PushFiled(m.vals, perBucket, b);
  }

  lemma PushFiled(vals: map<int, seq<Buffer>>, perBucket: int, b: Buffer)
    requires Filed(vals, perBucket) && |ListAt(vals, b.Length)| < perBucket
    ensures Filed(vals[b.Length := ListAt(vals, b.Length) + [b]], perBucket)
  {
  }

  lemma DropEmptyOk(m: FreeLists, perBucket: int, bytes: int, count: int, k: int)
    requires PoolOk(m, perBucket, bytes, count) && k in m.vals && m.vals[k] == []
    ensures PoolOk(m.Delete(k), perBucket, bytes, count)
  {
    DeleteListRemoves(m, k, Bytes);
    DeleteListRemoves(m, k, Count);
  }

  ghost predicate InPool(vals: map<int, seq<Buffer>>, b: Buffer) { b in ListAt(vals, b.Length) }

  /** No buffer is pooled twice, and none is pooled while somebody holds it. */
  ghost predicate NoSharing(vals: map<int, seq<Buffer>>, lent: set<Buffer>) {
    forall k :: k in vals ==> NoDup(vals[k]) && forall b :: b in vals[k] ==> b !in lent
  }

  ghost function SetBytes(s: set<Buffer>): nat {
    if s == {} then 0 else var b :| b in s; b.Length + SetBytes(s - {b})
  }

  lemma {:induction false} SetBytesWithout(s: set<Buffer>, b: Buffer)
    requires b in s
    ensures SetBytes(s) == b.Length + SetBytes(s - {b})
  {
    var c :| c in s && SetBytes(s) == c.Length + SetBytes(s - {c});
    if c != b {
      SetBytesWithout(s - {c}, b);
      SetBytesWithout(s - {b}, c);
      assert s - {c} - {b} == s - {b} - {c};
    }
  }

  /** The bucket for `size`: the smallest configured size that fits, or `size` itself when none does. */
  ghost predicate BestFit(sizes: seq<int>, size: int, bucket: int) {
    if exists s :: s in sizes && s >= size
    then bucket in sizes && bucket >= size && forall s :: s in sizes && s >= size ==> bucket <= s
    else bucket == size
  }

  predicate Positive(n: int) { n > 0 }

  predicate AtMost(a: int, b: int) { a <= b }

  predicate AtLeast(a: int, b: int) { a >= b }

  /** What a trim towards `target` leaves of `before`. */
  ghost predicate TrimmedTo(before: map<int, seq<Buffer>>, after: map<int, seq<Buffer>>, pooled: int, target: int) {
    // every list keeps its oldest buffers
    && after.Keys <= before.Keys && (forall k :: k in after ==> after[k] <= before[k])
    // a list is touched only once all larger ones are gone
    && (forall j, k :: j in before && k in before && j < k && Touched(before, after, j) ==> k !in after)
    // and not one buffer more than needed is dropped
    && (forall k :: k in before && Shortened(before, after, k)
                    && (forall j :: j in before && j < k ==> !Shortened(before, after, j))
          ==> pooled + k > target)
  }

  ghost predicate Touched(before: map<int, seq<Buffer>>, after: map<int, seq<Buffer>>, k: int)
    requires k in before
  {
    k !in after || after[k] != before[k]
  }

  ghost predicate Shortened(before: map<int, seq<Buffer>>, after: map<int, seq<Buffer>>, k: int) {
    |ListAt(after, k)| < |ListAt(before, k)|
  }

  lemma Bracketed(sizes: seq<int>, size: int, lo: nat)
    requires SortedBy(sizes, AtMost) && lo <= |sizes|
    requires forall i :: 0 <= i < lo ==> sizes[i] < size
    requires lo < |sizes| ==> sizes[lo] >= size
    ensures BestFit(sizes, size, if lo < |sizes| then sizes[lo] else size)
  {
    forall s | s in sizes && s >= size ensures lo < |sizes| && sizes[lo] <= s {
      var i :| 0 <= i < |sizes| && sizes[i] == s;
      assert i == lo || AtMost(sizes[lo], sizes[i]);
    }
    if lo < |sizes| { assert sizes[lo] in sizes; }
  }

  lemma EmptyIsOk()
    ensures forall perBucket :: PoolOk(Empty(), perBucket, 0, 0)
  {
  }

  /** The sizes a pool works with: the positive ones among those configured, in order. */
  lemma ListedSizes(sizes: seq<int>)
    ensures SortedBy(Sort(Filter(sizes, Positive), AtMost), AtMost)
    ensures forall s :: s in Sort(Filter(sizes, Positive), AtMost) <==> s in sizes && s > 0
  {
    hide Sort, Filter;
    SortSorts(Filter(sizes, Positive), AtMost);
  }

  lemma ListedAsTheyAre(sizes: seq<int>)
    requires (forall i :: 0 <= i < |sizes| - 1 ==> 0 < sizes[i] <= sizes[i + 1]) && (sizes != [] ==> sizes[0] > 0)
    ensures Sort(Filter(sizes, Positive), AtMost) == sizes
  {
    hide Sort, Filter;
    StepwiseSorted(sizes, |sizes|);
    FilterAll(sizes, Positive);
    SortedIsFixed(sizes, AtMost);
  }

  function DefaultSizes(): seq<int> { [256, 512, 1024, 4096, 16384, 65536, 262144] }

  lemma DefaultSizesAre()
    ensures |DefaultSizes()| == 7
    ensures forall s :: s in DefaultSizes() <==>
              s == 256 || s == 512 || s == 1024 || s == 4096 || s == 16384 || s == 65536 || s == 262144
    ensures forall i :: 0 <= i < 6 ==> 0 < DefaultSizes()[i] <= DefaultSizes()[i + 1]
  {
  }

  lemma DefaultSizesAreListed()
    ensures Sort(Filter(DefaultSizes(), Positive), AtMost) == DefaultSizes()
  {
    DefaultSizesAre();
    hide DefaultSizes, Sort, Filter;
    ListedAsTheyAre(DefaultSizes());
  }

  lemma {:induction false} StepwiseSorted(sizes: seq<int>, n: nat)
    requires n <= |sizes| && (forall i :: 0 <= i < n - 1 ==> 0 < sizes[i] <= sizes[i + 1]) && (n > 0 ==> sizes[0] > 0)
    ensures forall i, j :: 0 <= i <= j < n ==> 0 < sizes[i] <= sizes[j]
  {
    if n > 1 {
      StepwiseSorted(sizes, n - 1);
      assert 0 < sizes[n - 2] <= sizes[n - 2 + 1];
    }
  }

  class BufferPool {
    const maxBytes: int
    const bucketSizes: seq<int>
    const maxBuffersPerBucket: int
    var buckets: FreeLists
    var usedBytes: int
    var pooledBytes: int
    var allocCount: nat
    var reuseCount: nat
    var releaseCount: nat
    var misses: nat
    /** The buffers handed out and not given back since. */
    ghost var lent: set<Buffer>
    ghost var trimmed: nat

    ghost predicate Valid()
      reads this
    {
      Consistent(0)
    }

    /** The books are right, with `inFlight` releases counted but not yet carried out:
        what was given back and kept was handed out again, trimmed away, or is still here. */
    ghost predicate Consistent(inFlight: int)
      reads this
    {
      && maxBytes >= 1024 && maxBuffersPerBucket >= 1
      && SortedBy(bucketSizes, AtMost) && (forall s :: s in bucketSizes ==> s > 0)
      && buckets.Valid()
      && PoolOk(buckets, maxBuffersPerBucket, pooledBytes, releaseCount - inFlight - misses - reuseCount - trimmed)
      && pooledBytes <= maxBytes && usedBytes >= 0
    }

    /** The used bytes are those of the buffers that are out. */
    ghost predicate Accounted()
      reads this
    {
      usedBytes == SetBytes(lent)
    }

    constructor (maxBytes: Option<int>, bucketSizes: Option<seq<int>>, maxBuffersPerBucket: Option<int>)
      ensures Valid() && Accounted() && NoSharing(buckets.vals, lent) && buckets == Empty() && lent == {}
      ensures this.maxBytes == Max(1024, if maxBytes.Some? then maxBytes.value else 4 * 1024 * 1024)
      ensures this.maxBuffersPerBucket == Max(1, if maxBuffersPerBucket.Some? then maxBuffersPerBucket.value else 64)
      ensures bucketSizes.None? ==> |this.bucketSizes| == 7 && forall s :: s in this.bucketSizes <==>
                s == 256 || s == 512 || s == 1024 || s == 4096 || s == 16384 || s == 65536 || s == 262144
      ensures bucketSizes.Some? ==> forall s :: s in this.bucketSizes <==> s in bucketSizes.value && s > 0
    {
      hide Sort, Filter, DefaultSizes;
      this.maxBytes := Max(1024, if maxBytes.Some? then maxBytes.value else 4 * 1024 * 1024);
      var sizes := if bucketSizes.Some? then bucketSizes.value else DefaultSizes();
      this.bucketSizes := Sort(Filter(sizes, Positive), AtMost);
      this.maxBuffersPerBucket := Max(1, if maxBuffersPerBucket.Some? then maxBuffersPerBucket.value else 64);
      buckets := Empty();
      usedBytes, pooledBytes, allocCount, reuseCount, releaseCount, misses := 0, 0, 0, 0, 0, 0;
      lent, trimmed := {}, 0;
      ListedSizes(sizes);
      DefaultSizesAre();
      DefaultSizesAreListed();
      EmptyIsOk();
    }

    method BucketFor(size: int) returns (bucket: int)
      requires SortedBy(bucketSizes, AtMost) && forall s :: s in bucketSizes ==> s > 0
      ensures BestFit(bucketSizes, size, bucket)
    {
      var lo, hi, best := 0, |bucketSizes| - 1, -1;
      while lo <= hi
        invariant 0 <= lo <= hi + 1 <= |bucketSizes|
        invariant forall i :: 0 <= i < lo ==> bucketSizes[i] < size
        invariant forall i :: hi < i < |bucketSizes| ==> best <= bucketSizes[i]
        invariant if hi + 1 < |bucketSizes| then best == bucketSizes[hi + 1] >= size else best == -1
      {
        var mid := (lo + hi) / 2;
        var candidate := bucketSizes[mid];
        if candidate >= size {
          best := candidate;
          hi := mid - 1;
        } else {
          lo := mid + 1;
        }
      }
      Bracketed(bucketSizes, size, lo);
      bucket := if best > 0 then best else size;
    }

    method Acquire(size: int) returns (buffer: Buffer)
      requires Valid()
      modifies this`buckets, this`usedBytes, this`pooledBytes, this`allocCount, this`reuseCount, this`lent
      ensures Valid()
      ensures BestFit(bucketSizes, Max(1, size), buffer.Length) && buffer.Length >= Max(1, size)
      ensures var list := ListAt(old(buckets.vals), buffer.Length);
              if list == []
              then fresh(buffer) && buckets == old(buckets) && reuseCount == old(reuseCount)
                  && pooledBytes == old(pooledBytes)
              else buffer == list[|list| - 1] && buckets == old(buckets).Set(buffer.Length, list[..|list| - 1])
                   && pooledBytes == old(pooledBytes) - buffer.Length
      ensures allocCount + reuseCount == old(allocCount + reuseCount) + 1
      ensures usedBytes == old(usedBytes) + buffer.Length && lent == old(lent) + {buffer}
      ensures old(NoSharing(buckets.vals, lent)) ==> NoSharing(buckets.vals, lent) && buffer !in old(lent)
      ensures old(NoSharing(buckets.vals, lent) && Accounted()) ==> Accounted()
    {
      hide PoolOk, NoSharing, BestFit, Filed, InPool;
      PoolOkFiled(buckets, maxBuffersPerBucket, pooledBytes, releaseCount - misses - reuseCount - trimmed);
      var bucket := BucketFor(Max(1, size));
      if bucket in buckets.vals && |buckets.vals[bucket]| > 0 {
        if NoSharing(buckets.vals, lent) { PopSharing(buckets.vals, lent, bucket, maxBuffersPerBucket); }
        buffer := Pop(bucket);
        usedBytes := usedBytes + buffer.Length;
      } else {
        allocCount := allocCount + 1;
        usedBytes := usedBytes + bucket;
        buffer := new bv8[bucket];
        NotInEmpty(buckets.vals, buffer);
        if NoSharing(buckets.vals, lent) { LendSharing(buckets.vals, lent, buffer, maxBuffersPerBucket); }
      }
      if buffer !in lent { LendingAdds(lent, buffer); }
      lent := lent + {buffer};
    }

    /** The youngest buffer of a bucket leaves the pool. */
    method Pop(bucket: int) returns (buffer: Buffer)
      requires Valid() && bucket in buckets.vals && buckets.vals[bucket] != []
      modifies this`buckets, this`pooledBytes, this`reuseCount
      ensures Valid() && reuseCount == old(reuseCount) + 1
      ensures var list := old(buckets.vals[bucket]);
              && buffer == list[|list| - 1] && buffer.Length == bucket
              && buckets == old(buckets).Set(bucket, list[..|list| - 1]) && pooledBytes == old(pooledBytes) - bucket
    {
      hide PoolOk;
      var list := buckets.vals[bucket];
      buffer := list[|list| - 1];
      PopOk(buckets, maxBuffersPerBucket, pooledBytes, releaseCount - misses - reuseCount - trimmed, bucket);
      buckets := buckets.Set(bucket, list[..|list| - 1]);
      pooledBytes := Max(0, pooledBytes - buffer.Length);
      reuseCount := reuseCount + 1;
    }

    method Release(buffer: Buffer)
      requires Valid()
      modifies this`buckets, this`usedBytes, this`pooledBytes, this`releaseCount, this`misses, this`lent, buffer
      ensures Valid()
      ensures lent == old(lent) - {buffer} && usedBytes == Max(0, old(usedBytes) - buffer.Length)
      ensures releaseCount == old(releaseCount) + 1 && old(misses) <= misses <= old(misses) + 1
      ensures var list := ListAt(old(buckets.vals), buffer.Length);
              var kept := old(pooledBytes) + buffer.Length <= maxBytes && |list| < maxBuffersPerBucket;
              && buckets == (if kept then old(buckets).Set(buffer.Length, list + [buffer]) else old(buckets))
              && pooledBytes == old(pooledBytes) + (if kept then buffer.Length else 0)
              && misses == old(misses) + (if kept then 0 else 1)
              && forall i :: 0 <= i < buffer.Length ==> buffer[i] == if kept && i < 64 then 0 else old(buffer[i])
      // the books stay right exactly when the buffer was out, or when there was nothing to subtract or to subtract from
      ensures old(Accounted()) ==> (Accounted() <==> buffer in old(lent) || buffer.Length == 0 || old(usedBytes) == 0)
      // and nothing is shared exactly when the buffer was not pooled already, or is not taken back
      ensures old(NoSharing(buckets.vals, lent)) ==>
                (NoSharing(buckets.vals, lent) <==> !old(InPool(buckets.vals, buffer)) || misses > old(misses))
    {
      hide PoolOk, NoSharing, InPool;
      var bucket := buffer.Length;
      releaseCount := releaseCount + 1;
      usedBytes := Max(0, usedBytes - bucket);
      ReturningTakes(lent, buffer);
      if NoSharing(buckets.vals, lent) { StillApart(buckets.vals, lent, buffer); }
      lent := lent - {buffer};

      if pooledBytes + bucket > maxBytes {
        misses := misses + 1;
        return;
      }

      if |ListAt(buckets.vals, bucket)| >= maxBuffersPerBucket {
        misses := misses + 1;
        return;
      }

      Keep(buffer);
    }

    /** A buffer that is taken back: its first bytes are cleared and it becomes the youngest of its bucket. */
    method Keep(buffer: Buffer)
      requires Consistent(1) && buffer !in lent
      requires pooledBytes + buffer.Length <= maxBytes && |ListAt(buckets.vals, buffer.Length)| < maxBuffersPerBucket
      modifies this`buckets, this`pooledBytes, buffer
      ensures Valid()
      ensures buckets == old(buckets).Set(buffer.Length, ListAt(old(buckets.vals), buffer.Length) + [buffer])
      ensures pooledBytes == old(pooledBytes) + buffer.Length
      ensures forall i :: 0 <= i < buffer.Length ==> buffer[i] == if i < 64 then 0 else old(buffer[i])
      ensures old(NoSharing(buckets.vals, lent)) ==>
                (NoSharing(buckets.vals, lent) <==> !old(InPool(buckets.vals, buffer)))
    {
      hide PoolOk, NoSharing, Filed, InPool;
      PoolOkFiled(buckets, maxBuffersPerBucket, pooledBytes, releaseCount - 1 - misses - reuseCount - trimmed);
      ZeroPrefix(buffer, Min(64, buffer.Length));
      if NoSharing(buckets.vals, lent) { PushSharing(buckets.vals, lent, buffer, maxBuffersPerBucket); }
      PushOk(buckets, maxBuffersPerBucket, pooledBytes, releaseCount - 1 - misses - reuseCount - trimmed, buffer);
      buckets := buckets.Set(buffer.Length, ListAt(buckets.vals, buffer.Length) + [buffer]);
      pooledBytes := pooledBytes + buffer.Length;
      // the bound was checked before, so the trim that would follow an overflow is never reached
      if pooledBytes > maxBytes {
        assert false;
      }
    }

    /** Drops every pooled buffer that the target has no room for, the largest first. */
    method Trim(targetBytes: int)
      requires Valid()
      modifies this`buckets, this`pooledBytes, this`trimmed
      ensures Valid()
      ensures TrimmedTo(old(buckets.vals), buckets.vals, pooledBytes, targetBytes)
      ensures pooledBytes <= Max(0, targetBytes)
      ensures old(pooledBytes) <= targetBytes ==> buckets == old(buckets)
      ensures old(NoSharing(buckets.vals, lent)) ==> NoSharing(buckets.vals, lent)
    {
      hide PoolOk, NoSharing, TrimmedTo;
      TrimNothing(buckets.vals, pooledBytes, targetBytes);
      if pooledBytes <= targetBytes { return; }
      var bucketsDesc := Sort(buckets.keys, AtLeast);
      SortSorts(buckets.keys, AtLeast);
      SortNoDup(buckets.keys, AtLeast);
      assert Elems(bucketsDesc) == Elems(buckets.keys);
      ghost var before := buckets.vals;
      TrimAlong(bucketsDesc, targetBytes);
      if NoSharing(before, lent) { TrimSharing(before, buckets.vals, pooledBytes, targetBytes, lent); }
    }

    /** The loop of a trim. */
    method TrimAlong(bucketsDesc: seq<int>, targetBytes: int)
      requires Valid() && pooledBytes > targetBytes
      requires NoDup(bucketsDesc) && SortedBy(bucketsDesc, AtLeast) && Elems(bucketsDesc) == buckets.vals.Keys
      modifies this`buckets, this`pooledBytes, this`trimmed
      ensures Valid()
      ensures TrimmedTo(old(buckets.vals), buckets.vals, pooledBytes, targetBytes)
      ensures pooledBytes <= Max(0, targetBytes)
    {
      hide PoolOk, TrimmedTo, Drained, Filed, Rest, SortedBy, NoDup;
      ghost var before := buckets.vals;
      RestOfAll(before, bucketsDesc);
      PoolOkFiled(buckets, maxBuffersPerBucket, pooledBytes, releaseCount - misses - reuseCount - trimmed);
      var i := 0;
      while i < |bucketsDesc|
        invariant i <= |bucketsDesc|
        invariant Valid() && pooledBytes > targetBytes
        invariant buckets.vals == Rest(before, bucketsDesc, i)
      {
        var bucketSize := bucketsDesc[i];
        NextKey(before, bucketsDesc, i);
        ghost var left := TrimBucket(bucketSize, targetBytes);
        if pooledBytes <= targetBytes {
          TrimStops(before, bucketsDesc, i, left, buckets.vals, pooledBytes, targetBytes);
          break;
        }
        i := i + 1;
      }
      if i == |bucketsDesc| {
        AllGone(before, bucketsDesc, buckets.vals, pooledBytes, targetBytes, maxBuffersPerBucket);
        NothingPooled(buckets, maxBuffersPerBucket, pooledBytes, releaseCount - misses - reuseCount - trimmed);
      }
    }

    /** One round of a trim. */
    method TrimBucket(bucketSize: int, targetBytes: int) returns (ghost left: seq<Buffer>)
      requires Valid() && bucketSize in buckets.vals && pooledBytes > targetBytes
      modifies this`buckets, this`pooledBytes, this`trimmed
      ensures Valid()
      ensures Drained(old(buckets.vals[bucketSize]), left, bucketSize, pooledBytes, targetBytes)
      ensures buckets.vals == if left == [] then old(buckets.vals) - {bucketSize}
          else old(buckets.vals)[bucketSize := left]
      ensures if pooledBytes > targetBytes then left == [] else |left| < |old(buckets.vals[bucketSize])|
    {
      hide PoolOk;
      DrainBucket(bucketSize, targetBytes);
      left := buckets.vals[bucketSize];
      if |buckets.vals[bucketSize]| == 0 {
        DropEmptyOk(buckets, maxBuffersPerBucket, pooledBytes, releaseCount - misses - reuseCount - trimmed,
            bucketSize);
        buckets := buckets.Delete(bucketSize);
      }
    }

    method DrainBucket(bucketSize: int, targetBytes: int)
      requires Valid() && bucketSize in buckets.vals
      modifies this`buckets, this`pooledBytes, this`trimmed
      ensures Valid() && bucketSize in buckets.vals
      ensures buckets.vals == old(buckets.vals)[bucketSize := buckets.vals[bucketSize]]
      ensures Drained(old(buckets.vals[bucketSize]), buckets.vals[bucketSize], bucketSize, pooledBytes, targetBytes)
      ensures buckets.vals[bucketSize] == old(buckets.vals[bucketSize]) ==> pooledBytes == old(pooledBytes)
    {
      hide PoolOk;
      while |buckets.vals[bucketSize]| > 0 && pooledBytes > targetBytes
        invariant Valid() && bucketSize in buckets.vals
        invariant buckets.vals == old(buckets.vals)[bucketSize := buckets.vals[bucketSize]]
        invariant buckets.vals[bucketSize] <= old(buckets.vals[bucketSize])
        invariant |buckets.vals[bucketSize]| < |old(buckets.vals[bucketSize])| ==>
            pooledBytes + bucketSize > targetBytes
        invariant buckets.vals[bucketSize] == old(buckets.vals[bucketSize]) ==> pooledBytes == old(pooledBytes)
        decreases |buckets.vals[bucketSize]|
      {
        var list := buckets.vals[bucketSize];
        PopOk(buckets, maxBuffersPerBucket, pooledBytes, releaseCount - misses - reuseCount - trimmed, bucketSize);
        buckets := buckets.Set(bucketSize, list[..|list| - 1]);
        pooledBytes := Max(0, pooledBytes - bucketSize);
        trimmed := trimmed + 1;
      }
    }
  }

  /** What draining one list leaves of it: an older part, all gone unless the target is met, and no more gone than
      needed. */
  ghost predicate Drained(list: seq<Buffer>, left: seq<Buffer>, size: int, pooled: int, target: int) {
    && left <= list
    && (left == [] || pooled <= target)
    && (|left| < |list| ==> pooled + size > target)
  }

  /** The lists still there when the first `i` are gone. */
  function Rest(before: map<int, seq<Buffer>>, keys: seq<int>, i: nat): map<int, seq<Buffer>>
    requires i <= |keys|
  {
    before - Elems(keys[..i])
  }

  lemma RestOfAll(before: map<int, seq<Buffer>>, keys: seq<int>)
    ensures Rest(before, keys, 0) == before
  {
  }

  lemma NextKey(before: map<int, seq<Buffer>>, keys: seq<int>, i: nat)
    requires NoDup(keys) && Elems(keys) == before.Keys && i < |keys|
    ensures keys[i] in before && keys[i] in Rest(before, keys, i) && Rest(before, keys, i)[keys[i]] == before[keys[i]]
    ensures Rest(before, keys, i + 1) == Rest(before, keys, i) - {keys[i]}
  {
    assert keys[i] in Elems(keys);
    ElemsStep(keys, i);
  }

  lemma TrimNothing(vals: map<int, seq<Buffer>>, pooled: int, target: int)
    ensures TrimmedTo(vals, vals, pooled, target)
  {
  }

  lemma AllGone(before: map<int, seq<Buffer>>, keys: seq<int>, after: map<int, seq<Buffer>>, pooled: int, target: int,
                perBucket: int)
    requires Filed(before, perBucket) && pooled > target
    requires Elems(keys) == before.Keys && after == Rest(before, keys, |keys|)
    ensures after == map[] && TrimmedTo(before, after, pooled, target)
  {
    assert keys[..|keys|] == keys;
    forall k | k in before && Shortened(before, after, k) ensures k >= 0 {
      assert before[k][0].Length == k;
    }
  }

  lemma NothingPooled(m: FreeLists, perBucket: int, bytes: int, count: int)
    requires PoolOk(m, perBucket, bytes, count) && m.vals == map[]
    ensures bytes == 0
  {
    KeyCount(m);
  }

  lemma TrimStops(before: map<int, seq<Buffer>>, keys: seq<int>, i: nat, left: seq<Buffer>,
                  after: map<int, seq<Buffer>>, pooled: int, target: int)
    requires NoDup(keys) && SortedBy(keys, AtLeast) && Elems(keys) == before.Keys && i < |keys| && keys[i] in before
    requires Drained(before[keys[i]], left, keys[i], pooled, target) && |left| < |before[keys[i]]|
    requires after == if left == [] then Rest(before, keys, i + 1) else Rest(before, keys, i)[keys[i] := left]
    ensures TrimmedTo(before, after, pooled, target)
  {
    var last := keys[i];
    ElemsStep(keys, i);
    forall k | k in before ensures k > last <==> k in Elems(keys[..i]) {
      var n :| 0 <= n < |keys| && keys[n] == k;
    }
    assert Shortened(before, after, last);
  }

  lemma TrimSharing(before: map<int, seq<Buffer>>, after: map<int, seq<Buffer>>, pooled: int, target: int,
                    lent: set<Buffer>)
    requires TrimmedTo(before, after, pooled, target) && NoSharing(before, lent)
    ensures NoSharing(after, lent)
  {
    forall k | k in after ensures NoDup(after[k]) && forall b :: b in after[k] ==> b !in lent {
      assert after[k] <= before[k];
    }
  }

  method ZeroPrefix(buffer: Buffer, n: nat)
    requires n <= buffer.Length
    modifies buffer
    ensures forall i :: 0 <= i < buffer.Length ==> buffer[i] == if i < n then 0 else old(buffer[i])
  {
    for i := 0 to n
      invariant forall j :: 0 <= j < buffer.Length ==> buffer[j] == if j < i then 0 else old(buffer[j])
    {
      buffer[i] := 0;
    }
  }

  /** A buffer nobody holds comes back: nothing is shared exactly if it was not here already. */
  lemma PushSharing(vals: map<int, seq<Buffer>>, lent: set<Buffer>, b: Buffer, perBucket: int)
    requires Filed(vals, perBucket) && b !in lent && NoSharing(vals, lent)
    ensures NoSharing(vals[b.Length := ListAt(vals, b.Length) + [b]], lent) <==> !InPool(vals, b)
  {
    var list := ListAt(vals, b.Length);
    var after := vals[b.Length := list + [b]];
    assert after[b.Length][|list|] == b;
    if InPool(vals, b) {
      var i :| 0 <= i < |list| && list[i] == b;
      assert after[b.Length][i] == b;
    }
  }

  lemma PopSharing(vals: map<int, seq<Buffer>>, lent: set<Buffer>, k: int, perBucket: int)
    requires Filed(vals, perBucket) && k in vals && vals[k] != [] && NoSharing(vals, lent)
    ensures var b := vals[k][|vals[k]| - 1];
            b !in lent && NoSharing(vals[k := vals[k][..|vals[k]| - 1]], lent + {b})
  {
    var list := vals[k];
    var b := list[|list| - 1];
    assert b in list;
    forall j, c | j in vals && c in vals[j] && (j == k ==> c in list[..|list| - 1]) ensures c != b {
      assert c.Length == j;
    }
  }

  /** A buffer that is not pooled can be handed out. */
  lemma LendSharing(vals: map<int, seq<Buffer>>, lent: set<Buffer>, b: Buffer, perBucket: int)
    requires Filed(vals, perBucket) && NoSharing(vals, lent) && !InPool(vals, b)
    ensures NoSharing(vals, lent + {b})
  {
    forall k, c | k in vals && c in vals[k] ensures c != b {
      assert c.Length == k;
    }
  }

  lemma NotInEmpty(vals: map<int, seq<Buffer>>, b: Buffer)
    requires ListAt(vals, b.Length) == []
    ensures !InPool(vals, b)
  {
  }

  lemma PoolOkFiled(m: FreeLists, perBucket: int, bytes: int, count: int)
    requires PoolOk(m, perBucket, bytes, count)
    ensures Filed(m.vals, perBucket)
  {
  }

  /** Taking a buffer out of the set of those that are out cannot create sharing. */
  lemma StillApart(vals: map<int, seq<Buffer>>, lent: set<Buffer>, b: Buffer)
    requires NoSharing(vals, lent)
    ensures NoSharing(vals, lent - {b})
  {
  }

  lemma LendingAdds(lent: set<Buffer>, b: Buffer)
    requires b !in lent
    ensures SetBytes(lent + {b}) == SetBytes(lent) + b.Length
  {
    SetBytesWithout(lent + {b}, b);
    assert lent + {b} - {b} == lent;
  }

  lemma ReturningTakes(lent: set<Buffer>, b: Buffer)
    ensures SetBytes(lent - {b}) == SetBytes(lent) - (if b in lent then b.Length else 0)
  {
    if b in lent { SetBytesWithout(lent, b); } else { assert lent - {b} == lent; }
  }
}

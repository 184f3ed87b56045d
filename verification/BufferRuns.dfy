/** Whole runs of a buffer pool whose callers give every buffer back at most once. */
module BufferRuns {
  import opened Common
  import opened OrderedMaps
  import opened BufferPool

  /** A caller releases one of the buffers it holds, by position. */
  datatype Op = AcquireOp(size: int) | ReleaseOp(at: nat) | TrimOp(target: int)

  function Dropped<T>(s: seq<T>, at: nat): seq<T>
    requires at < |s|
  {
    s[..at] + s[at + 1..]
  }

  /** How many buffers a run acquires. */
  function Acquires(ops: seq<Op>): nat {
    if ops == [] then 0
    else Acquires(ops[..|ops| - 1]) + (if ops[|ops| - 1].AcquireOp? then 1 else 0)
  }

  /** What a caller holds after a run in which the pool handed out these buffers, in this order. */
  function Holding<T>(ops: seq<Op>, handed: seq<T>): (held: seq<T>)
    requires |handed| >= Acquires(ops)
  {
    if ops == [] then []
    else
      var front := ops[..|ops| - 1];
      var before := Holding(front, handed);
      match ops[|ops| - 1]
      case AcquireOp(_) => before + [handed[Acquires(front)]]
      case ReleaseOp(at) => if at < |before| then Dropped(before, at) else before
      case TrimOp(_) => before
  }

  /** Later acquires do not change what was held before. */
  lemma {:induction false} HoldingIgnores<T>(ops: seq<Op>, handed: seq<T>, more: T)
    requires |handed| >= Acquires(ops)
    ensures Holding(ops, handed + [more]) == Holding(ops, handed)
  {
    if ops != [] { HoldingIgnores(ops[..|ops| - 1], handed, more); }
  }

  lemma DroppedElems<T>(s: seq<T>, at: nat)
    requires NoDup(s) && at < |s|
    ensures NoDup(Dropped(s, at)) && Elems(Dropped(s, at)) == Elems(s) - {s[at]}
  {
    var r := Dropped(s, at);
    assert forall i :: 0 <= i < |r| ==> r[i] == if i < at then s[i] else s[i + 1];
    forall x | x in s && x != s[at] ensures x in r {
      var i :| 0 <= i < |s| && s[i] == x;
      assert r[if i < at then i else i - 1] == x;
    }
  }

  lemma {:induction false} BytesOfDistinct(list: seq<Buffer>)
    requires NoDup(list)
    ensures SetBytes(Elems(list)) == Bytes(list)
  {
    if list != [] {
      var front, last := list[..|list| - 1], list[|list| - 1];
      BytesOfDistinct(front);
      assert last !in front;
      assert Elems(list) == Elems(front) + {last};
      LendingAdds(Elems(front), last);
    }
  }

  ghost predicate Within(vals: map<int, seq<Buffer>>, known: set<Buffer>) {
    forall k, b :: k in vals && b in vals[k] ==> b in known
  }

  lemma TrimStaysWithin(before: map<int, seq<Buffer>>, after: map<int, seq<Buffer>>, pooled: int, target: int,
                        known: set<Buffer>)
    requires TrimmedTo(before, after, pooled, target) && Within(before, known)
    ensures Within(after, known)
  {
    forall k, b | k in after && b in after[k] ensures b in known {
      assert after[k] <= before[k];
    }
  }

  /** The pool lends exactly what the caller holds, and knows no buffers but its own. */
  ghost predicate Orderly(pool: BufferPool, held: seq<Buffer>, known: set<Buffer>)
    reads pool
  {
    && pool.Valid() && pool.Accounted() && NoSharing(pool.buckets.vals, pool.lent)
    && NoDup(held) && Elems(held) == pool.lent && pool.lent <= known
    && Within(pool.buckets.vals, known)
  }

  method Acquire(pool: BufferPool, size: int, held: seq<Buffer>, ghost known: set<Buffer>)
    returns (after: seq<Buffer>, ghost known': set<Buffer>)
    requires Orderly(pool, held, known)
    modifies pool
    ensures Orderly(pool, after, known') && known <= known' && fresh(known' - known)
    ensures |after| == |held| + 1 && after == held + [after[|held|]] && after[|held|] !in held
  {
    hide BestFit, NoSharing, Within, PoolOk;
    ghost var before := pool.buckets.vals;
    var buffer := pool.Acquire(size);
    AcquireStaysWithin(before, pool.buckets.vals, buffer, known);
    assert Elems(held + [buffer]) == Elems(held) + {buffer};
    assert buffer !in Elems(held);
    after := held + [buffer];
    known' := known + {buffer};
  }

  lemma AcquireStaysWithin(before: map<int, seq<Buffer>>, after: map<int, seq<Buffer>>, b: Buffer, known: set<Buffer>)
    requires Within(before, known)
    requires var list := ListAt(before, b.Length);
             if list == [] then after == before
             else b == list[|list| - 1] && after == before[b.Length := list[..|list| - 1]]
    ensures Within(after, known + {b})
    ensures ListAt(before, b.Length) != [] ==> b in known
  {
    var list := ListAt(before, b.Length);
    if list != [] { assert b in list; }
  }

  method Release(pool: BufferPool, at: nat, held: seq<Buffer>, ghost known: set<Buffer>) returns (after: seq<Buffer>)
    requires Orderly(pool, held, known) && at < |held|
    modifies pool, known
    ensures Orderly(pool, after, known) && after == Dropped(held, at)
  {
    hide InPool, NoSharing, PoolOk, Dropped, Within;
    var buffer := held[at];
    DroppedElems(held, at);
    NotPooledWhileLent(pool.buckets.vals, pool.lent, buffer);
    ghost var before := pool.buckets.vals;
    pool.Release(buffer);
    ReleaseStaysWithin(before, buffer, known);
    after := Dropped(held, at);
  }

  lemma ReleaseStaysWithin(before: map<int, seq<Buffer>>, b: Buffer, known: set<Buffer>)
    requires Within(before, known) && b in known
    ensures Within(before[b.Length := ListAt(before, b.Length) + [b]], known)
  {
  }

  lemma NotPooledWhileLent(vals: map<int, seq<Buffer>>, lent: set<Buffer>, b: Buffer)
    requires NoSharing(vals, lent) && b in lent
    ensures !InPool(vals, b)
  {
  }

  method Trim(pool: BufferPool, target: int, held: seq<Buffer>, ghost known: set<Buffer>)
    requires Orderly(pool, held, known)
    modifies pool
    ensures Orderly(pool, held, known)
  {
    hide NoSharing, TrimmedTo;
    ghost var before := pool.buckets.vals;
    pool.Trim(target);
    TrimStaysWithin(before, pool.buckets.vals, pool.pooledBytes, target, known);
  }

  /** At every point of a run the buffers in hand, which are those handed out and not given back, are all different, and
      in the end the pool's count of used bytes is exactly theirs. */
  method Run(maxBytes: int, bucketSizes: seq<int>, maxBuffersPerBucket: int, ops: seq<Op>)
    returns (handed: seq<Buffer>, usedBytes: int, pooledBytes: int)
    ensures |handed| == Acquires(ops)
    ensures forall i :: 0 <= i <= |ops| ==> Acquires(ops[..i]) <= |handed| && NoDup(Holding(ops[..i], handed))
    ensures usedBytes == Bytes(Holding(ops, handed))
    ensures 0 <= pooledBytes <= Max(1024, maxBytes)
  {
    var pool := new BufferPool(Some(maxBytes), Some(bucketSizes), Some(maxBuffersPerBucket));
    var held: seq<Buffer> := [];
    handed := [];
    ghost var known: set<Buffer> := {};
    for i := 0 to |ops|
      invariant fresh(pool) && fresh(known) && Orderly(pool, held, known)
      invariant |handed| == Acquires(ops[..i]) && held == Holding(ops[..i], handed)
      invariant NeverShared(ops, handed, i)
    {
      hide Orderly, NeverShared;
      assert ops[..i + 1][..i] == ops[..i];
      ghost var before := handed;
      match ops[i] {
        case AcquireOp(size) =>
          var n := |held|;
          held, known := Acquire(pool, size, held, known);
          handed := handed + [held[n]];
          HoldingIgnores(ops[..i], before, held[n]);
          StillNeverShared(ops, before, held[n], i);
        case ReleaseOp(at) =>
          if at < |held| { held := Release(pool, at, held, known); }
        case TrimOp(target) =>
          Trim(pool, target, held, known);
      }
      HeldAreDistinct(pool, held, known);
      OneMorePoint(ops, handed, i);
    }
    assert ops[..|ops|] == ops;
    BytesOfDistinct(held);
    usedBytes, pooledBytes := pool.usedBytes, pool.pooledBytes;
  }

  ghost predicate NeverShared(ops: seq<Op>, handed: seq<Buffer>, n: nat) {
    && n <= |ops|
    && forall i :: 0 <= i <= n ==> Acquires(ops[..i]) <= |handed| && NoDup(Holding(ops[..i], handed))
  }

  lemma HeldAreDistinct(pool: BufferPool, held: seq<Buffer>, known: set<Buffer>)
    requires Orderly(pool, held, known)
    ensures NoDup(held)
  {
  }

  lemma StillNeverShared(ops: seq<Op>, handed: seq<Buffer>, more: Buffer, n: nat)
    requires NeverShared(ops, handed, n)
    ensures NeverShared(ops, handed + [more], n)
  {
    forall i | 0 <= i <= n ensures NoDup(Holding(ops[..i], handed + [more])) {
      HoldingIgnores(ops[..i], handed, more);
    }
  }

  lemma OneMorePoint(ops: seq<Op>, handed: seq<Buffer>, n: nat)
    requires NeverShared(ops, handed, n) && n < |ops|
    requires Acquires(ops[..n + 1]) <= |handed| && NoDup(Holding(ops[..n + 1], handed))
    ensures NeverShared(ops, handed, n + 1)
  {
  }

  /** A caller that gives one buffer back twice: the next two acquires hand out the same buffer. */
  method ReleasedTwice(size: int) returns (first: Buffer, second: Buffer)
    requires 1 <= size <= 512
    ensures first == second && first.Length == size
  {
    hide PoolOk, NoSharing, InPool, BestFit;
    var pool := new BufferPool(None, Some([]), None);
    NothingInNewPool(pool);
    var buffer := AcquireExactly(pool, size);
    pool.Release(buffer);
    pool.Release(buffer);
    assert ListAt(pool.buckets.vals, size) == [buffer, buffer];
    first := AcquireExactly(pool, size);
    assert ListAt(pool.buckets.vals, size) == [buffer];
    second := AcquireExactly(pool, size);
  }

  lemma NothingInNewPool(pool: BufferPool)
    requires pool.Valid() && pool.buckets == Empty()
    ensures pool.pooledBytes == 0
  {
    NothingPooled(pool.buckets, pool.maxBuffersPerBucket, pool.pooledBytes,
                  pool.releaseCount - 0 - pool.misses - pool.reuseCount - pool.trimmed);
  }

  /** With no sizes configured a buffer has the size asked for. */
  method AcquireExactly(pool: BufferPool, size: int) returns (buffer: Buffer)
    requires pool.Valid() && size >= 1 && forall s :: s !in pool.bucketSizes
    modifies pool
    ensures pool.Valid() && buffer.Length == size
    ensures var list := ListAt(old(pool.buckets.vals), size);
            if list == [] then fresh(buffer) && pool.buckets == old(pool.buckets)
                && pool.pooledBytes == old(pool.pooledBytes)
            else buffer == list[|list| - 1] && pool.buckets == old(pool.buckets).Set(size, list[..|list| - 1])
                 && pool.pooledBytes == old(pool.pooledBytes) - size
  {
    hide PoolOk, NoSharing;
    buffer := pool.Acquire(size);
  }
}

/** The recency list behind the block cache, and how caches of different capacity compare. */
module LruCache {
  import opened Common
  import opened OrderedMaps
  import opened Numerals

  /** A `Map` whose insertion order is the order of use, oldest first. */
  type Recency<V> = OrderedMap<string, V>

  function MakeKey(chain: string, index: int): string { chain + ":" + IntText(index) }

  predicate StartsWith(s: string, prefix: string) { |prefix| <= |s| && s[..|prefix|] == prefix }

  function ChainPrefix(chain: string): string { chain + ":" }

  /** `get`: a hit is deleted and set again, which makes it the newest. */
  function Touch<V>(m: Recency<V>, k: string): (r: Recency<V>)
    requires m.Valid()
    ensures r.Valid()
  {
    if k in m.vals then m.Delete(k).Set(k, m.vals[k]) else m
  }

  function Evict<V>(m: Recency<V>, capacity: nat): (r: Recency<V>)
    requires m.Valid()
    ensures r.Valid()
  {
    if |m.keys| > capacity then m.Delete(m.keys[0]) else m
  }

  function Append<V>(m: Recency<V>, k: string, v: V): (r: Recency<V>)
    requires m.Valid()
    ensures r.Valid()
  {
    m.Delete(k).Set(k, v)
  }

  lemma AppendShape<V>(m: Recency<V>, k: string, v: V)
    requires m.Valid()
    ensures Append(m, k, v).keys == Filter(m.keys, Except(k)) + [k]
    ensures Append(m, k, v).vals == m.vals[k := v]
    ensures |Append(m, k, v).keys| == |m.keys| + (if k in m.vals then 0 else 1)
  {
    if k in m.vals {
      DeleteSize(m, k);
    } else {
      InElems(m);
      FilterAll(m.keys, Except(k));
    }
    assert (m.vals - {k})[k := v] == m.vals[k := v];
  }

  /** `set`: the newest entry, and the oldest one out when there are too many. */
  function Put<V>(m: Recency<V>, k: string, v: V, capacity: nat): (r: Recency<V>)
    requires m.Valid()
    ensures r.Valid()
  {
    Evict(Append(m, k, v), capacity)
  }

  /** `after` is `before` with `k` as its newest entry, without the oldest one if that is one too many. */
  ghost predicate PutAsNewest<V>(before: Recency<V>, after: Recency<V>, k: string, v: V, capacity: nat) {
    var order := Filter(before.keys, Except(k)) + [k];
    && after.keys == (if |order| > capacity then order[1..] else order)
    && after.vals == (if |order| > capacity then before.vals[k := v] - {order[0]} else before.vals[k := v])
  }

  lemma PutShape<V>(m: Recency<V>, k: string, v: V, capacity: nat)
    requires m.Valid()
    ensures PutAsNewest(m, Put(m, k, v, capacity), k, v, capacity)
  {
    AppendShape(m, k, v);
    var order := Append(m, k, v).keys;
    assert order == Filter(m.keys, Except(k)) + [k];
    if |order| > capacity { FilterFirst(order); }
  }

  /** Taking the first of several distinct elements out leaves the rest. */
  lemma FilterFirst(s: seq<string>)
    requires NoDup(s) && s != []
    ensures Filter(s, Except(s[0])) == s[1..]
  {
    assert s == [s[0]] + s[1..];
    FilterConcat([s[0]], s[1..], Except(s[0]));
    FilterAll(s[1..], Except(s[0]));
  }

  /** After a hit `k` is the newest entry, and nothing else has changed. */
  ghost predicate TouchedAsNewest<V>(before: Recency<V>, after: Recency<V>, k: string) {
    && after.vals == before.vals
    && after.keys == (if k in before.vals then Filter(before.keys, Except(k)) + [k] else before.keys)
  }

  lemma TouchShape<V>(m: Recency<V>, k: string)
    requires m.Valid()
    ensures TouchedAsNewest(m, Touch(m, k), k)
  {
    if k in m.vals {
      AppendShape(m, k, m.vals[k]);
      assert m.vals[k := m.vals[k]] == m.vals;
    }
  }

  function Without<V>(m: Recency<V>, drop: set<string>): (r: Recency<V>)
    requires m.Valid()
    ensures r.Valid()
  {
    FilterNoDup(m.keys, Outside(drop));
    OrderedMap(Filter(m.keys, Outside(drop)), m.vals - drop)
  }

  /** `after` is `before` without the entries whose keys begin with `prefix`. */
  ghost predicate LosesPrefix<V>(before: Recency<V>, after: Recency<V>, prefix: string) {
    && (forall k :: k in after.vals <==> k in before.vals && !(prefix <= k))
    && (forall k :: k in after.vals ==> after.vals[k] == before.vals[k])
    && after.keys == Filter(before.keys, (k: string) => !(prefix <= k))
  }

  lemma PrefixLost<V>(m: Recency<V>, prefix: string)
    requires m.Valid()
    ensures LosesPrefix(m, Without(m, KeysUnder(m, prefix)), prefix)
  {
    InElems(m);
    var keep := (k: string) => !(prefix <= k);
    forall k ensures StartsWith(k, prefix) <==> prefix <= k {}
    FilterAgree(m.keys, Outside(KeysUnder(m, prefix)), keep);
  }

  function Outside(drop: set<string>): string -> bool { (x: string) => x !in drop }

  function Within(keep: set<string>): string -> bool { (x: string) => x in keep }

  function KeysUnder<V>(m: Recency<V>, prefix: string): set<string> {
    set k | k in m.vals && StartsWith(k, prefix)
  }

  lemma {:induction false} FilterAgree<T(!new)>(s: seq<T>, p: T -> bool, q: T -> bool)
    requires forall x :: x in s ==> p(x) == q(x)
    ensures Filter(s, p) == Filter(s, q)
  {
    if s != [] { FilterAgree(s[..|s| - 1], p, q); }
  }

  lemma InElems<V>(m: Recency<V>)
    requires m.Valid()
    ensures forall k :: k in m.keys <==> k in m.vals
  {
    assert forall k :: k in m.keys <==> k in Elems(m.keys);
  }

  // ---- traces ----

  datatype Op<V> =
    | Get(chain: string, index: int)
    | Set(chain: string, index: int, value: V)
    | InvalidateBlock(chain: string, index: int)
    | InvalidateChain(chain: string)
    | Clear

  function Apply<V>(m: Recency<V>, op: Op<V>, capacity: nat): (r: Recency<V>)
    requires m.Valid()
    ensures r.Valid()
  {
    match op
    case Get(c, i) => Touch(m, MakeKey(c, i))
    case Set(c, i, v) => Put(m, MakeKey(c, i), v, capacity)
    case InvalidateBlock(c, i) => m.Delete(MakeKey(c, i))
    case InvalidateChain(c) => Without(m, KeysUnder(m, ChainPrefix(c)))
    case Clear => Empty()
  }

  function Run<V>(ops: seq<Op<V>>, capacity: nat): (r: Recency<V>)
    ensures r.Valid()
  {
    if ops == [] then Empty() else Apply(Run(ops[..|ops| - 1], capacity), ops[|ops| - 1], capacity)
  }

  /** The value last set for a key, unless it was invalidated since. */
  function LastSet<V>(ops: seq<Op<V>>, k: string): Option<V> {
    if ops == [] then None
    else
      var before := LastSet(ops[..|ops| - 1], k);
      match ops[|ops| - 1]
      case Get(_, _) => before
      case Set(c, i, v) => if MakeKey(c, i) == k then Some(v) else before
      case InvalidateBlock(c, i) => if MakeKey(c, i) == k then None else before
      case InvalidateChain(c) => if StartsWith(k, ChainPrefix(c)) then None else before
      case Clear => None
  }

  /** The cache never serves a value that was overwritten or invalidated. */
  lemma {:induction false} HitIsLastSet<V>(ops: seq<Op<V>>, capacity: nat, k: string)
    ensures var m := Run(ops, capacity); k in m.vals ==> LastSet(ops, k) == Some(m.vals[k])
  {
    if ops != [] {
      var op := ops[|ops| - 1];
      HitIsLastSet(ops[..|ops| - 1], capacity, k);
      if k in Run(ops, capacity).vals { StepServes(Run(ops[..|ops| - 1], capacity), op, capacity, k); }
    }
  }

  /** The operation takes `k` out of reach. */
  predicate Drops<V>(op: Op<V>, k: string) {
    match op
    case InvalidateBlock(c, i) => MakeKey(c, i) == k
    case InvalidateChain(c) => StartsWith(k, ChainPrefix(c))
    case Clear => true
    case _ => false
  }

  lemma StepServes<V>(m: Recency<V>, op: Op<V>, capacity: nat, k: string)
    requires m.Valid() && k in Apply(m, op, capacity).vals
    ensures !Drops(op, k)
    ensures if op.Set? && MakeKey(op.chain, op.index) == k then Apply(m, op, capacity).vals[k] == op.value
            else k in m.vals && Apply(m, op, capacity).vals[k] == m.vals[k]
  {
    match op {
      case Set(c, i, v) => AppendShape(m, MakeKey(c, i), v);
      case Get(c, i) => if MakeKey(c, i) in m.vals { AppendShape(m, MakeKey(c, i), m.vals[MakeKey(c, i)]); }
      case _ =>
    }
  }

  // ---- the order is the order of use ----

  /** When `k` was last asked for or set; -1 if never. */
  function LastUse<V>(ops: seq<Op<V>>, k: string): (n: int)
    ensures -1 <= n < |ops|
  {
    if ops == [] then -1
    else
      var op := ops[|ops| - 1];
      if (op.Get? || op.Set?) && MakeKey(op.chain, op.index) == k then |ops| - 1 else LastUse(ops[..|ops| - 1], k)
  }

  ghost predicate ByLastUse<V(!new)>(ops: seq<Op<V>>, keys: seq<string>) {
    forall i, j :: 0 <= i < j < |keys| ==> LastUse(ops, keys[i]) < LastUse(ops, keys[j])
  }

  lemma {:induction false} FilterKeepsOrder<V(!new)>(ops: seq<Op<V>>, keys: seq<string>, keep: string -> bool)
    requires ByLastUse(ops, keys)
    ensures ByLastUse(ops, Filter(keys, keep))
  {
    if keys != [] {
      var front, last := keys[..|keys| - 1], keys[|keys| - 1];
      FilterKeepsOrder(ops, front, keep);
      forall k | k in Filter(front, keep) ensures LastUse(ops, k) < LastUse(ops, last) {
        var i :| 0 <= i < |front| && front[i] == k;
      }
    }
  }

  /** A key that the last operation used goes to the end; the others keep their times. */
  lemma UsedComesLast<V(!new)>(ops: seq<Op<V>>, keys: seq<string>, k: string)
    requires ops != [] && ByLastUse(ops[..|ops| - 1], keys)
    requires var op := ops[|ops| - 1]; (op.Get? || op.Set?) && MakeKey(op.chain, op.index) == k
    ensures ByLastUse(ops, Filter(keys, Except(k)) + [k])
  {
    FilterKeepsOrder(ops[..|ops| - 1], keys, Except(k));
    var rest := Filter(keys, Except(k));
    assert k !in rest by { assert !Except(k)(k); }
    assert forall i :: 0 <= i < |rest| ==> rest[i] in rest;
  }

  lemma OthersKeepTimes<V(!new)>(ops: seq<Op<V>>, keys: seq<string>)
    requires ops != [] && ByLastUse(ops[..|ops| - 1], keys)
    requires var op := ops[|ops| - 1]; (op.Get? || op.Set?) ==> MakeKey(op.chain, op.index) !in keys
    ensures ByLastUse(ops, keys)
  {
    assert forall i :: 0 <= i < |keys| ==> LastUse(ops, keys[i]) == LastUse(ops[..|ops| - 1], keys[i]);
  }

  /** After any trace the cache lists its blocks by when each was last asked for or set, whatever was evicted and
      invalidated in between; so what an overflow evicts is the block unused for longest. */
  lemma {:induction false} OrderIsLastUse<V(!new)>(ops: seq<Op<V>>, capacity: nat)
    ensures ByLastUse(ops, Run(ops, capacity).keys)
  {
    hide ByLastUse, LastUse;
    if ops == [] {
      ByLastUseEmpty(ops);
    } else {
      OrderIsLastUse(ops[..|ops| - 1], capacity);
      var m, op := Run(ops[..|ops| - 1], capacity), ops[|ops| - 1];
      InElems(m);
      match op {
        case Get(c, i) =>
          var k := MakeKey(c, i);
          if k in m.vals {
            AppendShape(m, k, m.vals[k]);
            UsedComesLast(ops, m.keys, k);
          } else {
            OthersKeepTimes(ops, m.keys);
          }
        case Set(c, i, v) =>
          var k := MakeKey(c, i);
          PutShape(m, k, v, capacity);
          UsedComesLast(ops, m.keys, k);
          DropFirstKeepsOrder(ops, Filter(m.keys, Except(k)) + [k]);
        case InvalidateBlock(c, i) =>
          OthersKeepTimes(ops, m.keys);
          FilterKeepsOrder(ops, m.keys, Except(MakeKey(c, i)));
        case InvalidateChain(c) =>
          OthersKeepTimes(ops, m.keys);
          FilterKeepsOrder(ops, m.keys, Outside(KeysUnder(m, ChainPrefix(c))));
        case Clear => ByLastUseEmpty(ops);
      }
    }
  }

  lemma ByLastUseEmpty<V(!new)>(ops: seq<Op<V>>)
    ensures ByLastUse(ops, [])
  {
  }

  lemma DropFirstKeepsOrder<V(!new)>(ops: seq<Op<V>>, keys: seq<string>)
    requires ByLastUse(ops, keys) && keys != []
    ensures ByLastUse(ops, keys[1..])
  {
  }

  lemma {:induction false} CapacityHolds<V>(ops: seq<Op<V>>, capacity: nat)
    requires capacity >= 1
    ensures |Run(ops, capacity).keys| <= capacity
  {
    if ops != [] {
      CapacityHolds(ops[..|ops| - 1], capacity);
      StepKeepsCapacity(Run(ops[..|ops| - 1], capacity), ops[|ops| - 1], capacity);
    }
  }

  lemma StepKeepsCapacity<V>(m: Recency<V>, op: Op<V>, capacity: nat)
    requires m.Valid() && |m.keys| <= capacity
    ensures |Apply(m, op, capacity).keys| <= capacity
  {
    match op {
      case Get(c, i) => if MakeKey(c, i) in m.vals { AppendShape(m, MakeKey(c, i), m.vals[MakeKey(c, i)]); }
      case Set(c, i, v) => AppendShape(m, MakeKey(c, i), v); EvictSize(Append(m, MakeKey(c, i), v), capacity);
      case _ =>
    }
  }

  lemma EvictSize<V>(m: Recency<V>, capacity: nat)
    requires m.Valid() && |m.keys| <= capacity + 1
    ensures |Evict(m, capacity).keys| == Min(|m.keys|, capacity)
  {
    InElems(m);
    if |m.keys| > capacity {
      assert m.keys[0] in m.keys;
      DeleteSize(m, m.keys[0]);
    }
  }

  // ---- inclusion ----

  /** `a` is what remains of `b` when everything not in `a` is crossed out. */
  ghost predicate Subsequence(a: seq<string>, b: seq<string>) { a == Filter(b, Within(Elems(a))) }

  ghost predicate Agrees<V>(small: map<string, V>, large: map<string, V>) {
    forall k :: k in small ==> k in large && large[k] == small[k]
  }

  /** Everything the small cache holds, the large one holds too: same values, same relative order;
      and the large one holds at most `gap` more. */
  ghost predicate Included<V>(small: Recency<V>, large: Recency<V>, gap: nat) {
    && small.Valid() && large.Valid()
    && Subsequence(small.keys, large.keys)
    && Agrees(small.vals, large.vals)
    && |large.vals.Keys - small.vals.Keys| <= gap
  }

  function Both<T>(p: T -> bool, q: T -> bool): T -> bool { (x: T) => p(x) && q(x) }

  lemma {:induction false} FilterTwice<T(!new)>(s: seq<T>, p: T -> bool, q: T -> bool)
    ensures Filter(Filter(s, p), q) == Filter(s, Both(p, q))
  {
    if s != [] { FilterTwice(s[..|s| - 1], p, q); }
  }

  /** Dropping less from the larger list than from the smaller one keeps the smaller one a subsequence. */
  lemma SubsequenceAfterFilter(a: seq<string>, b: seq<string>, p: string -> bool, q: string -> bool)
    requires Subsequence(a, b)
    requires forall x :: x in a && p(x) ==> q(x)
    ensures Subsequence(Filter(a, p), Filter(b, q))
  {
    var inA, inA' := Within(Elems(a)), Within(Elems(Filter(a, p)));
    FilterTwice(b, inA, p);
    FilterTwice(b, q, inA');
    FilterAgree(b, Both(inA, p), Both(q, inA'));
  }

  lemma FilterSingle(k: string, p: string -> bool)
    ensures Filter([k], p) == if p(k) then [k] else []
  {
    assert [k][..0] == [];
  }

  lemma SubsequenceAfterAppend(a: seq<string>, b: seq<string>, k: string)
    requires Subsequence(a, b) && k !in b
    ensures Subsequence(a + [k], b + [k])
  {
    FilterConcat(b, [k], Within(Elems(a + [k])));
    FilterAgree(b, Within(Elems(a + [k])), Within(Elems(a)));
    FilterSingle(k, Within(Elems(a + [k])));
  }

  /** The gap is the difference of the sizes. */
  lemma GapIsSizeDifference<V>(small: Recency<V>, large: Recency<V>)
    requires small.Valid() && large.Valid() && small.vals.Keys <= large.vals.Keys
    ensures |large.vals.Keys - small.vals.Keys| == |large.keys| - |small.keys|
  {
    KeyCount(small);
    KeyCount(large);
    DifferenceSize(small.vals.Keys, large.vals.Keys);
  }

  lemma DifferenceSize(a: set<string>, b: set<string>)
    requires a <= b
    ensures |b - a| == |b| - |a|
  {
    assert b == a + (b - a);
  }

  lemma DeleteKeepsIncluded<V>(small: Recency<V>, large: Recency<V>, k: string, gap: nat)
    requires Included(small, large, gap)
    ensures Included(small.Delete(k), large.Delete(k), gap)
  {
    SubsequenceAfterFilter(small.keys, large.keys, Except(k), Except(k));
    SubsetCard(large.Delete(k).vals.Keys - small.Delete(k).vals.Keys, large.vals.Keys - small.vals.Keys);
  }

  lemma InvalidationKeepsIncluded<V>(small: Recency<V>, large: Recency<V>, prefix: string, gap: nat)
    requires Included(small, large, gap)
    ensures Included(Without(small, KeysUnder(small, prefix)), Without(large, KeysUnder(large, prefix)), gap)
  {
    var dropS, dropL := KeysUnder(small, prefix), KeysUnder(large, prefix);
    InElems(small);
    SubsequenceAfterFilter(small.keys, large.keys, Outside(dropS), Outside(dropL));
    SubsetCard((large.vals - dropL).Keys - (small.vals - dropS).Keys, large.vals.Keys - small.vals.Keys);
  }

  lemma FreshSetKeepsIncluded<V>(small: Recency<V>, large: Recency<V>, k: string, v: V, gap: nat)
    requires Included(small, large, gap) && k !in large.vals
    ensures Included(small.Set(k, v), large.Set(k, v), gap)
  {
    InElems(large);
    FreshSetShape(small, k, v);
    FreshSetShape(large, k, v);
    SubsequenceAfterAppend(small.keys, large.keys, k);
    assert Agrees(small.Set(k, v).vals, large.Set(k, v).vals);
    assert small.vals.Keys <= large.vals.Keys;
    SameGap(small.vals.Keys, large.vals.Keys, k);
  }

  lemma FreshSetShape<V>(m: Recency<V>, k: string, v: V)
    requires m.Valid() && k !in m.vals
    ensures m.Set(k, v).keys == m.keys + [k] && m.Set(k, v).vals.Keys == m.vals.Keys + {k}
  {
  }

  lemma SameGap(a: set<string>, b: set<string>, k: string)
    requires k !in b && a <= b
    ensures (b + {k}) - (a + {k}) == b - a
  {
  }

  /** Setting one key in both brings the two caches no further apart. */
  lemma AppendKeepsIncluded<V>(small: Recency<V>, large: Recency<V>, k: string, v: V, gap: nat)
    requires Included(small, large, gap)
    ensures Included(Append(small, k, v), Append(large, k, v), gap)
  {
    DeleteKeepsIncluded(small, large, k, gap);
    FreshSetKeepsIncluded(small.Delete(k), large.Delete(k), k, v, gap);
  }

  /** A hit in both, or only in the larger cache. */
  lemma TouchKeepsIncluded<V>(small: Recency<V>, large: Recency<V>, k: string, gap: nat)
    requires Included(small, large, gap)
    ensures Included(Touch(small, k), Touch(large, k), gap)
  {
    if k in small.vals {
      AppendKeepsIncluded(small, large, k, large.vals[k], gap);
    } else if k in large.vals {
      InElems(small);
      LoneTouch(small.keys, large.keys, k);
      TouchKeepsValues(large, k);
    }
  }

  lemma TouchKeepsValues<V>(m: Recency<V>, k: string)
    requires m.Valid() && k in m.vals
    ensures Touch(m, k).vals == m.vals && Touch(m, k).keys == Filter(m.keys, Except(k)) + [k]
  {
    AppendShape(m, k, m.vals[k]);
  }

  lemma LoneTouch(a: seq<string>, b: seq<string>, k: string)
    requires Subsequence(a, b) && k !in a
    ensures Subsequence(a, Filter(b, Except(k)) + [k])
  {
    var inA := Within(Elems(a));
    FilterConcat(Filter(b, Except(k)), [k], inA);
    FilterSingle(k, inA);
    FilterTwice(b, Except(k), inA);
    FilterAgree(b, Both(Except(k), inA), inA);
  }

  lemma OldestIsOldest(a: seq<string>, b: seq<string>)
    requires Subsequence(a, b) && a != [] && b != [] && b[0] in a
    ensures a[0] == b[0]
  {
    assert b == [b[0]] + b[1..];
    FilterConcat([b[0]], b[1..], Within(Elems(a)));
    FilterSingle(b[0], Within(Elems(a)));
  }

  /** Both caches let their oldest key go; the small one never keeps what the large one drops. */
  lemma EvictBoth<V>(small: Recency<V>, large: Recency<V>, gap: nat)
    requires Included(small, large, gap) && small.keys != [] && large.keys != []
    ensures Included(small.Delete(small.keys[0]), large.Delete(large.keys[0]), gap)
  {
    var y, x := small.keys[0], large.keys[0];
    InElems(small);
    InElems(large);
    if x in small.keys { OldestIsOldest(small.keys, large.keys); }
    SubsequenceAfterFilter(small.keys, large.keys, Except(y), Except(x));
    assert y in small.keys && x in large.keys;
    DeleteSize(small, y);
    DeleteSize(large, x);
    GapIsSizeDifference(small, large);
    GapIsSizeDifference(small.Delete(y), large.Delete(x));
  }

  lemma EvictSmall<V>(small: Recency<V>, large: Recency<V>, m: nat, n: nat)
    requires small.Valid() && large.Valid() && m <= n && |small.keys| == m + 1 && |large.keys| <= n
    requires Included(small, large, n - m)
    ensures Included(small.Delete(small.keys[0]), large, n - m)
  {
    var y := small.keys[0];
    InElems(small);
    assert y in small.keys;
    FilterAll(large.keys, Outside({}));
    SubsequenceAfterFilter(small.keys, large.keys, Except(y), Outside({}));
    DeleteSize(small, y);
    GapIsSizeDifference(small.Delete(y), large);
  }

  /** When the larger cache has to evict, the smaller one does too. */
  lemma EvictKeepsIncluded<V>(small: Recency<V>, large: Recency<V>, m: nat, n: nat)
    requires small.Valid() && large.Valid() && m <= n && |small.keys| <= m + 1 && |large.keys| <= n + 1
    requires Included(small, large, n - m)
    ensures Included(Evict(small, m), Evict(large, n), n - m)
  {
    assert |small.keys| > m || |large.keys| <= n by { GapIsSizeDifference(small, large); }
    if |large.keys| > n {
      EvictBoth(small, large, n - m);
      assert Evict(large, n) == large.Delete(large.keys[0]);
      assert Evict(small, m) == small.Delete(small.keys[0]);
    } else if |small.keys| > m {
      EvictSmall(small, large, m, n);
    }
  }

  lemma PutKeepsIncluded<V>(small: Recency<V>, large: Recency<V>, k: string, v: V, m: nat, n: nat)
    requires small.Valid() && large.Valid() && m <= n && |small.keys| <= m && |large.keys| <= n
    requires Included(small, large, n - m)
    ensures Included(Put(small, k, v, m), Put(large, k, v, n), n - m)
  {
    hide Included, Append, Evict;
    AppendKeepsIncluded(small, large, k, v, n - m);
    AppendShape(small, k, v);
    AppendShape(large, k, v);
    EvictKeepsIncluded(Append(small, k, v), Append(large, k, v), m, n);
  }

  lemma StepKeepsIncluded<V>(small: Recency<V>, large: Recency<V>, op: Op<V>, m: nat, n: nat)
    requires small.Valid() && large.Valid() && 1 <= m <= n && |small.keys| <= m && |large.keys| <= n
    requires Included(small, large, n - m)
    ensures Included(Apply(small, op, m), Apply(large, op, n), n - m)
  {
    hide Included, Apply;
    if op.Get? {
      GetKeepsIncluded(small, large, op, m, n);
    } else if op.Set? {
      SetKeepsIncluded(small, large, op, m, n);
    } else if op.InvalidateChain? {
      ChainDropKeepsIncluded(small, large, op, m, n);
    } else {
      DropKeepsIncluded(small, large, op, m, n);
    }
  }

  lemma GetKeepsIncluded<V>(small: Recency<V>, large: Recency<V>, op: Op<V>, m: nat, n: nat)
    requires op.Get? && m <= n && Included(small, large, n - m)
    ensures Included(Apply(small, op, m), Apply(large, op, n), n - m)
  {
    hide Touch;
    TouchKeepsIncluded(small, large, MakeKey(op.chain, op.index), n - m);
  }

  lemma SetKeepsIncluded<V>(small: Recency<V>, large: Recency<V>, op: Op<V>, m: nat, n: nat)
    requires op.Set? && 1 <= m <= n && |small.keys| <= m && |large.keys| <= n && Included(small, large, n - m)
    ensures Included(Apply(small, op, m), Apply(large, op, n), n - m)
  {
    hide Put;
    PutKeepsIncluded(small, large, MakeKey(op.chain, op.index), op.value, m, n);
  }

  lemma DropKeepsIncluded<V>(small: Recency<V>, large: Recency<V>, op: Op<V>, m: nat, n: nat)
    requires (op.InvalidateBlock? || op.Clear?) && m <= n && Included(small, large, n - m)
    ensures Included(Apply(small, op, m), Apply(large, op, n), n - m)
  {
    if op.Clear? {
      EmptyIncluded<V>(n - m);
    } else {
      DeleteKeepsIncluded(small, large, MakeKey(op.chain, op.index), n - m);
    }
    hide Included;
  }

  lemma ChainDropKeepsIncluded<V>(small: Recency<V>, large: Recency<V>, op: Op<V>, m: nat, n: nat)
    requires op.InvalidateChain? && m <= n && small.Valid() && large.Valid() && Included(small, large, n - m)
    ensures Included(Apply(small, op, m), Apply(large, op, n), n - m)
  {
    hide Without, KeysUnder, Included, Filter, ChainPrefix;
    InvalidationKeepsIncluded(small, large, ChainPrefix(op.chain), n - m);
    assert Apply(small, op, m) == Without(small, KeysUnder(small, ChainPrefix(op.chain)));
    assert Apply(large, op, n) == Without(large, KeysUnder(large, ChainPrefix(op.chain)));
  }

  lemma EmptyIncluded<V>(gap: nat)
    ensures Included<V>(Empty(), Empty(), gap)
  {
  }

  /** LRU inclusion: on any trace, whatever hits in a small cache hits in a larger one, with the same value. */
  lemma {:induction false} Inclusion<V>(ops: seq<Op<V>>, m: nat, n: nat)
    requires 1 <= m <= n
    ensures Included(Run(ops, m), Run(ops, n), n - m)
    ensures |Run(ops, m).keys| <= |Run(ops, n).keys| <= |Run(ops, m).keys| + (n - m)
  {
    if ops == [] {
      EmptyIncluded<V>(n - m);
    } else {
      Inclusion(ops[..|ops| - 1], m, n);
      CapacityHolds(ops[..|ops| - 1], m);
      CapacityHolds(ops[..|ops| - 1], n);
      StepKeepsIncluded(Run(ops[..|ops| - 1], m), Run(ops[..|ops| - 1], n), ops[|ops| - 1], m, n);
    }
    GapIsSizeDifference(Run(ops, m), Run(ops, n));
  }

  // ---- keys ----

  /** A key names one chain and one index, even if chain names contain colons. */
  lemma MakeKeyInjective(c: string, i: int, d: string, j: int)
    requires MakeKey(c, i) == MakeKey(d, j)
    ensures c == d && i == j
  {
    var s, t := MakeKey(c, i), MakeKey(d, j);
    ColonPosition(c, i);
    ColonPosition(d, j);
    assert s[|c|] == ':' && t[|d|] == ':';
    assert c == s[..|c|] && d == t[..|d|];
    assert IntText(i) == s[|c| + 1..] && IntText(j) == t[|d| + 1..];
    IntTextInjective(i, j);
  }

  lemma ColonPosition(c: string, i: int)
    ensures forall n :: |c| < n < |MakeKey(c, i)| ==> MakeKey(c, i)[n] != ':'
  {
    assert forall n :: |c| < n < |MakeKey(c, i)| ==> MakeKey(c, i)[n] == IntText(i)[n - |c| - 1];
  }

  /** Invalidating a chain reaches a block of chain `d` exactly when `d` is that chain or its name goes on after a
      colon. */
  lemma InvalidationReach(c: string, d: string, i: int)
    ensures StartsWith(MakeKey(d, i), ChainPrefix(c)) <==> d == c || StartsWith(d, ChainPrefix(c))
  {
    var key, p := MakeKey(d, i), ChainPrefix(c);
    ColonPosition(d, i);
    assert key[..|d| + 1] == ChainPrefix(d) && key[..|d|] == d;
    if StartsWith(key, p) {
      assert key[|c|] == p[|c|] == ':';
      if |c| < |d| { assert d[..|p|] == key[..|p|]; }
    }
    if StartsWith(d, p) { assert key[..|p|] == d[..|p|]; }
  }

  /** With colon-free chain names, invalidating a chain removes that chain's blocks and no others. */
  lemma ColonFreeInvalidation(c: string, d: string, i: int)
    requires ':' !in d
    ensures StartsWith(MakeKey(d, i), ChainPrefix(c)) <==> d == c
  {
    InvalidationReach(c, d, i);
    assert ChainPrefix(c)[|c|] == ':';
    assert forall n :: 0 <= n < |d| ==> d[n] != ':';
    if |c| < |d| { assert d[..|c| + 1][|c|] == d[|c|]; }
  }

  /** With colons it can remove a stranger: invalidating "a" drops the blocks of "a:b". */
  lemma InvalidationOverreach()
    ensures StartsWith(MakeKey("a:b", 1), ChainPrefix("a")) && "a:b" != "a"
  {
    InvalidationReach("a", "a:b", 1);
    assert "a:b"[..2] == "a:";
  }
}

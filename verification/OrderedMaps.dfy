/** A JavaScript `Map`: a dictionary that remembers the order in which its keys were first set. */
module OrderedMaps {
  import opened Common

  datatype OrderedMap<K(==,!new), V> = OrderedMap(keys: seq<K>, vals: map<K, V>) {

    ghost predicate Valid() { NoDup(keys) && Elems(keys) == vals.Keys }

    /** `Map.set`: a key that is already there keeps its place. */
    function Set(k: K, v: V): (m: OrderedMap<K, V>)
      requires Valid()
      ensures m.Valid()
      ensures m.vals == vals[k := v]
    {
      if k in vals then OrderedMap(keys, vals[k := v])
      else
        assert Elems(keys + [k]) == Elems(keys) + {k};
        OrderedMap(keys + [k], vals[k := v])
    }

    /** `Map.delete`. */
    function Delete(k: K): (m: OrderedMap<K, V>)
      requires Valid()
      ensures m.Valid()
      ensures m.vals == vals - {k}
    {
      FilterNoDup(keys, Except(k));
      OrderedMap(Filter(keys, Except(k)), vals - {k})
    }
  }

  function Except<K(==)>(k: K): K -> bool { (x: K) => x != k }

  lemma DeleteSize<K(!new), V>(m: OrderedMap<K, V>, k: K)
    requires m.Valid() && k in m.vals
    ensures |m.Delete(k).keys| == |m.keys| - 1
  {
    KeyCount(m);
    KeyCount(m.Delete(k));
    assert m.vals.Keys == (m.vals - {k}).Keys + {k};
  }

  lemma KeyCount<K(!new), V>(m: OrderedMap<K, V>)
    requires m.Valid()
    ensures |m.keys| == |m.vals.Keys| == |m.vals|
  {
    NoDupCard(m.keys);
  }

  function Empty<K(==,!new), V>(): (m: OrderedMap<K, V>)
    ensures m.Valid()
  {
    OrderedMap([], map[])
  }

  /** The sum of the numbers a table holds for `keys`. */
  function SumOver<K(!new)>(keys: seq<K>, sizes: map<K, nat>): nat
    requires forall k :: k in keys ==> k in sizes
  {
    if keys == [] then 0 else SumOver(keys[..|keys| - 1], sizes) + sizes[keys[|keys| - 1]]
  }

  lemma {:induction false} SumIgnores<K(!new)>(keys: seq<K>, sizes: map<K, nat>, other: map<K, nat>)
    requires forall k :: k in keys ==> k in sizes && k in other && sizes[k] == other[k]
    ensures SumOver(keys, sizes) == SumOver(keys, other)
  {
    if keys != [] { SumIgnores(keys[..|keys| - 1], sizes, other); }
  }

  lemma {:induction false} SumWithout<K(!new)>(keys: seq<K>, sizes: map<K, nat>, k: K)
    requires NoDup(keys) && k in keys && forall x :: x in keys ==> x in sizes
    ensures SumOver(Filter(keys, Except(k)), sizes) == SumOver(keys, sizes) - sizes[k]
  {
    var front, last := keys[..|keys| - 1], keys[|keys| - 1];
    assert keys == front + [last];
    if last == k {
      assert k !in front;
      FilterAll(front, Except(k));
    } else {
      SumWithout(front, sizes, k);
    }
  }

  lemma SumAppend<K(!new)>(keys: seq<K>, sizes: map<K, nat>, k: K, n: nat)
    requires forall x :: x in keys ==> x in sizes && x != k
    ensures SumOver(keys + [k], sizes[k := n]) == SumOver(keys, sizes) + n
  {
    assert (keys + [k])[..|keys|] == keys;
    SumIgnores(keys, sizes, sizes[k := n]);
  }

  /** Writing a new number over an old one moves the sum by the difference. */
  lemma {:induction false} SumUpdate<K(!new)>(keys: seq<K>, sizes: map<K, nat>, k: K, n: nat)
    requires NoDup(keys) && k in keys && forall x :: x in keys ==> x in sizes
    ensures SumOver(keys, sizes[k := n]) == SumOver(keys, sizes) - sizes[k] + n
  {
    var front, last := keys[..|keys| - 1], keys[|keys| - 1];
    assert keys == front + [last];
    if last == k {
      assert k !in front;
      SumIgnores(front, sizes, sizes[k := n]);
    } else {
      SumUpdate(front, sizes, k, n);
    }
  }

  lemma SetTwice<K, V>(m: map<K, V>, k: K, first: V, second: V)
    ensures m[k := first][k := second] == m[k := second]
  {
  }
}

/** A stable sort, standing for the engine's `Array.prototype.sort` with the comparator
    "`le(a, b)` when the comparison of a with b is not positive". */
module Sorting {
  import opened Common

  ghost predicate Total<T(!new)>(le: (T, T) -> bool) {
    forall a, b :: le(a, b) || le(b, a)
  }

  ghost predicate Transitive<T(!new)>(le: (T, T) -> bool) {
    forall a, b, c :: le(a, b) && le(b, c) ==> le(a, c)
  }

  predicate SortedBy<T>(s: seq<T>, le: (T, T) -> bool) {
    forall i, j :: 0 <= i < j < |s| ==> le(s[i], s[j])
  }

  function Insert<T(!new)>(x: T, s: seq<T>, le: (T, T) -> bool): (r: seq<T>)
    ensures multiset(r) == multiset([x]) + multiset(s)
  {
    if s == [] || le(x, s[0]) then [x] + s
    else
      assert s == [s[0]] + s[1..];
      [s[0]] + Insert(x, s[1..], le)
  }

  function Sort<T(!new)>(s: seq<T>, le: (T, T) -> bool): (r: seq<T>)
    ensures multiset(r) == multiset(s)
    ensures |r| == |s|
    ensures forall x :: x in r <==> x in s
  {
    if s == [] then []
    else
      assert s == [s[0]] + s[1..];
      var r := Insert(s[0], Sort(s[1..], le), le);
      assert |multiset(r)| == |r| && |multiset(s)| == |s|;
      assert forall x :: x in r <==> x in multiset(r);
      assert forall x :: x in s <==> x in multiset(s);
      r
  }

  lemma {:induction false} InsertSorted<T(!new)>(x: T, s: seq<T>, le: (T, T) -> bool)
    requires Total(le) && Transitive(le)
    requires SortedBy(s, le)
    ensures SortedBy(Insert(x, s, le), le)
  {
    if s != [] && !le(x, s[0]) {
      InsertSorted(x, s[1..], le);
      var r := Insert(x, s[1..], le);
      forall y | y in r ensures le(s[0], y) {
        assert y in multiset(r);
        assert y in multiset([x]) + multiset(s[1..]);
        assert y == x || y in s[1..];
      }
    }
  }

  lemma {:induction false} SortSorts<T(!new)>(s: seq<T>, le: (T, T) -> bool)
    requires Total(le) && Transitive(le)
    ensures SortedBy(Sort(s, le), le)
  {
    if s != [] {
      SortSorts(s[1..], le);
      InsertSorted(s[0], Sort(s[1..], le), le);
    }
  }

  /** Sorting what is already in order moves nothing, whatever the comparator is. */
  lemma {:induction false} SortedIsFixed<T(!new)>(s: seq<T>, le: (T, T) -> bool)
    requires SortedBy(s, le)
    ensures Sort(s, le) == s
  {
    if s != [] {
      SortedIsFixed(s[1..], le);
      assert s == [s[0]] + s[1..];
      if |s| > 1 { assert le(s[0], s[1]); }
    }
  }

  lemma {:induction false} SortNoDup<T(!new)>(s: seq<T>, le: (T, T) -> bool)
    requires NoDup(s)
    ensures NoDup(Sort(s, le))
  {
    var r := Sort(s, le);
    NoDupCard(s);
    assert Elems(r) == Elems(s);
    CardNoDup(r);
  }

  lemma {:induction false} CardNoDup<T>(s: seq<T>)
    requires |Elems(s)| == |s|
    ensures NoDup(s)
  {
    if s != [] {
      var front, last := s[..|s| - 1], s[|s| - 1];
      assert Elems(s) == Elems(front) + {last};
      ElemsBound(front);
      CardNoDup(front);
      assert last !in Elems(front);
    }
  }

  lemma {:induction false} ElemsBound<T>(s: seq<T>)
    ensures |Elems(s)| <= |s|
  {
    if s != [] {
      ElemsBound(s[..|s| - 1]);
      assert Elems(s) == Elems(s[..|s| - 1]) + {s[|s| - 1]};
    }
  }

  /** The members of `p` all compare as equal. */
  ghost predicate IsClass<T(!new)>(le: (T, T) -> bool, p: T -> bool) {
    forall x, y :: p(x) && p(y) ==> le(x, y)
  }

  lemma {:induction false} InsertIsStable<T(!new)>(x: T, s: seq<T>, le: (T, T) -> bool, p: T -> bool)
    requires IsClass(le, p)
    ensures Filter(Insert(x, s, le), p) == (if p(x) then [x] else []) + Filter(s, p)
  {
    if s == [] || le(x, s[0]) {
      FilterHead(x, s, p);
    } else {
      InsertIsStable(x, s[1..], le, p);
      FilterHead(s[0], Insert(x, s[1..], le), p);
      FilterHead(s[0], s[1..], p);
      assert s == [s[0]] + s[1..];
      if p(x) { assert !p(s[0]); }
    }
  }

  lemma FilterHead<T(!new)>(x: T, s: seq<T>, p: T -> bool)
    ensures Filter([x] + s, p) == (if p(x) then [x] else []) + Filter(s, p)
  {
    FilterConcat([x], s, p);
    assert [x] == [] + [x];
  }

  /** Elements that compare as equal keep their order. */
  lemma {:induction false} SortIsStable<T(!new)>(s: seq<T>, le: (T, T) -> bool, p: T -> bool)
    requires IsClass(le, p)
    ensures Filter(Sort(s, le), p) == Filter(s, p)
  {
    if s != [] {
      SortIsStable(s[1..], le, p);
      InsertIsStable(s[0], Sort(s[1..], le), le, p);
      FilterHead(s[0], s[1..], p);
      assert s == [s[0]] + s[1..];
    }
  }

  /** An order that tells the elements apart leaves only one way to sort them. */
  lemma {:induction false} SortedUnique<T(!new)>(s: seq<T>, t: seq<T>, le: (T, T) -> bool)
    requires SortedBy(s, le) && SortedBy(t, le) && NoDup(s) && NoDup(t)
    requires Elems(s) == Elems(t)
    requires forall x, y :: x in s && y in s && le(x, y) && le(y, x) ==> x == y
    ensures s == t
  {
    NoDupCard(s);
    NoDupCard(t);
    if s != [] {
      assert s[0] in Elems(t) && t[0] in Elems(s);
      assert s[0] == t[0];
      assert Elems(s[1..]) == Elems(s) - {s[0]} && Elems(t[1..]) == Elems(t) - {t[0]} by {
        assert s == [s[0]] + s[1..] && t == [t[0]] + t[1..];
      }
      SortedUnique(s[1..], t[1..], le);
      assert s == [s[0]] + s[1..] && t == [t[0]] + t[1..];
    }
  }
}

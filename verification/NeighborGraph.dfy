/** The graph an index searches, what is reachable in it, and the brute-force scan it stands in for. */
module NeighborGraph {
  import opened Common
  import opened Sorting

  type Id = string
  type Vector = seq<real>
  type Similarity = (Vector, Vector) -> real

  datatype Hit = Hit(id: Id, score: real)

  /** `neighbors` is a `Set`: no duplicates, iterated in insertion order. */
  datatype Node = Node(vector: Vector, neighbors: seq<Id>)

  type Graph = map<Id, Node>

  function Vectors(g: Graph): map<Id, Vector> { map id | id in g :: g[id].vector }

  lemma VectorsSet(g: Graph, id: Id, node: Node)
    ensures Vectors(g[id := node]) == Vectors(g)[id := node.vector]
    ensures id in g && node.vector == g[id].vector ==> Vectors(g[id := node]) == Vectors(g)
  {
  }

  ghost predicate Closed(g: Graph) {
    forall a, b :: a in g && b in g[a].neighbors ==> b in g
  }

  ghost predicate Complete(g: Graph) {
    forall a, b :: a in g && b in g && a != b ==> b in g[a].neighbors
  }

  ghost predicate IsPath(g: Graph, p: seq<Id>) {
    && p != []
    && (forall i :: 0 <= i < |p| ==> p[i] in g)
    && (forall i, j :: 0 <= i && j == i + 1 && j < |p| ==> p[j] in g[p[i]].neighbors)
  }

  ghost predicate Reachable(g: Graph, a: Id, b: Id) {
    exists p: seq<Id> :: IsPath(g, p) && p[0] == a && p[|p| - 1] == b
  }

  ghost function ReachableSet(g: Graph, a: Id): set<Id> {
    set b | b in g && Reachable(g, a, b)
  }

  lemma ReachableSelf(g: Graph, a: Id)
    requires a in g
    ensures Reachable(g, a, a)
  {
    assert IsPath(g, [a]);
  }

  lemma ReachableStep(g: Graph, a: Id, b: Id, c: Id)
    requires Reachable(g, a, b) && c in g && c in g[b].neighbors
    ensures Reachable(g, a, c)
  {
    var p :| IsPath(g, p) && p[0] == a && p[|p| - 1] == b;
    var q := p + [c];
    assert IsPath(g, q) && q[0] == a && q[|q| - 1] == c;
  }

  lemma {:induction false} PathStaysInside(g: Graph, inside: set<Id>, p: seq<Id>, n: nat)
    requires IsPath(g, p) && p[0] in inside && n < |p|
    requires forall x, y :: x in inside && x in g && y in g[x].neighbors && y in g ==> y in inside
    ensures p[n] in inside
  {
    if n > 0 { PathStaysInside(g, inside, p, n - 1); }
  }

  /** A set holding `a` and every stored neighbour of its members holds all that `a` reaches. */
  lemma ReachableInside(g: Graph, a: Id, inside: set<Id>)
    requires a in inside
    requires forall x, y :: x in inside && x in g && y in g[x].neighbors && y in g ==> y in inside
    ensures ReachableSet(g, a) <= inside
  {
    forall b | b in ReachableSet(g, a) ensures b in inside {
      var p :| IsPath(g, p) && p[0] == a && p[|p| - 1] == b;
      PathStaysInside(g, inside, p, |p| - 1);
    }
  }

  lemma CompleteReachesAll(g: Graph, a: Id)
    requires Complete(g) && a in g
    ensures ReachableSet(g, a) == g.Keys
  {
    forall b | b in g ensures Reachable(g, a, b) {
      ReachableSelf(g, a);
      if b != a { ReachableStep(g, a, a, b); }
    }
  }

  // ---- result lists ----

  ghost predicate SortedDesc(items: seq<Hit>) {
    forall i, j :: 0 <= i < j < |items| ==> items[i].score >= items[j].score
  }

  ghost predicate DistinctIds(items: seq<Hit>) {
    forall i, j :: 0 <= i < j < |items| ==> items[i].id != items[j].id
  }

  ghost predicate TrueScores(items: seq<Hit>, vectors: map<Id, Vector>, sim: Similarity, query: Vector) {
    forall h :: h in items ==> h.id in vectors && h.score == sim(query, vectors[h.id])
  }

  ghost function Ids(items: seq<Hit>): set<Id> { set h | h in items :: h.id }

  function Scores(items: seq<Hit>): seq<real> { seq(|items|, i requires 0 <= i < |items| => items[i].score) }

  /** The length of `list.slice(0, k)`: a negative `k` counts from the end. */
  function SliceCount(len: nat, k: int): (n: nat)
    ensures n <= len
  {
    if k >= 0 then Min(k, len) else Max(0, len + k)
  }

  /** `r` is a correctly scored, best-first list of the top `SliceCount(|pool|, k)` members of `pool`. */
  ghost predicate IsTopK(r: seq<Hit>, pool: set<Id>, k: int,
                         vectors: map<Id, Vector>, sim: Similarity, query: Vector)
    requires pool <= vectors.Keys
  {
    && SortedDesc(r) && DistinctIds(r) && TrueScores(r, vectors, sim, query)
    && Ids(r) <= pool
    && |r| == SliceCount(|pool|, k)
    && (forall x, h :: x in pool && x !in Ids(r) && h in r ==> sim(query, vectors[x]) <= h.score)
  }

  lemma {:induction false} IdsCard(items: seq<Hit>)
    requires DistinctIds(items)
    ensures |Ids(items)| == |items|
  {
    if items != [] {
      var front, last := items[..|items| - 1], items[|items| - 1];
      IdsCard(front);
      assert items == front + [last];
      assert Ids(items) == Ids(front) + {last.id};
      assert last.id !in Ids(front);
    }
  }

  /** Two top-k lists of one pool can differ only in how they break ties. */
  lemma TopKScoresUnique(r: seq<Hit>, s: seq<Hit>, pool: set<Id>, k: int,
                         vectors: map<Id, Vector>, sim: Similarity, query: Vector)
    requires pool <= vectors.Keys
    requires IsTopK(r, pool, k, vectors, sim, query) && IsTopK(s, pool, k, vectors, sim, query)
    ensures Scores(r) == Scores(s)
  {
    forall i | 0 <= i < |r| ensures r[i].score == s[i].score {
      if r[i].score > s[i].score {
        RankGap(r, s, i, pool, k, vectors, sim, query);
      } else if r[i].score < s[i].score {
        RankGap(s, r, i, pool, k, vectors, sim, query);
      }
    }
  }

  lemma RankGap(r: seq<Hit>, s: seq<Hit>, i: nat, pool: set<Id>, k: int,
                vectors: map<Id, Vector>, sim: Similarity, query: Vector)
    requires pool <= vectors.Keys
    requires IsTopK(r, pool, k, vectors, sim, query) && IsTopK(s, pool, k, vectors, sim, query)
    requires i < |r|
    ensures r[i].score <= s[i].score
  {
    if r[i].score > s[i].score {
      var better, room := r[..i + 1], s[..i];
      forall x | x in Ids(better) ensures x in Ids(room) {
        var j := PositionOf(better, x);
        assert r[j] == better[j] && r[j] in r && s[i] in s;
        assert sim(query, vectors[x]) > s[i].score;
        var n := PositionOf(s, x);
        assert s[n] in s;
        assert room[n] in room;
      }
      IdsCard(better);
      IdsCard(room);
      SubsetCard(Ids(better), Ids(room));
      assert false;
    }
  }

  // ---- the scan the index replaces ----

  function Scan(ids: seq<Id>, vectors: map<Id, Vector>, sim: Similarity, query: Vector): (r: seq<Hit>)
    requires forall id :: id in ids ==> id in vectors
  {
    seq(|ids|, i requires 0 <= i < |ids| => Hit(ids[i], sim(query, vectors[ids[i]])))
  }

  function Better(): (Hit, Hit) -> bool { (a: Hit, b: Hit) => a.score >= b.score }

  /** Score every stored vector, sort best first, keep k. */
  function BruteForce(ids: seq<Id>, vectors: map<Id, Vector>, sim: Similarity, query: Vector, k: int): (r: seq<Hit>)
    requires forall id :: id in ids ==> id in vectors
  {
    var all := Sort(Scan(ids, vectors, sim, query), Better());
    all[..SliceCount(|all|, k)]
  }

  lemma RankingFacts(ids: seq<Id>, vectors: map<Id, Vector>, sim: Similarity, query: Vector)
    requires NoDup(ids) && forall id :: id in ids ==> id in vectors
    ensures var all := Sort(Scan(ids, vectors, sim, query), Better());
            SortedDesc(all) && DistinctIds(all) && TrueScores(all, vectors, sim, query) && Ids(all) == Elems(ids)
  {
    var scan := Scan(ids, vectors, sim, query);
    var all := Sort(scan, Better());
    SortSorts(scan, Better());
    SortNoDup(scan, Better());
    forall i, j | 0 <= i < j < |all| ensures all[i].id != all[j].id {
      assert all[i] in scan && all[j] in scan;
    }
    forall id | id in ids ensures id in Ids(all) {
      var i :| 0 <= i < |ids| && ids[i] == id;
      assert scan[i] in all;
    }
  }

  lemma BruteForceIsTopK(ids: seq<Id>, vectors: map<Id, Vector>, sim: Similarity, query: Vector, k: int)
    requires NoDup(ids) && Elems(ids) <= vectors.Keys
    ensures forall id :: id in ids ==> id in vectors
    ensures IsTopK(BruteForce(ids, vectors, sim, query, k), Elems(ids), k, vectors, sim, query)
  {
    assert forall id :: id in ids ==> id in Elems(ids);
    var all := Sort(Scan(ids, vectors, sim, query), Better());
    RankingFacts(ids, vectors, sim, query);
    NoDupCard(ids);
    PrefixIsTopK(all, Elems(ids), k, vectors, sim, query);
  }

  /** Cutting a full ranking of the pool leaves its top k. */
  lemma PrefixIsTopK(all: seq<Hit>, pool: set<Id>, k: int,
                     vectors: map<Id, Vector>, sim: Similarity, query: Vector)
    requires pool <= vectors.Keys
    requires SortedDesc(all) && DistinctIds(all) && TrueScores(all, vectors, sim, query)
    requires Ids(all) == pool
    ensures IsTopK(all[..SliceCount(|all|, k)], pool, k, vectors, sim, query)
  {
    IdsCard(all);
    var n := SliceCount(|all|, k);
    var r := all[..n];
    assert forall t :: 0 <= t < n ==> all[t] in r;
    forall x, h | x in pool && x !in Ids(r) && h in r ensures sim(query, vectors[x]) <= h.score {
      var i := PositionOf(all, x);
      var j :| 0 <= j < |r| && r[j] == h;
      assert all[i] in all;
      assert i >= n && all[j] == h;
    }
  }

  lemma PositionOf(items: seq<Hit>, id: Id) returns (i: nat)
    requires id in Ids(items)
    ensures i < |items| && items[i].id == id
  {
    var h :| h in items && h.id == id;
    i :| 0 <= i < |items| && items[i] == h;
  }
}

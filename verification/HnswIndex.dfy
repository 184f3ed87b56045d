/** The in-memory vector index: a neighbour graph searched best-first. */
module HnswIndex {
  import opened Common
  import opened OrderedMaps
  import opened NeighborGraph
  import opened BestFirstSearch
  import SearchExtent
  import opened Sorting

  datatype VectorError = WrongSize(expected: int, got: int)

  method FindInsertIndexDesc(items: seq<Hit>, score: real) returns (lo: nat)
    requires SortedDesc(items)
    ensures lo <= |items| && lo == Place(items, score)
    ensures forall i :: 0 <= i < lo ==> items[i].score >= score
    ensures forall i :: lo <= i < |items| ==> items[i].score < score
  {
    lo := 0;
    var hi := |items|;
    while lo < hi
      invariant 0 <= lo <= hi <= |items|
      invariant forall i :: 0 <= i < lo ==> items[i].score >= score
      invariant forall i :: hi <= i < |items| ==> items[i].score < score
    {
      var mid := (lo + hi) / 2;
      if score > items[mid].score {
        hi := mid;
      } else {
        lo := mid + 1;
      }
    }
    OnePlace(items, score, lo);
  }

  lemma OnePlace(items: seq<Hit>, score: real, at: nat)
    requires at <= |items|
    requires forall i :: 0 <= i < at ==> items[i].score >= score
    requires forall i :: at <= i < |items| ==> items[i].score < score
    ensures at == Place(items, score)
  {
    var other := Place(items, score);
    assert other > 0 ==> items[other - 1].score >= score;
  }

  /** Both work lists grow this way: after every entry that scores at least as well. */
  method PushSorted(items: seq<Hit>, hit: Hit) returns (r: seq<Hit>)
    requires SortedDesc(items)
    ensures r == Pushed(items, hit)
    ensures SortedDesc(r) && |r| == |items| + 1
    ensures forall h :: h in r <==> h == hit || h in items
  {
    var at := FindInsertIndexDesc(items, hit.score);
    r := Splice(items, at, hit);
    PushedFacts(items, hit);
  }

  /** The result list drops its last entry when it overflows: what is not kept is no better than anything that is. */
  method PushBest(best: seq<Hit>, hit: Hit, ef: nat) returns (r: seq<Hit>)
    requires SortedDesc(best) && DistinctIds(best) && hit.id !in Ids(best) && |best| <= ef && ef >= 1
    ensures r == PushedBest(best, hit, ef)
    ensures SortedDesc(r) && DistinctIds(r) && |r| == Min(ef, |best| + 1)
    ensures forall h :: h in r ==> h == hit || h in best
    ensures forall h, x :: (h == hit || h in best) && h !in r && x in r ==> h.score <= x.score
    ensures forall t :: 0 <= t < |best| ==> r[t].score >= best[t].score
  {
    hide Pushed;
    r := PushSorted(best, hit);
    if |r| > ef {
      r := r[..|r| - 1];
    }
    PushedBestFacts(best, hit, ef);
  }

  lemma SeededLists(seed: Hit, ef: nat)
    requires ef >= 1
    ensures Pushed([], seed) == [seed] && PushedBest([], seed, ef) == [seed]
    ensures ListsInOrder(Work([seed], [seed], {seed.id}), ef)
  {
  }

  /** What the two lists satisfy whenever something is pushed. */
  ghost predicate ListsInOrder(w: Work, ef: nat) {
    && SortedDesc(w.candidates)
    && SortedDesc(w.best) && DistinctIds(w.best) && 1 <= |w.best| <= ef && Ids(w.best) <= w.visited
  }

  // ---- degree trimming ----

  function WithNeighbor(node: Node, id: Id): Node {
    if id in node.neighbors then node else node.(neighbors := node.neighbors + [id])
  }

  function RankScore(vectors: map<Id, Vector>, sim: Similarity, from: Vector, id: Id): real {
    if id in vectors then sim(from, vectors[id]) else -1.0
  }

  function Ranked(vectors: map<Id, Vector>, sim: Similarity, node: Node): (r: seq<Hit>) {
    Sort(ScoredNeighbors(vectors, sim, node), Better())
  }

  /** The neighbours left after `trimNeighbors`: at most `limit`, the closest ones first. */
  function Trimmed(vectors: map<Id, Vector>, sim: Similarity, limit: nat, node: Node): seq<Id> {
    if |node.neighbors| <= limit then node.neighbors
    else
      var kept := Ranked(vectors, sim, node)[..limit];
      seq(limit, i requires 0 <= i < limit => kept[i].id)
  }

  function ScoredNeighbors(vectors: map<Id, Vector>, sim: Similarity, node: Node): seq<Hit> {
    seq(|node.neighbors|, i requires 0 <= i < |node.neighbors| =>
      Hit(node.neighbors[i], RankScore(vectors, sim, node.vector, node.neighbors[i])))
  }

  lemma RankedFacts(vectors: map<Id, Vector>, sim: Similarity, node: Node)
    requires NoDup(node.neighbors)
    ensures var all := Ranked(vectors, sim, node);
            && |all| == |node.neighbors| && SortedDesc(all) && DistinctIds(all)
            && (forall h :: h in all ==> h.id in node.neighbors)
            && (forall h :: h in all ==> h.score == RankScore(vectors, sim, node.vector, h.id))
            && Ids(all) == Elems(node.neighbors)
  {
    var scored := ScoredNeighbors(vectors, sim, node);
    var all := Ranked(vectors, sim, node);
    SortSorts(scored, Better());
    SortNoDup(scored, Better());
    forall i, j | 0 <= i < j < |all| ensures all[i].id != all[j].id {
      assert all[i] in scored && all[j] in scored;
    }
    forall x | x in node.neighbors ensures x in Ids(all) {
      var m :| 0 <= m < |node.neighbors| && node.neighbors[m] == x;
      assert scored[m] in all;
    }
  }

  lemma TrimKeepsClosest(vectors: map<Id, Vector>, sim: Similarity, limit: nat, node: Node)
    requires NoDup(node.neighbors)
    ensures var r := Trimmed(vectors, sim, limit, node);
            && NoDup(r) && Elems(r) <= Elems(node.neighbors)
            && |r| == Min(|node.neighbors|, limit)
            && (|node.neighbors| <= limit ==> r == node.neighbors)
            && (|node.neighbors| > limit ==> forall i, j :: 0 <= i < j < |r| ==>
                  RankScore(vectors, sim, node.vector, r[i]) >= RankScore(vectors, sim, node.vector, r[j]))
            && (forall x, y :: x in node.neighbors && x !in r && y in r ==>
                  RankScore(vectors, sim, node.vector, x) <= RankScore(vectors, sim, node.vector, y))
  {
    if |node.neighbors| > limit {
      RankedFacts(vectors, sim, node);
      var all := Ranked(vectors, sim, node);
      var r := Trimmed(vectors, sim, limit, node);
      assert forall i :: 0 <= i < limit ==> r[i] == all[i].id && all[i] in all;
      forall x, y | x in node.neighbors && x !in r && y in r
        ensures RankScore(vectors, sim, node.vector, x) <= RankScore(vectors, sim, node.vector, y)
      {
        assert x in Elems(node.neighbors);
        var i := PositionOf(all, x);
        var j :| 0 <= j < |r| && r[j] == y;
        assert i >= limit;
        assert all[i] in all && all[j] in all;
      }
    }
  }

  // ---- linking ----

  ghost predicate NodeOk(limit: nat, id: Id, node: Node) {
    NoDup(node.neighbors) && id !in node.neighbors && |node.neighbors| <= limit
  }

  ghost predicate GraphOk(g: Graph, limit: nat) {
    Closed(g) && forall a :: a in g ==> NodeOk(limit, a, g[a])
  }

  function IdList(hits: seq<Hit>): seq<Id> { seq(|hits|, i requires 0 <= i < |hits| => hits[i].id) }

  lemma IdListFacts(hits: seq<Hit>)
    requires DistinctIds(hits)
    ensures NoDup(IdList(hits)) && Elems(IdList(hits)) == Ids(hits) && |IdList(hits)| == |hits|
    ensures forall i :: 0 <= i < |hits| ==> IdList(hits)[i] == hits[i].id
  {
    forall x | x in Ids(hits) ensures x in IdList(hits) {
      var i := PositionOf(hits, x);
      assert IdList(hits)[i] == x;
    }
    forall x | x in IdList(hits) ensures x in Ids(hits) {
      var i :| 0 <= i < |hits| && IdList(hits)[i] == x;
      assert hits[i] in hits;
    }
  }

  /** A neighbour after the new node `id` was added to its set and the set trimmed. */
  function Linked(vectors: map<Id, Vector>, sim: Similarity, limit: nat, node: Node, id: Id): Node {
    node.(neighbors := Trimmed(vectors, sim, limit, WithNeighbor(node, id)))
  }

  /** `after` is `g` with the new node `id`, linked both ways to `links` up to trimming; the rest is untouched. */
  ghost predicate LinkedIn(g: Graph, after: Graph, id: Id, vector: Vector, links: seq<Id>, sim: Similarity, limit: nat)
  {
    && after.Keys == g.Keys + {id}
    && after[id] == Node(vector, links)
    && (forall a :: a in g && a !in links ==> after[a] == g[a])
    && (forall a :: a in g && a in links ==> after[a] == Linked(Vectors(g)[id := vector], sim, limit, g[a], id))
  }

  /** The nodes of `done` have gained the link to `id`; the rest is as before. */
  ghost predicate BackLinked(g: Graph, after: Graph, id: Id, done: set<Id>, sim: Similarity, limit: nat) {
    && after.Keys == g.Keys
    && (forall a :: a in g && a in done ==> after[a] == Linked(Vectors(g), sim, limit, g[a], id))
    && (forall a :: a in g && a !in done ==> after[a] == g[a])
    && Vectors(after) == Vectors(g)
  }

  lemma BackLinkStep(g: Graph, mid: Graph, id: Id, done: set<Id>, m: Id, sim: Similarity, limit: nat)
    requires BackLinked(g, mid, id, done, sim, limit) && m in g && m !in done
    ensures BackLinked(g, mid[m := Linked(Vectors(g), sim, limit, mid[m], id)], id, done + {m}, sim, limit)
  {
    VectorsSet(mid, m, Linked(Vectors(g), sim, limit, mid[m], id));
  }

  lemma BackLinkedIsLinkedIn(g: Graph, after: Graph, id: Id, vector: Vector, links: seq<Id>, sim: Similarity,
                             limit: nat)
    requires id !in g && Elems(links) <= g.Keys
    requires BackLinked(g[id := Node(vector, links)], after, id, Elems(links), sim, limit)
    ensures LinkedIn(g, after, id, vector, links, sim, limit)
  {
    VectorsSet(g, id, Node(vector, links));
    assert id !in Elems(links);
  }

  /** A trimmed back link is either kept, or crowded out by `limit` neighbours that are all at least as close. */
  ghost predicate LinkKeptOrCrowdedOut(after: Graph, a: Id, id: Id, sim: Similarity, limit: nat)
    requires a in after && id in after
  {
    || id in after[a].neighbors
    || (|after[a].neighbors| == limit
        && forall y :: y in after[a].neighbors ==>
             y in after && sim(after[a].vector, after[y].vector) >= sim(after[a].vector, after[id].vector))
  }

  lemma LinkedNodeFacts(g: Graph, vectors: map<Id, Vector>, sim: Similarity, limit: nat, a: Id, id: Id)
    requires GraphOk(g, limit) && a in g && id !in g && vectors.Keys == g.Keys + {id}
    ensures var r := Linked(vectors, sim, limit, g[a], id);
            && r.vector == g[a].vector
            && NodeOk(limit, a, r)
            && (forall y :: y in r.neighbors ==> y in vectors)
            && (|g[a].neighbors| < limit ==> r.neighbors == g[a].neighbors + [id])
            && (id !in r.neighbors ==> |r.neighbors| == limit)
            && (id !in r.neighbors ==>
                  forall y :: y in r.neighbors ==> sim(g[a].vector, vectors[y]) >= sim(g[a].vector, vectors[id]))
  {
    hide Trimmed, RankScore;
    var grown := WithNeighbor(g[a], id);
    TrimKeepsClosest(vectors, sim, limit, grown);
    NothingTrimmed(vectors, sim, limit, grown);
    RanksAreScores(vectors, sim, g[a].vector);
    var r := Linked(vectors, sim, limit, g[a], id);
    forall y | y in r.neighbors ensures y in grown.neighbors {
      assert y in Elems(r.neighbors);
    }
    assert NoDup(grown.neighbors);
  }

  lemma NothingTrimmed(vectors: map<Id, Vector>, sim: Similarity, limit: nat, node: Node)
    ensures |node.neighbors| <= limit ==> Trimmed(vectors, sim, limit, node) == node.neighbors
  {
  }

  lemma RanksAreScores(vectors: map<Id, Vector>, sim: Similarity, from: Vector)
    ensures forall x :: RankScore(vectors, sim, from, x) == if x in vectors then sim(from, vectors[x]) else -1.0
  {
  }

  lemma LinkingKeepsGraphOk(g: Graph, after: Graph, id: Id, vector: Vector, links: seq<Id>, sim: Similarity, limit: nat)
    requires GraphOk(g, limit) && id !in g
    requires NoDup(links) && Elems(links) <= g.Keys && |links| <= limit
    requires LinkedIn(g, after, id, vector, links, sim, limit)
    ensures GraphOk(after, limit)
    ensures Vectors(after) == Vectors(g)[id := vector]
    ensures forall a :: a in links ==> LinkKeptOrCrowdedOut(after, a, id, sim, limit)
  {
    var vectors := Vectors(g)[id := vector];
    forall x | x in links ensures x in g { assert x in Elems(links); }
    forall a | a in g && a in links
      ensures NodeOk(limit, a, after[a]) && after[a].vector == g[a].vector
      ensures forall y :: y in after[a].neighbors ==> y in after
      ensures id !in after[a].neighbors ==> |after[a].neighbors| == limit
      ensures id !in after[a].neighbors ==>
                forall y :: y in after[a].neighbors ==> sim(g[a].vector, vectors[y]) >= sim(g[a].vector, vectors[id])
    {
      LinkedNodeFacts(g, vectors, sim, limit, a, id);
    }
    assert forall a :: a in after ==> after[a].vector == vectors[a];
  }

  /** Below the degree limit nothing is trimmed: linking a new node to everything keeps the graph complete. */
  lemma LinkingKeepsComplete(g: Graph, after: Graph, id: Id, vector: Vector, links: seq<Id>, sim: Similarity,
                             limit: nat)
    requires GraphOk(g, limit) && id !in g && Complete(g)
    requires Elems(links) == g.Keys && |g| <= limit
    requires LinkedIn(g, after, id, vector, links, sim, limit)
    ensures Complete(after)
  {
    var vectors := Vectors(g)[id := vector];
    forall a | a in g ensures after[a].neighbors == g[a].neighbors + [id] {
      assert a in Elems(links);
      NoDupCard(g[a].neighbors);
      SubsetCard(Elems(g[a].neighbors), g.Keys - {a});
      LinkedNodeFacts(g, vectors, sim, limit, a, id);
    }
    forall a, b | a in after && b in after && a != b ensures b in after[a].neighbors {
      if a == id { assert b in Elems(links); }
    }
  }

  /** In a complete graph a search with room for every node finds every node. */
  lemma CompleteAnswerFindsAll(p: Problem, entry: Id, k: int, result: seq<Hit>)
    requires entry in p.g && p.ef >= 1 && Closed(p.g) && Complete(p.g)
    requires IsAnswer(p, entry, k, result)
    requires k >= |p.g|
    ensures Ids(result) == p.g.Keys
  {
    hide IsAnswer;
    AnswerFacts(p, entry, k, result);
    CompleteReachesAll(p.g, entry);
    IdsCard(result);
    SubsetCard(Ids(result), p.g.Keys);
  }

  lemma AmpleAnswer(p: Problem, entry: Id, k: int, result: seq<Hit>, limit: nat)
    requires entry in p.g && p.ef >= 1 && limit >= 1 && GraphOk(p.g, limit)
    requires IsAnswer(p, entry, k, result) && Ample(p.ef, k, limit)
    ensures NoneBetter(p, result, BestFirstSearch.Search(p, entry).visited)
  {
    hide BestFirstSearch.Search;
    assert DegreeWithin(p.g, limit);
  }

  class HnswIndex {
    const dimensions: int
    const maxNeighbors: nat
    const efSearch: nat
    const normalize: Vector -> Vector
    const cosine: Similarity
    var nodes: OrderedMap<Id, Node>
    var entryPointId: Option<Id>

    ghost predicate Valid()
      reads this
    {
      && maxNeighbors >= 2 && efSearch >= 4
      && nodes.Valid()
      && GraphOk(nodes.vals, maxNeighbors)
      && (entryPointId.Some? <==> nodes.keys != [])
      && (entryPointId.Some? ==> entryPointId.value in nodes.vals)
    }

    /** The vectors a brute-force scan would look at, in the order their ids were first stored. */
    ghost function Contents(): (c: OrderedMap<Id, Vector>)
      reads this
      requires nodes.Valid()
      ensures c.Valid()
    {
      OrderedMap(nodes.keys, Vectors(nodes.vals))
    }

    constructor (dimensions: int, maxNeighbors: int, efSearch: int, normalize: Vector -> Vector, cosine: Similarity)
      ensures Valid() && nodes == Empty()
      ensures this.dimensions == dimensions && this.normalize == normalize && this.cosine == cosine
      ensures this.maxNeighbors == Max(2, maxNeighbors) && this.efSearch == Max(4, efSearch)
    {
      this.dimensions := dimensions;
      this.maxNeighbors := Max(2, maxNeighbors);
      this.efSearch := Max(4, efSearch);
      this.normalize := normalize;
      this.cosine := cosine;
      nodes := Empty();
      entryPointId := None;
    }

    /** The node a search starts from. An empty id is falsy, so it never pins the entry point. */
    ghost function EntryId(): Id
      reads this
      requires nodes.Valid() && nodes.keys != []
    {
      if entryPointId.Some? && entryPointId.value != "" && entryPointId.value in nodes.vals
      then entryPointId.value else nodes.keys[0]
    }

    method PickEntryPoint() returns (id: Id)
      requires nodes.Valid() && nodes.keys != []
      modifies this`entryPointId
      ensures id == old(EntryId()) && id in nodes.vals && entryPointId == Some(id)
      ensures old(entryPointId.Some? && entryPointId.value != "" && entryPointId.value in nodes.vals) ==>
                Some(id) == old(entryPointId)
      ensures !old(entryPointId.Some? && entryPointId.value != "" && entryPointId.value in nodes.vals) ==>
                id == nodes.keys[0]
    {
      if entryPointId.Some? && entryPointId.value != "" && entryPointId.value in nodes.vals {
        return entryPointId.value;
      }
      assert nodes.keys[0] in Elems(nodes.keys);
      entryPointId := Some(nodes.keys[0]);
      return nodes.keys[0];
    }

    /** The search for `query` with results cut to `k`. */
    ghost function Task(query: Vector, k: int): (p: Problem)
      reads this
    {
      Problem(nodes.vals, Max(k, efSearch), cosine, query)
    }

    /** Only the dictionary itself has to be in order: links and entry point may dangle, as in a loaded index. */
    method SearchInternal(query: Vector, k: int) returns (result: seq<Hit>, visited: set<Id>)
      requires nodes.Valid() && efSearch >= 4
      modifies this`entryPointId
      ensures nodes.keys == [] ==> result == [] && visited == {} && entryPointId == old(entryPointId)
      ensures nodes.keys != [] ==>
                && old(EntryId()) in nodes.vals && entryPointId == Some(old(EntryId()))
                && IsAnswer(Task(query, k), old(EntryId()), k, result)
                && visited == BestFirstSearch.Search(Task(query, k), old(EntryId())).visited
    {
      hide IsAnswer, BestFirstSearch.Search, IsBestList;
      if nodes.keys == [] {
        return [], {};
      }
      var ef := Max(k, efSearch);
      var entry := PickEntryPoint();
      var best;
      best, visited := BestFirst(entry, query, ef);
      result := best[..SliceCount(|best|, k)];
      SearchAnswers(Problem(nodes.vals, ef, cosine, query), entry, k);
    }

    method BestFirst(entry: Id, query: Vector, ef: nat) returns (best: seq<Hit>, visited: set<Id>)
      requires nodes.Valid() && ef >= 4 && entry in nodes.vals
      ensures var p := Problem(nodes.vals, ef, cosine, query);
              && best == BestFirstSearch.Search(p, entry).best && visited == BestFirstSearch.Search(p, entry).visited
              && IsBestList(p, entry, BestFirstSearch.Search(p, entry))
    {
      hide Traverse, IsBestList, PushedBest;
      var seed := Hit(entry, cosine(query, nodes.vals[entry].vector));
      var candidates := PushSorted([], seed);
      best := PushBest([], seed, ef);
      visited := {entry};
      SeededLists(seed, ef);
      best, visited := Explore(query, ef, candidates, best, visited);
      SearchIsBest(Problem(nodes.vals, ef, cosine, query), entry);
    }

    /** The traversal: expand the best candidate until nothing left can improve a full result list. */
    method Explore(query: Vector, ef: nat, candidates0: seq<Hit>, best0: seq<Hit>, visited0: set<Id>)
      returns (best: seq<Hit>, visited: set<Id>)
      requires nodes.Valid() && ef >= 4 && ListsInOrder(Work(candidates0, best0, visited0), ef)
      ensures var r := Traverse(Problem(nodes.vals, ef, cosine, query), Work(candidates0, best0, visited0));
              best == r.best && visited == r.visited
    {
      hide Traverse, VisitAll;
      ghost var p, start := Problem(nodes.vals, ef, cosine, query), Work(candidates0, best0, visited0);
      KeyCount(nodes);
      var candidates := candidates0;
      best, visited := best0, visited0;
      while candidates != [] && |visited| < |nodes.keys|
        invariant ListsInOrder(Work(candidates, best, visited), ef)
        invariant Traverse(p, Work(candidates, best, visited)) == Traverse(p, start)
        decreases |nodes.keys| - |visited|, |candidates|
      {
        TraverseStep(p, Work(candidates, best, visited));
        var current := candidates[0];
        var worstBest := best[|best| - 1].score;
        if |best| >= ef && current.score < worstBest {
          break;
        }
        candidates := candidates[1..];
        if current.id !in nodes.vals {
          continue;
        }
        candidates, best, visited := VisitNeighbors(current.id, query, ef, worstBest, candidates, best, visited);
      }
      TraverseStep(p, Work(candidates, best, visited));
    }

    /** The loop over one node's neighbours. `worstBest` was read before the loop and goes stale inside it. */
    method VisitNeighbors(from: Id, query: Vector, ef: nat, worstBest: real,
                          candidates0: seq<Hit>, best0: seq<Hit>, visited0: set<Id>)
      returns (candidates: seq<Hit>, best: seq<Hit>, visited: set<Id>)
      requires ef >= 4 && from in nodes.vals && ListsInOrder(Work(candidates0, best0, visited0), ef)
      ensures ListsInOrder(Work(candidates, best, visited), ef)
      ensures Work(candidates, best, visited) ==
              VisitAll(Problem(nodes.vals, ef, cosine, query), worstBest, Work(candidates0, best0, visited0),
                       nodes.vals[from].neighbors)
    {
      hide Pushed, PushedBest, VisitAll;
      ghost var p, w := Problem(nodes.vals, ef, cosine, query), Work(candidates0, best0, visited0);
      candidates, best, visited := candidates0, best0, visited0;
      var neighbors := nodes.vals[from].neighbors;
      VisitNone(p, worstBest, w, neighbors);
      for i := 0 to |neighbors|
        invariant ListsInOrder(Work(candidates, best, visited), ef)
        invariant Work(candidates, best, visited) == VisitAll(p, worstBest, w, neighbors[..i])
      {
        var id := neighbors[i];
        VisitOneMore(p, worstBest, w, neighbors, i);
        if id in visited {
          continue;
        }
        visited := visited + {id};
        if id !in nodes.vals {
          continue;
        }
        var score := cosine(query, nodes.vals[id].vector);
        if |best| < ef || score > worstBest {
          candidates := PushSorted(candidates, Hit(id, score));
          best := PushBest(best, Hit(id, score), ef);
        }
      }
      assert neighbors[..|neighbors|] == neighbors;
    }

    method TrimNeighbors(id: Id)
      requires nodes.Valid() && id in nodes.vals
      modifies this`nodes
      ensures nodes.Valid() && nodes.keys == old(nodes.keys)
      ensures nodes.vals == old(nodes.vals)[id := old(nodes.vals[id]).(neighbors :=
                Trimmed(Vectors(old(nodes.vals)), cosine, maxNeighbors, old(nodes.vals[id])))]
    {
      var node := nodes.vals[id];
      if |node.neighbors| <= maxNeighbors {
        return;
      }
      nodes := nodes.Set(id, node.(neighbors := Trimmed(Vectors(nodes.vals), cosine, maxNeighbors, node)));
    }

    /** Adds the back links from every neighbour of the freshly stored node `id`. */
    method LinkBack(id: Id)
      requires nodes.Valid() && id in nodes.vals && id !in nodes.vals[id].neighbors
      requires NoDup(nodes.vals[id].neighbors) && Elems(nodes.vals[id].neighbors) <= nodes.vals.Keys
      modifies this`nodes
      ensures nodes.Valid() && nodes.keys == old(nodes.keys)
      ensures BackLinked(old(nodes.vals), nodes.vals, id, Elems(old(nodes.vals)[id].neighbors), cosine, maxNeighbors)
    {
      ghost var g := nodes.vals;
      var links := nodes.vals[id].neighbors;
      for i := 0 to |links|
        invariant nodes.Valid() && nodes.keys == old(nodes.keys)
        invariant BackLinked(g, nodes.vals, id, Elems(links[..i]), cosine, maxNeighbors)
      {
        var m := links[i];
        ElemsStep(links, i);
        assert m in Elems(links) && m !in links[..i];
        BackLinkStep(g, nodes.vals, id, Elems(links[..i]), m, cosine, maxNeighbors);
        VectorsSet(nodes.vals, m, WithNeighbor(nodes.vals[m], id));
        ghost var mid := nodes.vals;
        SetTwice(mid, m, WithNeighbor(mid[m], id), Linked(Vectors(g), cosine, maxNeighbors, mid[m], id));
        nodes := nodes.Set(m, WithNeighbor(nodes.vals[m], id));
        TrimNeighbors(m);
        assert nodes.vals == mid[m := Linked(Vectors(g), cosine, maxNeighbors, mid[m], id)];
      }
      assert links[..|links|] == links;
    }

    /** A new node: its links are the hits of a search for its own vector, and every link is returned or crowded out. */
    ghost predicate Inserted(g: Graph, entry: Option<Id>, after: Graph, id: Id, vector: Vector)
    {
      && id in after
      && LinkedIn(g, after, id, vector, after[id].neighbors, cosine, maxNeighbors)
      && (forall a :: a in after[id].neighbors ==>
          a in after && LinkKeptOrCrowdedOut(after, a, id, cosine, maxNeighbors))
      && (g == map[] ==> after[id].neighbors == [])
      && (g != map[] ==> entry.Some? && entry.value in g)
      && (g != map[] ==>
            exists hits: seq<Hit> ::
              && after[id].neighbors == IdList(hits)
              && IsAnswer(Problem(g, Max(maxNeighbors, efSearch), cosine, vector), entry.value, maxNeighbors, hits))
    }

    /** A moved node: only it changes, to its new vector and links to the closest `maxNeighbors` other hits for it. */
    ghost predicate Moved(g: Graph, entry: Option<Id>, after: Graph, id: Id, vector: Vector)
      requires id in g
    {
      && entry.Some? && entry.value in g
      && exists hits: seq<Hit> ::
           && IsAnswer(Problem(g[id := g[id].(vector := vector)], Max(maxNeighbors + 1, efSearch), cosine, vector),
               entry.value, maxNeighbors + 1, hits)
           && after == g[id := Node(vector, IdList(OtherHits(hits, id)))]
    }

    /** The entry point a search would use, if there is one. */
    ghost function Entry(): Option<Id>
      reads this
      requires nodes.Valid()
    {
      if nodes.keys == [] then None else Some(EntryId())
    }

    /** What storing `vector` under `id` does to the graph. */
    ghost predicate Stores(g: Graph, entry: Option<Id>, after: Graph, id: Id, vector: Vector) {
      && Vectors(after) == Vectors(g)[id := vector]
      && (if id in g then Moved(g, entry, after, id, vector) else Inserted(g, entry, after, id, vector))
      && (Complete(g) && |after| <= maxNeighbors + 1 ==> Complete(after))
    }

    /** Links a node that is not stored yet, or hands over to `Update`. */
    method Add(id: Id, vector: Vector) returns (outcome: Result<(), VectorError>)
      requires Valid()
      modifies this`nodes, this`entryPointId
      decreases if id in nodes.vals then 1 else 0
      ensures Valid()
      ensures outcome == if |vector| == dimensions then Ok(()) else Err(WrongSize(dimensions, |vector|))
      ensures outcome.Err? ==> nodes == old(nodes) && entryPointId == old(entryPointId)
      ensures outcome.Ok? ==> Contents() == old(Contents()).Set(id, normalize(vector))
      ensures outcome.Ok? ==> Stores(old(nodes.vals), old(Entry()), nodes.vals, id, normalize(vector))
      // an entry point stays; the first node becomes one, and a new node replaces the one with the empty id
      ensures outcome.Ok? ==>
                entryPointId == (if old(Entry()).None? || (id !in old(nodes.vals) && old(Entry()) == Some(""))
                                 then Some(id) else old(Entry()))
    {
      if |vector| != dimensions {
        return Err(WrongSize(dimensions, |vector|));
      }
      if id in nodes.vals {
        outcome := Update(id, vector);
        return;
      }
      InsertNew(id, normalize(vector));
      outcome := Ok(());
    }

    method InsertNew(id: Id, vector: Vector)
      requires Valid() && id !in nodes.vals
      modifies this`nodes, this`entryPointId
      ensures Valid() && Contents() == old(Contents()).Set(id, vector)
      ensures Stores(old(nodes.vals), old(Entry()), nodes.vals, id, vector)
      ensures entryPointId == (if old(Entry()).None? || old(Entry()) == Some("") then Some(id) else old(Entry()))
    {
      hide IsAnswer, BestFirstSearch.Search;
      ghost var g, entry := nodes.vals, Entry();
      var nearest, _ := SearchInternal(vector, maxNeighbors);
      KeyCount(nodes);
      SearchedLinks(g, entry, maxNeighbors, vector, nearest);
      StoreAndLink(id, vector, IdList(nearest));
      InsertedFacts(g, entry, nodes.vals, id, vector, nearest);
    }

    lemma SearchedLinks(g: Graph, entry: Option<Id>, k: nat, vector: Vector, nearest: seq<Hit>)
      requires g == map[] ==> nearest == []
      requires g != map[] ==> entry.Some? && entry.value in g
      requires g != map[] ==> IsAnswer(Problem(g, Max(k, efSearch), cosine, vector), entry.value, k, nearest)
      ensures NoDup(IdList(nearest)) && Elems(IdList(nearest)) <= g.Keys && |IdList(nearest)| <= k
      ensures DistinctIds(nearest) && Ids(nearest) <= g.Keys
    {
      hide IsAnswer;
      if g != map[] { AnswerFacts(Problem(g, Max(k, efSearch), cosine, vector), entry.value, k, nearest); }
      IdListFacts(nearest);
    }

    /** `nodes.set`, then the back links, then the trim of the new node, which has nothing to cut. */
    method StoreAndLink(id: Id, vector: Vector, links: seq<Id>)
      requires nodes.Valid() && (entryPointId.Some? ==> entryPointId.value in nodes.vals)
      requires id !in nodes.vals && NoDup(links) && Elems(links) <= nodes.vals.Keys && |links| <= maxNeighbors
      modifies this`nodes, this`entryPointId
      ensures nodes.Valid() && nodes.keys == old(nodes.keys) + [id]
      ensures entryPointId.Some? && entryPointId.value in nodes.vals
      ensures entryPointId == (if old(entryPointId).None? || old(entryPointId) == Some("") then Some(id)
                               else old(entryPointId))
      ensures LinkedIn(old(nodes.vals), nodes.vals, id, vector, links, cosine, maxNeighbors)
    {
      ghost var g := nodes.vals;
      nodes := nodes.Set(id, Node(vector, links));
      if entryPointId.None? || entryPointId.value == "" {
        entryPointId := Some(id);
      }
      assert id !in Elems(links);
      LinkBack(id);
      BackLinkedIsLinkedIn(g, nodes.vals, id, vector, links, cosine, maxNeighbors);
      TrimNeighbors(id);
    }

    lemma InsertedBySearch(g: Graph, entry: Option<Id>, after: Graph, id: Id, vector: Vector, nearest: seq<Hit>)
      requires LinkedIn(g, after, id, vector, IdList(nearest), cosine, maxNeighbors)
      requires forall a :: a in IdList(nearest) ==>
          a in after && LinkKeptOrCrowdedOut(after, a, id, cosine, maxNeighbors)
      requires g == map[] ==> nearest == []
      requires g != map[] ==> entry.Some? && entry.value in g
      requires g != map[] ==>
                 IsAnswer(Problem(g, Max(maxNeighbors, efSearch), cosine, vector), entry.value, maxNeighbors, nearest)
      ensures Inserted(g, entry, after, id, vector)
    {
      hide IsAnswer, LinkKeptOrCrowdedOut, Linked;
    }

    lemma InsertedFacts(g: Graph, entry: Option<Id>, after: Graph, id: Id, vector: Vector, nearest: seq<Hit>)
      requires GraphOk(g, maxNeighbors) && id !in g
      requires LinkedIn(g, after, id, vector, IdList(nearest), cosine, maxNeighbors)
      requires g == map[] ==> nearest == []
      requires g != map[] ==> entry.Some? && entry.value in g
      requires g != map[] ==>
                 IsAnswer(Problem(g, Max(maxNeighbors, efSearch), cosine, vector), entry.value, maxNeighbors, nearest)
      ensures GraphOk(after, maxNeighbors)
      ensures Stores(g, entry, after, id, vector)
    {
      hide IsAnswer, Closed, Complete;
      var links := IdList(nearest);
      SearchedLinks(g, entry, maxNeighbors, vector, nearest);
      IdListFacts(nearest);
      LinkingKeepsGraphOk(g, after, id, vector, links, cosine, maxNeighbors);
      InsertedBySearch(g, entry, after, id, vector, nearest);
      hide Inserted, LinkKeptOrCrowdedOut;
      if Complete(g) && |after| <= maxNeighbors + 1 {
        assert |g| + 1 == |after| by { assert after.Keys == g.Keys + {id}; }
        if g != map[] {
          CompleteAnswerFindsAll(Problem(g, Max(maxNeighbors, efSearch), cosine, vector), entry.value, maxNeighbors,
              nearest);
        }
        LinkingKeepsComplete(g, after, id, vector, links, cosine, maxNeighbors);
      }
    }

    /** `filter` out the node itself, then `slice(0, maxNeighbors)`. */
    function OtherHits(hits: seq<Hit>, id: Id): seq<Hit> {
      var others := Filter(hits, OtherThan(id));
      others[..Min(|others|, maxNeighbors)]
    }

    /** A moved node is linked to the best hits in their order, itself left out, or the last one if it was not hit. */
    lemma ClosestOthers(hits: seq<Hit>, id: Id)
      requires DistinctIds(hits) && |hits| <= maxNeighbors + 1
      ensures id !in Ids(hits) ==> OtherHits(hits, id) == hits[..Min(|hits|, maxNeighbors)]
      ensures forall i :: 0 <= i < |hits| && hits[i].id == id ==> OtherHits(hits, id) == hits[..i] + hits[i + 1..]
    {
      if id !in Ids(hits) { FilterAll(hits, OtherThan(id)); }
      forall i | 0 <= i < |hits| && hits[i].id == id ensures OtherHits(hits, id) == hits[..i] + hits[i + 1..] {
        FilterWithout(hits, i, OtherThan(id));
      }
    }

    method Update(id: Id, vector: Vector) returns (outcome: Result<(), VectorError>)
      requires Valid()
      modifies this`nodes, this`entryPointId
      decreases if id in nodes.vals then 0 else 1
      ensures Valid()
      ensures outcome == if |vector| == dimensions then Ok(()) else Err(WrongSize(dimensions, |vector|))
      ensures outcome.Err? ==> nodes == old(nodes) && entryPointId == old(entryPointId)
      ensures outcome.Ok? ==> Contents() == old(Contents()).Set(id, normalize(vector))
      ensures outcome.Ok? ==> Stores(old(nodes.vals), old(Entry()), nodes.vals, id, normalize(vector))
      // an entry point stays; the first node becomes one, and a new node replaces the one with the empty id
      ensures outcome.Ok? ==>
                entryPointId == (if old(Entry()).None? || (id !in old(nodes.vals) && old(Entry()) == Some(""))
                                 then Some(id) else old(Entry()))
    {
      if |vector| != dimensions {
        return Err(WrongSize(dimensions, |vector|));
      }
      if id !in nodes.vals {
        outcome := Add(id, vector);
        return;
      }
      Relink(id, normalize(vector));
      outcome := Ok(());
    }

    method Relink(id: Id, vector: Vector)
      requires Valid() && id in nodes.vals
      modifies this`nodes, this`entryPointId
      ensures Valid() && Contents() == old(Contents()).Set(id, vector)
      ensures Stores(old(nodes.vals), old(Entry()), nodes.vals, id, vector)
      ensures entryPointId == old(Entry())
    {
      hide IsAnswer, BestFirstSearch.Search, Moved, Closed, Complete, NodeOk;
      ghost var g, entry := nodes.vals, Entry();
      assert nodes.keys != [] by { assert id in Elems(nodes.keys); }
      var nearest := MoveAndSearch(id, vector);
      var node := Node(vector, IdList(OtherHits(nearest, id)));
      SetTwice(g, id, g[id].(vector := vector), node);
      nodes := nodes.Set(id, node);
      MovedFacts(g, entry, nodes.vals, id, vector, nearest);
    }

    /** The search runs with the new vector already in place and the old links still there. */
    method MoveAndSearch(id: Id, vector: Vector) returns (nearest: seq<Hit>)
      requires Valid() && id in nodes.vals && nodes.keys != []
      modifies this`nodes, this`entryPointId
      ensures nodes.Valid() && nodes.keys == old(nodes.keys)
      ensures nodes.vals == old(nodes.vals)[id := old(nodes.vals)[id].(vector := vector)]
      ensures old(EntryId()) in old(nodes.vals) && entryPointId == Some(old(EntryId()))
      ensures IsAnswer(Problem(nodes.vals, Max(maxNeighbors + 1, efSearch), cosine, vector), old(EntryId()),
          maxNeighbors + 1, nearest)
    {
      hide IsAnswer, BestFirstSearch.Search;
      nodes := nodes.Set(id, nodes.vals[id].(vector := vector));
      var visited;
      nearest, visited := SearchInternal(vector, maxNeighbors + 1);
    }

    lemma MovedFacts(g: Graph, entry: Option<Id>, after: Graph, id: Id, vector: Vector, nearest: seq<Hit>)
      requires GraphOk(g, maxNeighbors) && id in g && entry.Some? && entry.value in g
      requires IsAnswer(Problem(g[id := g[id].(vector := vector)], Max(maxNeighbors + 1, efSearch), cosine, vector),
          entry.value, maxNeighbors + 1, nearest)
      requires after == g[id := Node(vector, IdList(OtherHits(nearest, id)))]
      ensures GraphOk(after, maxNeighbors)
      ensures Stores(g, entry, after, id, vector)
    {
      hide IsAnswer, Complete;
      var moved := g[id := g[id].(vector := vector)];
      var links := IdList(OtherHits(nearest, id));
      assert moved.Keys == g.Keys;
      AnswerFacts(Problem(moved, Max(maxNeighbors + 1, efSearch), cosine, vector), entry.value, maxNeighbors
          + 1, nearest);
      OtherHitsFacts(nearest, id, moved);
      IdListFacts(OtherHits(nearest, id));
      VectorsSet(g, id, Node(vector, links));
      RewiredGraphOk(g, id, Node(vector, links));
      assert Moved(g, entry, after, id, vector);
      if Complete(g) && |after| <= maxNeighbors + 1 { MovedComplete(g, entry.value, id, vector, nearest); }
    }

    lemma MovedComplete(g: Graph, entry: Id, id: Id, vector: Vector, nearest: seq<Hit>)
      requires GraphOk(g, maxNeighbors) && Complete(g) && id in g && entry in g && |g| <= maxNeighbors + 1
      requires IsAnswer(Problem(g[id := g[id].(vector := vector)], Max(maxNeighbors + 1, efSearch), cosine, vector),
                        entry, maxNeighbors + 1, nearest)
      ensures Complete(g[id := Node(vector, IdList(OtherHits(nearest, id)))])
    {
      hide IsAnswer, OtherHits;
      var moved := g[id := g[id].(vector := vector)];
      assert moved.Keys == g.Keys;
      var p := Problem(moved, Max(maxNeighbors + 1, efSearch), cosine, vector);
      MovedStaysComplete(g, id, vector);
      hide Complete, Closed, NodeOk;
      AnswerFacts(p, entry, maxNeighbors + 1, nearest);
      CompleteAnswerFindsAll(p, entry, maxNeighbors + 1, nearest);
      OtherHitsFacts(nearest, id, moved);
      IdListFacts(OtherHits(nearest, id));
      RewiredComplete(g, id, Node(vector, IdList(OtherHits(nearest, id))));
    }

    lemma RewiredComplete(g: Graph, id: Id, node: Node)
      requires id in g && Complete(g) && Elems(node.neighbors) == g.Keys - {id}
      ensures Complete(g[id := node])
    {
      forall b | b in g && b != id ensures b in node.neighbors { assert b in Elems(node.neighbors); }
    }

    lemma RewiredGraphOk(g: Graph, id: Id, node: Node)
      requires GraphOk(g, maxNeighbors) && id in g
      requires NoDup(node.neighbors) && |node.neighbors| <= maxNeighbors
      requires Elems(node.neighbors) <= g.Keys - {id}
      ensures GraphOk(g[id := node], maxNeighbors)
    {
      forall x | x in node.neighbors ensures x in g && x != id { assert x in Elems(node.neighbors); }
    }

    lemma MovedStaysComplete(g: Graph, id: Id, vector: Vector)
      requires id in g && Complete(g) && Closed(g)
      ensures Complete(g[id := g[id].(vector := vector)]) && Closed(g[id := g[id].(vector := vector)])
    {
    }

    lemma OtherHitsFacts(nearest: seq<Hit>, id: Id, moved: Graph)
      requires DistinctIds(nearest) && Ids(nearest) <= moved.Keys && id in moved
      ensures var kept := OtherHits(nearest, id);
              && DistinctIds(kept) && Ids(kept) <= moved.Keys - {id} && |kept| <= maxNeighbors
              && (Ids(nearest) == moved.Keys && |moved| <= maxNeighbors + 1 ==> Ids(kept) == moved.Keys - {id})
    {
      hide Closed, Complete;
      var others := Filter(nearest, OtherThan(id));
      OthersDistinct(nearest, id);
      forall h | h in others ensures h.id in moved && h.id != id { assert h.id in Ids(nearest); }
      if Ids(nearest) == moved.Keys && |moved| <= maxNeighbors + 1 { AllOthersKept(nearest, id, moved.Keys); }
    }

    lemma AllOthersKept(nearest: seq<Hit>, id: Id, ids: set<Id>)
      requires DistinctIds(nearest) && Ids(nearest) == ids && id in ids && |ids| <= maxNeighbors + 1
      ensures Ids(OtherHits(nearest, id)) == ids - {id}
    {
      var others := Filter(nearest, OtherThan(id));
      OthersDistinct(nearest, id);
      forall x | x in ids && x != id ensures x in Ids(others) {
        var i := PositionOf(nearest, x);
        assert nearest[i] in others;
      }
      assert Ids(others) == ids - {id};
      IdsCard(others);
      assert OtherHits(nearest, id) == others;
    }

    method Search(query: Vector, k: int) returns (outcome: Result<seq<Hit>, VectorError>)
      requires Valid()
      modifies this`entryPointId
      ensures Valid()
      ensures outcome.Ok? <==> |query| == dimensions
      ensures outcome.Err? ==> outcome.error == WrongSize(dimensions, |query|)
      ensures outcome.Ok? && nodes.keys == [] ==> outcome.value == []
      ensures outcome.Ok? && nodes.keys != [] ==> IsAnswer(Task(normalize(query), k), old(EntryId()), k, outcome.value)
      // the hits of a run that goes exactly as far as it is worth it
      ensures outcome.Ok? && nodes.keys != [] ==>
                exists count :: SearchExtent.Finds(Task(normalize(query), k), old(EntryId()), k, outcome.value, count)
      // with an ample list the hits are the best of everything visited
      ensures outcome.Ok? && nodes.keys != [] && Ample(Max(k, efSearch), k, maxNeighbors) ==>
                var p := Task(normalize(query), k);
                NoneBetter(p, outcome.value, BestFirstSearch.Search(p, old(EntryId())).visited)
    {
      if |query| != dimensions {
        return Err(WrongSize(dimensions, |query|));
      }
      ghost var p := Task(normalize(query), k);
      var hits, visited := SearchInternal(normalize(query), k);
      if nodes.keys != [] && Ample(p.ef, k, maxNeighbors) {
        AmpleAnswer(p, EntryId(), k, hits, maxNeighbors);
      }
      if nodes.keys != [] { FoundByRun(p, EntryId(), k); }
      outcome := Ok(hits);
    }

    method SearchWithDiagnostics(query: Vector, k: int)
      returns (outcome: Result<(seq<Hit>, nat, nat), VectorError>)
      requires Valid()
      modifies this`entryPointId
      ensures Valid()
      ensures outcome == (if |query| != dimensions then Err(WrongSize(dimensions, |query|))
                          else if nodes.keys == [] then Ok(([], 0, 0))
                          else var found := BestFirstSearch.Search(Task(normalize(query), k), old(EntryId()));
                               Ok((found.best[..SliceCount(|found.best|, k)], |found.visited|, |nodes.keys|)))
      ensures outcome.Ok? && nodes.keys != [] ==>
                SearchExtent.Finds(Task(normalize(query), k), old(EntryId()), k, outcome.value.0, outcome.value.1)
    {
      hide BestFirstSearch.Search;
      if |query| != dimensions {
        return Err(WrongSize(dimensions, |query|));
      }
      var hits, visited := SearchInternal(normalize(query), k);
      if nodes.keys != [] { FoundByRun(Task(normalize(query), k), EntryId(), k); }
      outcome := Ok((hits, |visited|, |nodes.keys|));
    }

    lemma FoundByRun(p: Problem, entry: Id, k: int)
      requires entry in p.g && p.ef >= 1 && GraphOk(p.g, maxNeighbors)
      ensures var found := BestFirstSearch.Search(p, entry);
              SearchExtent.Finds(p, entry, k, found.best[..SliceCount(|found.best|, k)], |found.visited|)
    {
      hide BestFirstSearch.Search, SearchExtent.Reaches;
      SearchExtent.SearchIsRun(p, entry);
    }

    method Clear()
      requires Valid()
      modifies this`nodes, this`entryPointId
      ensures Valid() && nodes == Empty() && entryPointId == None
    {
      nodes := Empty();
      entryPointId := None;
    }
  }

  function OtherThan(id: Id): Hit -> bool { (h: Hit) => h.id != id }

  lemma {:induction false} OthersDistinct(hits: seq<Hit>, id: Id)
    requires DistinctIds(hits)
    ensures DistinctIds(Filter(hits, OtherThan(id)))
  {
    if hits != [] {
      OthersDistinct(hits[..|hits| - 1], id);
      assert forall h :: h in hits[..|hits| - 1] ==> h.id != hits[|hits| - 1].id;
    }
  }
}

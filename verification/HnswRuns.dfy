/** Whole runs of the vector index, against a dictionary that only remembers the latest vectors. */
module HnswRuns {
  import opened Common
  import opened OrderedMaps
  import opened NeighborGraph
  import opened BestFirstSearch
  import opened HnswIndex

  datatype Op =
    | AddOp(id: Id, vector: Vector)
    | UpdateOp(id: Id, vector: Vector)
    | SearchOp(query: Vector, k: int)
    | ClearOp

  function LiveStep(live: OrderedMap<Id, Vector>, op: Op, dimensions: int, normalize: Vector -> Vector)
    : (r: OrderedMap<Id, Vector>)
    requires live.Valid()
    ensures r.Valid()
  {
    match op
    case AddOp(id, v) => if |v| == dimensions then live.Set(id, normalize(v)) else live
    case UpdateOp(id, v) => if |v| == dimensions then live.Set(id, normalize(v)) else live
    case SearchOp(_, _) => live
    case ClearOp => Empty()
  }

  /** The vectors a caller has stored, in the order their ids first came up since the last clear. */
  function Live(ops: seq<Op>, dimensions: int, normalize: Vector -> Vector): (r: OrderedMap<Id, Vector>)
    ensures r.Valid()
  {
    if ops == [] then Empty()
    else LiveStep(Live(ops[..|ops| - 1], dimensions, normalize), ops[|ops| - 1], dimensions, normalize)
  }

  /** The run never holds more than `limit` vectors at once. */
  ghost predicate NeverExceeds(ops: seq<Op>, limit: nat, dimensions: int, normalize: Vector -> Vector) {
    forall i :: 0 <= i <= |ops| ==> |Live(ops[..i], dimensions, normalize).keys| <= limit
  }

  method Apply(index: HnswIndex, op: Op)
    requires index.Valid()
    modifies index
    ensures index.Valid()
    ensures index.Contents() == LiveStep(old(index.Contents()), op, index.dimensions, index.normalize)
    ensures old(Complete(index.nodes.vals)) && |index.nodes.keys| <= index.maxNeighbors + 1 ==>
        Complete(index.nodes.vals)
  {
    KeyCount(index.nodes);
    match op {
      case AddOp(id, v) => var _ := index.Add(id, v);
      case UpdateOp(id, v) => var _ := index.Update(id, v);
      case SearchOp(query, k) => var _ := index.Search(query, k);
      case ClearOp => index.Clear();
    }
    KeyCount(index.nodes);
  }

  method Run(index: HnswIndex, ops: seq<Op>)
    requires index.Valid() && index.nodes == Empty()
    modifies index
    ensures index.Valid()
    ensures index.Contents() == Live(ops, index.dimensions, index.normalize)
    ensures NeverExceeds(ops, index.maxNeighbors + 1, index.dimensions, index.normalize) ==> Complete(index.nodes.vals)
  {
    for i := 0 to |ops|
      invariant index.Valid()
      invariant index.Contents() == Live(ops[..i], index.dimensions, index.normalize)
      invariant NeverExceeds(ops, index.maxNeighbors + 1, index.dimensions, index.normalize) ==>
          Complete(index.nodes.vals)
    {
      assert ops[..i + 1][..i] == ops[..i] && ops[..i + 1][i] == ops[i];
      Apply(index, ops[i]);
    }
    assert ops[..|ops|] == ops;
  }

  /** The index is a drop-in replacement for the brute-force scan as long as it stays small:
      whatever was added, moved, looked up and cleared before, the scores come out the same. */
  method RunThenSearch(dimensions: int, maxNeighbors: int, efSearch: int, normalize: Vector -> Vector,
                       cosine: Similarity, ops: seq<Op>, query: Vector, k: int)
    returns (outcome: Result<seq<Hit>, VectorError>)
    ensures outcome.Ok? <==> |query| == dimensions
    ensures var live := Live(ops, dimensions, normalize);
            && outcome.Ok?
            && NeverExceeds(ops, Max(2, maxNeighbors) + 1, dimensions, normalize)
            && |live.keys| <= Max(k, Max(4, efSearch)) ==>
              && (forall id :: id in live.keys ==> id in live.vals)
              && IsTopK(outcome.value, live.vals.Keys, k, live.vals, cosine, normalize(query))
              && Scores(outcome.value) == Scores(BruteForce(live.keys, live.vals, cosine, normalize(query), k))
  {
    var index := new HnswIndex(dimensions, maxNeighbors, efSearch, normalize, cosine);
    Run(index, ops);
    ghost var entry := index.Entry();
    outcome := index.Search(query, k);
    ghost var live := Live(ops, dimensions, normalize);
    if outcome.Ok? && NeverExceeds(ops, index.maxNeighbors + 1, dimensions, normalize)
       && |live.keys| <= Max(k, index.efSearch) {
      KeyCount(live);
      CompleteSearchIsBruteForce(index.Task(normalize(query), k), live, entry, k, outcome.value);
    }
  }

  /** In a complete graph a search with room for every node answers as the scan does. */
  lemma CompleteSearchIsBruteForce(p: Problem, live: OrderedMap<Id, Vector>, entry: Option<Id>, k: int,
                              result: seq<Hit>)
    requires live.Valid() && live.vals == Vectors(p.g)
    requires Complete(p.g) && Closed(p.g) && |p.g| <= p.ef && p.ef >= 1
    requires p.g == map[] ==> result == []
    requires p.g != map[] ==> entry.Some? && entry.value in p.g && IsAnswer(p, entry.value, k, result)
    ensures forall id :: id in live.keys ==> id in live.vals
    ensures IsTopK(result, live.vals.Keys, k, live.vals, p.sim, p.query)
    ensures Scores(result) == Scores(BruteForce(live.keys, live.vals, p.sim, p.query, k))
  {
    hide BestFirstSearch.Search;
    if p.g == map[] {
      assert live.vals.Keys == {};
    } else {
      CompleteReachesAll(p.g, entry.value);
      assert live.vals.Keys == p.g.Keys;
    }
    assert IsTopK(result, live.vals.Keys, k, live.vals, p.sim, p.query);
    BruteForceIsTopK(live.keys, live.vals, p.sim, p.query, k);
    TopKScoresUnique(result, BruteForce(live.keys, live.vals, p.sim, p.query, k), live.vals.Keys, k, live.vals, p.sim,
        p.query);
  }
}
